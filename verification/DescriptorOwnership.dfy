/** The descriptors of the web server: who closes what, and when a download can end the socket of another
    client. */
module DescriptorOwnership {
  import opened WebServer
  import opened ConnectionLifetimes
  import opened ServerRuns

  ghost predicate DestructorAt(s: State, id: Id, stage: Stage) {
    InDestructor(s, id) && s.main.stage == stage
  }

  /** Between the `close` and the store that records it. */
  ghost predicate JustClosed(s: State, id: Id)
    requires id < |s.conns|
  {
    s.conns[id].pc.FdMark? || DestructorAt(s, id, AtFdMark)
  }

  ghost predicate AboutToClose(s: State, id: Id)
    requires id < |s.conns|
  {
    s.conns[id].pc.FdClose? || DestructorAt(s, id, AtFdClose)
  }

  // ---------------------------------------------------------------- safety

  /** No socket is ended twice; one that was accepted has been ended once when its connection is freed; and
      it is open under its number until its own connection closes it. */
  ghost predicate SocketSafe(s: State, id: Id)
    requires id < |s.conns|
  {
    && s.kernel.ended[id] <= 1
    && (id in s.freed && s.conns[id].fd != -1 ==> s.kernel.ended[id] == 1)
    && (s.conns[id].fd != -1 && s.conns[id].isOpen && !JustClosed(s, id) ==> IsSocketOf(s, id))
  }

  ghost predicate IsSocketOf(s: State, id: Id)
    requires id < |s.conns|
  {
    s.conns[id].fd in s.kernel.open && s.kernel.open[s.conns[id].fd] == Socket(id)
  }

  ghost predicate Safe(s: State) { forall id: Id | id < |s.conns| :: SocketSafe(s, id) }

  /** No number that is handed out for a file or directory is the truncation of another. */
  ghost predicate Harmless(numbers: iset<nat>) {
    forall n, m | n in numbers && m in numbers && Truncated(n) == m :: n == m
  }

  // ---------------------------------------------------------------- the invariant

  predicate NeverUsesFd(pc: ThreadPc) { pc in {NotStarted, CheckFd, ClearFlag, Return, Finished} }

  /** A descriptor is open in the kernel under its number until its own connection closes it, once; the
      open flag lags behind by at most one step. A failed `accept` leaves nothing to close. */
  ghost predicate FdOk(s: State, id: Id)
    requires id < |s.conns|
  {
    var c := s.conns[id];
    c.fd >= -1 &&
    if c.fd == -1 then s.kernel.ended[id] == 0 && NeverUsesFd(c.pc)
    else
      && s.kernel.ended[id] <= 1
      && (s.kernel.ended[id] == 0 <==> IsSocketOf(s, id))
      && (c.isOpen <==> s.kernel.ended[id] == 0 || JustClosed(s, id))
      && (JustClosed(s, id) ==> s.kernel.ended[id] == 1)
      && (AboutToClose(s, id) ==> s.kernel.ended[id] == 0)
  }

  /** What the thread is about to send or close is what it has opened. */
  ghost predicate HeldOk(k: Kernel, id: Id, pc: ThreadPc) {
    match pc
    case ListClose(dir, _) => dir in k.open && k.open[dir] == Dir(id)
    case FileSend(file) => file in k.open && k.open[file] == File(id)
    case FileClose(file) => file in k.open && k.open[file] == File(id) && file >= 0 && Truncated(file) == file
    case _ => true
  }

  ghost predicate HolderOk(numbers: iset<nat>, conns: seq<Conn>, n: int, holder: Holder) {
    && n >= 0 && holder.id < |conns|
    && (holder.Socket? ==> conns[holder.id].fd == n)
    && (!holder.Socket? ==> n in numbers)
  }

  ghost predicate KernelOk(numbers: iset<nat>, s: State) {
    && (forall n | n in s.kernel.open :: HolderOk(numbers, s.conns, n, s.kernel.open[n]))
    && (forall id | id in s.kernel.ended :: id < |s.conns|)
  }

  ghost predicate AllOk(s: State) {
    forall id: Id | id < |s.conns| :: FdOk(s, id) && HeldOk(s.kernel, id, s.conns[id].pc)
  }

  ghost predicate DescriptorsOk(numbers: iset<nat>, s: State) { KernelOk(numbers, s) && AllOk(s) }

  lemma SafeIfOk(numbers: iset<nat>, s: State)
    requires Inv(s) && DescriptorsOk(numbers, s)
    ensures Safe(s)
  {
    forall id: Id | id < |s.conns| ensures SocketSafe(s, id) {
      assert FdOk(s, id) && FlagOk(s.conns[id]);
      if id in s.freed { assert FreedOk(s.conns[id]); }
    }
  }

  // ---------------------------------------------------------------- main thread

  lemma AcceptKeepsFds(numbers: iset<nat>, s: State, fd: int)
    requires Inv(s) && DescriptorsOk(numbers, s) && Enabled(s, Accept(fd))
    ensures DescriptorsOk(numbers, AfterAccept(s, fd))
  {
    var t, id := AfterAccept(s, fd), |s.conns|;
    assert id !in s.kernel.ended;
    forall n | n in t.kernel.open ensures HolderOk(numbers, t.conns, n, t.kernel.open[n]) {
      if n in s.kernel.open { assert HolderOk(numbers, s.conns, n, s.kernel.open[n]); }
    }
    forall k: Id | k < |t.conns| ensures FdOk(t, k) && HeldOk(t.kernel, k, t.conns[k].pc) {
      if k < id {
        assert FdOk(s, k) && HeldOk(s.kernel, k, s.conns[k].pc) && t.conns[k] == s.conns[k];
      }
    }
  }

  lemma CreateKeepsFds(numbers: iset<nat>, s: State, ok: bool)
    requires Inv(s) && DescriptorsOk(numbers, s) && Enabled(s, CreateThread(ok))
    ensures DescriptorsOk(numbers, AfterCreate(s, ok))
  {
    var t := AfterCreate(s, ok);
    forall n | n in t.kernel.open ensures HolderOk(numbers, t.conns, n, t.kernel.open[n]) {
      assert HolderOk(numbers, s.conns, n, s.kernel.open[n]);
    }
    forall k: Id | k < |t.conns| ensures FdOk(t, k) && HeldOk(t.kernel, k, t.conns[k].pc) {
      assert FdOk(s, k) && HeldOk(s.kernel, k, s.conns[k].pc);
    }
  }

  lemma SweepKeepsFds(numbers: iset<nat>, s: State)
    requires Inv(s) && DescriptorsOk(numbers, s) && Enabled(s, SweepStep)
    ensures DescriptorsOk(numbers, AfterSweep(s))
  {
    var t := AfterSweep(s);
    forall k: Id | k < |t.conns| ensures FdOk(t, k) && HeldOk(t.kernel, k, t.conns[k].pc) {
      assert FdOk(s, k) && HeldOk(s.kernel, k, s.conns[k].pc);
    }
  }

  /** `close` by the connection the socket was accepted for. */
  lemma CloseOwn(numbers: iset<nat>, s: State, id: Id)
    requires DescriptorsOk(numbers, s) && id < |s.conns| && AboutToClose(s, id)
    ensures var fd, k := s.conns[id].fd, Close(s.kernel, s.conns[id].fd);
            if fd == -1 then k == s.kernel
            else fd in s.kernel.open && k == Kernel(s.kernel.open - {fd}, s.kernel.ended + multiset{id})
    ensures forall i: Id, pc | i < |s.conns| && HeldOk(s.kernel, i, pc) ::
              HeldOk(Close(s.kernel, s.conns[id].fd), i, pc)
  {
    assert FdOk(s, id);
    assert -1 in s.kernel.open ==> HolderOk(numbers, s.conns, -1, s.kernel.open[-1]);
  }

  /** After a `close` of its own, all but the closing connection are as before. */
  lemma ClosedOthers(numbers: iset<nat>, s: State, t: State, id: Id)
    requires DescriptorsOk(numbers, s) && id < |s.conns| && AboutToClose(s, id)
    requires t.kernel == Close(s.kernel, s.conns[id].fd) && |t.conns| == |s.conns|
    requires forall k: Id | k < |s.conns| :: t.conns[k].fd == s.conns[k].fd
    requires forall k: Id | k < |s.conns| && k != id ::
               && t.conns[k] == s.conns[k]
               && (JustClosed(t, k) <==> JustClosed(s, k)) && (AboutToClose(t, k) <==> AboutToClose(s, k))
    requires FdOk(t, id) && HeldOk(t.kernel, id, t.conns[id].pc)
    ensures DescriptorsOk(numbers, t)
  {
    CloseOwn(numbers, s, id);
    forall n | n in t.kernel.open ensures HolderOk(numbers, t.conns, n, t.kernel.open[n]) {
      assert HolderOk(numbers, s.conns, n, s.kernel.open[n]);
    }
    forall k: Id | k < |t.conns| && k != id ensures FdOk(t, k) && HeldOk(t.kernel, k, t.conns[k].pc) {
      assert FdOk(s, k) && FdOk(s, id) && HeldOk(s.kernel, k, s.conns[k].pc);
    }
  }

  lemma DestroyCloseKeepsFds(numbers: iset<nat>, s: State)
    requires Inv(s) && DescriptorsOk(numbers, s) && Enabled(s, DestroyStep) && s.main.stage == AtFdClose
    ensures DescriptorsOk(numbers, AfterDestroy(s))
  {
    var t, id := AfterDestroy(s), s.list[s.main.i];
    assert FdOk(s, id) && FlagOk(s.conns[id]);
    CloseOwn(numbers, s, id);
    ClosedOthers(numbers, s, t, id);
  }

  lemma DestroyPlainKeepsFds(numbers: iset<nat>, s: State)
    requires Inv(s) && DescriptorsOk(numbers, s) && Enabled(s, DestroyStep)
    requires s.main.stage in {InBody, AtFdTest, AtJoin}
    ensures DescriptorsOk(numbers, AfterDestroy(s))
  {
    var t, id := AfterDestroy(s), s.list[s.main.i];
    forall n | n in t.kernel.open ensures HolderOk(numbers, t.conns, n, t.kernel.open[n]) {
      assert HolderOk(numbers, s.conns, n, s.kernel.open[n]);
    }
    forall k: Id | k < |t.conns| ensures FdOk(t, k) && HeldOk(t.kernel, k, t.conns[k].pc) {
      assert FdOk(s, k) && HeldOk(s.kernel, k, s.conns[k].pc);
    }
  }

  lemma DestroyMarkKeepsFds(numbers: iset<nat>, s: State)
    requires Inv(s) && DescriptorsOk(numbers, s) && Enabled(s, DestroyStep) && s.main.stage == AtFdMark
    ensures DescriptorsOk(numbers, AfterDestroy(s))
  {
    var t, id := AfterDestroy(s), s.list[s.main.i];
    assert FlagOk(s.conns[id]);
    forall n | n in t.kernel.open ensures HolderOk(numbers, t.conns, n, t.kernel.open[n]) {
      assert HolderOk(numbers, s.conns, n, s.kernel.open[n]);
    }
    forall k: Id | k < |t.conns| ensures FdOk(t, k) && HeldOk(t.kernel, k, t.conns[k].pc) {
      assert FdOk(s, k) && HeldOk(s.kernel, k, s.conns[k].pc);
    }
  }

  lemma DestroyKeepsFds(numbers: iset<nat>, s: State)
    requires Inv(s) && DescriptorsOk(numbers, s) && Enabled(s, DestroyStep)
    ensures DescriptorsOk(numbers, AfterDestroy(s))
  {
    match s.main.stage {
      case AtFdClose => DestroyCloseKeepsFds(numbers, s);
      case AtFdMark => DestroyMarkKeepsFds(numbers, s);
      case _ => DestroyPlainKeepsFds(numbers, s);
    }
  }

  // ---------------------------------------------------------------- client threads

  /** A thread changes its connection and the kernel; the sockets stay as they are. */
  lemma SocketsStay(numbers: iset<nat>, s: State, id: Id, d: Conn, k: Kernel)
    requires DescriptorsOk(numbers, s) && id < |s.conns| && !InDestructor(s, id)
    requires d.fd == s.conns[id].fd && d.isOpen == s.conns[id].isOpen && !d.pc.FdMark? && !s.conns[id].pc.FdMark?
    requires d.pc.FdClose? ==> d.isOpen
    requires d.fd == -1 ==> NeverUsesFd(d.pc)
    requires k.ended == s.kernel.ended
    requires forall i, n ::
               n in k.open && k.open[n] == Socket(i) <==> n in s.kernel.open && s.kernel.open[n] == Socket(i)
    requires forall n | n in k.open :: HolderOk(numbers, s.conns, n, k.open[n])
    requires forall i: Id | i < |s.conns| && i != id :: HeldOk(k, i, s.conns[i].pc)
    requires HeldOk(k, id, d.pc)
    ensures DescriptorsOk(numbers, SetConn(s, id, d).(kernel := k))
  {
    var t := SetConn(s, id, d).(kernel := k);
    forall n | n in k.open ensures HolderOk(numbers, t.conns, n, k.open[n]) {
      assert HolderOk(numbers, s.conns, n, k.open[n]);
    }
    forall i: Id | i < |t.conns| ensures FdOk(t, i) && HeldOk(k, i, t.conns[i].pc) {
      assert FdOk(s, i);
    }
  }

  /** What a step that neither closes nor marks the socket makes of the connection. */
  lemma NextConnPlain(c: Conn, ch: Choice)
    requires c.pc !in {NotStarted, Finished} && !c.pc.FdClose? && !c.pc.FdMark?
    requires c.fd == -1 ==> NeverUsesFd(c.pc)
    ensures var d := NextConn(c, ch);
            && d.fd == c.fd && d.isOpen == c.isOpen && !d.pc.FdMark? && (d.pc.FdClose? ==> d.isOpen)
            && (d.fd == -1 ==> NeverUsesFd(d.pc))
  {
  }

  lemma OpenKeepsFds(numbers: iset<nat>, s: State, id: Id, ch: Choice)
    requires Inv(s) && DescriptorsOk(numbers, s) && Enabled(s, ThreadStep(id, ch)) && !InDestructor(s, id)
    requires NumberFrom(numbers, s, ThreadStep(id, ch)) && Opens(s.conns[id].pc)
    ensures DescriptorsOk(numbers, AfterThread(s, id, ch))
  {
    var c := s.conns[id];
    var k := NextKernel(s.kernel, id, c, ch);
    assert FdOk(s, id);
    NextConnPlain(c, ch);
    forall n | n in k.open ensures HolderOk(numbers, s.conns, n, k.open[n]) {
      if n in s.kernel.open { assert HolderOk(numbers, s.conns, n, s.kernel.open[n]); }
    }
    forall i: Id | i < |s.conns| && i != id ensures HeldOk(k, i, s.conns[i].pc) {
      assert HeldOk(s.kernel, i, s.conns[i].pc);
    }
    SocketsStay(numbers, s, id, NextConn(c, ch), k);
  }

  /** The end of a file or directory that the thread itself opened. */
  lemma CloseHeldKeepsFds(numbers: iset<nat>, s: State, id: Id, ch: Choice)
    requires Inv(s) && DescriptorsOk(numbers, s) && Enabled(s, ThreadStep(id, ch)) && !InDestructor(s, id)
    requires s.conns[id].pc.ListClose? || s.conns[id].pc.FileClose?
    ensures DescriptorsOk(numbers, AfterThread(s, id, ch))
  {
    var c := s.conns[id];
    var k := NextKernel(s.kernel, id, c, ch);
    assert FdOk(s, id) && HeldOk(s.kernel, id, c.pc);
    NextConnPlain(c, ch);
    forall n | n in k.open ensures HolderOk(numbers, s.conns, n, k.open[n]) {
      assert HolderOk(numbers, s.conns, n, s.kernel.open[n]);
    }
    forall i: Id | i < |s.conns| && i != id ensures HeldOk(k, i, s.conns[i].pc) {
      assert HeldOk(s.kernel, i, s.conns[i].pc);
    }
    SocketsStay(numbers, s, id, NextConn(c, ch), k);
  }

  /** `sendfile` has found a file or directory under the truncated number; among harmless numbers that is the
      file's own. */
  lemma SentItsOwn(numbers: iset<nat>, s: State, id: Id, ch: Choice)
    requires Harmless(numbers) && DescriptorsOk(numbers, s) && Enabled(s, ThreadStep(id, ch))
    requires s.conns[id].pc.FileSend? && ch.ok
    ensures Truncated(s.conns[id].pc.file) == s.conns[id].pc.file
  {
    var file := s.conns[id].pc.file;
    assert HeldOk(s.kernel, id, s.conns[id].pc);
    assert HolderOk(numbers, s.conns, file, s.kernel.open[file]);
    assert HolderOk(numbers, s.conns, Truncated(file), s.kernel.open[Truncated(file)]);
  }

  lemma PlainKeepsFds(numbers: iset<nat>, s: State, id: Id, ch: Choice)
    requires Harmless(numbers) && Inv(s) && DescriptorsOk(numbers, s) && Enabled(s, ThreadStep(id, ch))
    requires !InDestructor(s, id) || s.conns[id].pc == Return
    requires var pc := s.conns[id].pc;
             !Opens(pc) && !pc.ListClose? && !pc.FileClose? && !pc.FdClose? && !pc.FdMark? && !Crashes(s.conns[id], ch)
    ensures DescriptorsOk(numbers, AfterThread(s, id, ch))
  {
    var c := s.conns[id];
    var t := AfterThread(s, id, ch);
    assert FdOk(s, id) && HeldOk(s.kernel, id, c.pc);
    NextConnPlain(c, ch);
    if c.pc.FileSend? && ch.ok { SentItsOwn(numbers, s, id, ch); }
    assert t.kernel == s.kernel;
    forall n | n in t.kernel.open ensures HolderOk(numbers, t.conns, n, t.kernel.open[n]) {
      assert HolderOk(numbers, s.conns, n, s.kernel.open[n]);
    }
    assert HeldOk(s.kernel, id, NextConn(c, ch).pc);
    forall i: Id | i < |t.conns| ensures FdOk(t, i) && HeldOk(t.kernel, i, t.conns[i].pc) {
      assert FdOk(s, i) && HeldOk(s.kernel, i, s.conns[i].pc);
    }
  }

  lemma FdCloseKeepsFds(numbers: iset<nat>, s: State, id: Id, ch: Choice)
    requires Inv(s) && DescriptorsOk(numbers, s) && Enabled(s, ThreadStep(id, ch)) && !InDestructor(s, id)
    requires s.conns[id].pc.FdClose?
    ensures DescriptorsOk(numbers, AfterThread(s, id, ch))
  {
    assert FdOk(s, id);
    CloseOwn(numbers, s, id);
    ClosedOthers(numbers, s, AfterThread(s, id, ch), id);
  }

  lemma FdMarkKeepsFds(numbers: iset<nat>, s: State, id: Id, ch: Choice)
    requires Inv(s) && DescriptorsOk(numbers, s) && Enabled(s, ThreadStep(id, ch)) && !InDestructor(s, id)
    requires s.conns[id].pc.FdMark?
    ensures DescriptorsOk(numbers, AfterThread(s, id, ch))
  {
    var t := AfterThread(s, id, ch);
    forall n | n in t.kernel.open ensures HolderOk(numbers, t.conns, n, t.kernel.open[n]) {
      assert HolderOk(numbers, s.conns, n, s.kernel.open[n]);
    }
    forall i: Id | i < |t.conns| ensures FdOk(t, i) && HeldOk(t.kernel, i, t.conns[i].pc) {
      assert FdOk(s, i) && HeldOk(s.kernel, i, s.conns[i].pc);
    }
  }

  lemma ThreadKeepsFds(numbers: iset<nat>, s: State, id: Id, ch: Choice)
    requires Harmless(numbers) && Inv(s) && DescriptorsOk(numbers, s) && Enabled(s, ThreadStep(id, ch))
    requires NumberFrom(numbers, s, ThreadStep(id, ch))
    ensures DescriptorsOk(numbers, AfterThread(s, id, ch))
  {
    var c := s.conns[id];
    assert FlagOk(c);
    assert InDestructor(s, id) ==> c.pc == Return;
    if Crashes(c, ch) {
      CrashKeepsFds(numbers, s);
    } else if Opens(c.pc) {
      OpenKeepsFds(numbers, s, id, ch);
    } else if c.pc.ListClose? || c.pc.FileClose? {
      CloseHeldKeepsFds(numbers, s, id, ch);
    } else if c.pc.FdClose? {
      FdCloseKeepsFds(numbers, s, id, ch);
    } else if c.pc.FdMark? {
      FdMarkKeepsFds(numbers, s, id, ch);
    } else {
      PlainKeepsFds(numbers, s, id, ch);
    }
  }

  lemma CrashKeepsFds(numbers: iset<nat>, s: State)
    requires DescriptorsOk(numbers, s)
    ensures DescriptorsOk(numbers, s.(crashed := true))
  {
    forall i: Id | i < |s.conns| ensures FdOk(s.(crashed := true), i) {
      assert FdOk(s, i);
    }
  }

  // ---------------------------------------------------------------- all runs

  lemma StepKeepsFds(numbers: iset<nat>, s: State, a: Action)
    requires Harmless(numbers) && Inv(s) && DescriptorsOk(numbers, s) && Enabled(s, a) && NumberFrom(numbers, s, a)
    ensures DescriptorsOk(numbers, Apply(s, a))
  {
    match a {
      case Accept(fd) => AcceptKeepsFds(numbers, s, fd);
      case CreateThread(ok) => CreateKeepsFds(numbers, s, ok);
      case SweepStep => SweepKeepsFds(numbers, s);
      case DestroyStep => DestroyKeepsFds(numbers, s);
      case ThreadStep(id, choice) => ThreadKeepsFds(numbers, s, id, choice);
    }
  }

  lemma {:induction false} RunKeepsFds(numbers: iset<nat>, s: State, actions: seq<Action>, t: State)
    requires Harmless(numbers) && Inv(s) && DescriptorsOk(numbers, s)
    requires Runs(s, actions, t) && OpensFrom(numbers, s, actions)
    ensures Inv(t) && DescriptorsOk(numbers, t)
    decreases |actions|
  {
    if actions != [] {
      StepKeeps(s, actions[0]);
      StepKeepsFds(numbers, s, actions[0]);
      RunKeepsFds(numbers, Apply(s, actions[0]), actions[1..], t);
    }
  }

  /** Every interleaving is safe while files and directories are opened under harmless numbers. */
  lemma DescriptorSafety(numbers: iset<nat>, actions: seq<Action>, t: State)
    requires Harmless(numbers) && Runs(INIT, actions, t) && OpensFrom(numbers, INIT, actions)
    ensures Safe(t)
  {
    RunKeepsFds(numbers, INIT, actions, t);
    SafeIfOk(numbers, t);
  }

  // ---------------------------------------------------------------- the limit

  /** Two clients with their threads, at the descriptors `fd` and `fd + 1`. */
  function TwoClients(fd: int): State { Connected(Connected(INIT, fd), fd + 1) }

  /** Each downloads a file, the second under a number that is truncated to that of the first. */
  function TwoDownloads(n: nat, m: nat): State {
    Downloading(Downloading(TwoClients(n + 1), 0, m), 1, n)
  }

  /** The second closes the file of the first, whose number goes to a third client; then the first closes the
      number again, and with it the socket of that client. */
  function ThirdClient(n: nat, m: nat): State {
    var s := TwoDownloads(n, m);
    AfterAccept(Moved(s, 1, FdTest(true)).(kernel := Close(s.kernel, m)), m)
  }

  function ThirdClientLost(n: nat, m: nat): State {
    var s := ThirdClient(n, m);
    Moved(s, 0, FdTest(true)).(kernel := Close(s.kernel, m))
  }

  lemma LostIsUnsafe(n: nat, m: nat)
    requires Truncated(n) == m < n
    ensures !Safe(ThirdClientLost(n, m))
  {
    var t := ThirdClientLost(n, m);
    assert t.conns[2] == Conn(m, true, true, NotStarted);
    assert m !in t.kernel.open;
    assert !SocketSafe(t, 2);
  }

  lemma LostFirst(numbers: iset<nat>, n: nat, m: nat)
    requires Truncated(n) == m < n
    ensures Reaches(numbers, TwoDownloads(n, m), ThirdClientLost(n, m))
  {
    var closing, third, lost := TwoDownloads(n, m), ThirdClient(n, m), ThirdClientLost(n, m);
    var ch := Choice(Data, RegularFile, true, -1);
    assert Truncated(m) == m;
    ReachesItself(numbers, lost);
    assert third.conns[0] == Conn(n + 1, true, true, FileClose(m));
    assert Apply(third, ThreadStep(0, ch)) == lost;
    StepFirst(numbers, third, ThreadStep(0, ch), lost);
    var free := Moved(closing, 1, FdTest(true)).(kernel := Close(closing.kernel, m));
    assert m !in free.kernel.open;
    StepFirst(numbers, free, Accept(m), lost);
    assert closing.conns[1] == Conn(n + 2, true, true, FileClose(n));
    assert Apply(closing, ThreadStep(1, ch)) == free;
    StepFirst(numbers, closing, ThreadStep(1, ch), lost);
  }

  lemma DownloadsFirst(numbers: iset<nat>, n: nat, m: nat, t: State)
    requires n in numbers && m in numbers && Truncated(n) == m < n && Reaches(numbers, TwoDownloads(n, m), t)
    ensures Reaches(numbers, TwoClients(n + 1), t)
  {
    var two := TwoClients(n + 1);
    var first := Downloading(two, 0, m);
    assert Truncated(m) == m;
    assert first.conns[1] == Conn(n + 2, true, true, CheckFd);
    assert first.kernel.open[m] == File(0);
    DownloadFirst(numbers, first, 1, n, t);
    DownloadFirst(numbers, two, 0, m, t);
  }

  lemma ClientsFirst(numbers: iset<nat>, fd: nat, t: State)
    requires Reaches(numbers, TwoClients(fd), t)
    ensures Reaches(numbers, INIT, t)
  {
    ConnectFirst(numbers, Connected(INIT, fd), fd + 1, t);
    ConnectFirst(numbers, INIT, fd, t);
  }

  /** A number and its truncation suffice to lose the socket of a client. */
  lemma UnsafeIsReached(numbers: iset<nat>, n: nat, m: nat)
    requires n in numbers && m in numbers && Truncated(n) == m && n != m
    ensures exists actions, t :: Runs(INIT, actions, t) && OpensFrom(numbers, INIT, actions) && !Safe(t)
  {
    var lost := ThirdClientLost(n, m);
    LostFirst(numbers, n, m);
    DownloadsFirst(numbers, n, m, lost);
    ClientsFirst(numbers, n + 1, lost);
    LostIsUnsafe(n, m);
  }

  /** Safety holds in every interleaving if and only if no number that is handed out is the truncation of another. */
  lemma SafeExactly(numbers: iset<nat>)
    ensures (forall actions, t | Runs(INIT, actions, t) && OpensFrom(numbers, INIT, actions) :: Safe(t))
        <==> Harmless(numbers)
  {
    if Harmless(numbers) {
      forall actions, t | Runs(INIT, actions, t) && OpensFrom(numbers, INIT, actions) ensures Safe(t) {
        DescriptorSafety(numbers, actions, t);
      }
    } else {
      var n, m :| n in numbers && m in numbers && Truncated(n) == m && n != m;
      UnsafeIsReached(numbers, n, m);
    }
  }

  /** What the truncation is: the number that a signed `char` holds, and that differs by a multiple of 256. */
  lemma TruncatedIs(number: nat)
    ensures -128 <= Truncated(number) < 128 && (number - Truncated(number)) % 256 == 0
  {
  }

  /** When these are all numbers below a limit on descriptors, that is a limit of at most 256. */
  lemma DescriptorLimit(numbers: iset<nat>, limit: nat)
    requires forall n: nat :: n in numbers <==> n < limit
    ensures (forall actions, t | Runs(INIT, actions, t) && OpensFrom(numbers, INIT, actions) :: Safe(t))
        <==> limit <= 256
  {
    SafeExactly(numbers);
    if limit > 256 {
      assert 256 in numbers && 0 in numbers && Truncated(256) == 0;
    }
  }
}
