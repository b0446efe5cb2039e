/** The files and directories that client threads leave open: which requests leave one, and that nothing ever
    closes it. */
module DescriptorLeaks {
  import opened WebServer
  import opened ConnectionLifetimes
  import opened DescriptorOwnership
  import opened ServerRuns

  /** A file or directory that the thread of the connection opened is open under that number. */
  ghost predicate OpenedBy(k: Kernel, id: Id, n: int) {
    n in k.open && (k.open[n] == Dir(id) || k.open[n] == File(id))
  }

  /** The thread is about to send or close it. */
  predicate HasInHand(pc: ThreadPc, n: int) {
    match pc
    case ListClose(dir, _) => dir == n
    case FileSend(file) => file == n
    case FileClose(file) => file == n
    case _ => false
  }

  ghost predicate Left(s: State, id: Id, n: int) {
    id < |s.conns| && OpenedBy(s.kernel, id, n) && !HasInHand(s.conns[id].pc, n)
  }

  ghost predicate LeftSome(s: State, id: Id) { exists n :: Left(s, id, n) }

  /** A directory was opened for a listing, or the listing or the sending of a file failed. */
  ghost predicate Leaves(s: State, a: Action, id: Id) {
    a.ThreadStep? && a.id == id && id < |s.conns| &&
    match s.conns[id].pc
    case DirOpen => a.choice.number != -1
    case ListClose(_, _) => !a.choice.ok
    case FileSend(_) => !a.choice.ok
    case _ => false
  }

  ghost predicate SomeLeaves(s: State, actions: seq<Action>, id: Id)
    decreases |actions|
  {
    && actions != [] && Enabled(s, actions[0])
    && (Leaves(s, actions[0], id) || SomeLeaves(Apply(s, actions[0]), actions[1..], id))
  }

  // ---------------------------------------------------------------- one step

  /** A descriptor that a step closes is the socket of a connection, or what the thread of the step has in hand. */
  lemma ClosedByStep(numbers: iset<nat>, s: State, a: Action, n: int)
    requires Inv(s) && DescriptorsOk(numbers, s) && Enabled(s, a)
    requires n in s.kernel.open && n !in Apply(s, a).kernel.open
    ensures s.kernel.open[n].Socket?
         || (a.ThreadStep? && HasInHand(s.conns[a.id].pc, n) && OpenedBy(s.kernel, a.id, n))
  {
    if a.ThreadStep? {
      assert FdOk(s, a.id) && HeldOk(s.kernel, a.id, s.conns[a.id].pc);
    } else if a.DestroyStep? {
      assert FdOk(s, s.list[s.main.i]);
    }
  }

  /** A step that opens a number changes no other, and one that is open stays as it is until it is closed. */
  lemma OpenAfterStep(s: State, a: Action, n: int)
    requires Enabled(s, a) && n in Apply(s, a).kernel.open
    ensures n in s.kernel.open ==> Apply(s, a).kernel.open[n] == s.kernel.open[n]
    ensures n !in s.kernel.open ==>
              && n != -1
              && (a == Accept(n) || (a.ThreadStep? && Opens(s.conns[a.id].pc) && a.choice.number == n))
  {
  }

  lemma LeftStays(numbers: iset<nat>, s: State, a: Action, id: Id, n: int)
    requires Inv(s) && DescriptorsOk(numbers, s) && Enabled(s, a) && Left(s, id, n)
    ensures Left(Apply(s, a), id, n)
  {
    var t := Apply(s, a);
    if n !in t.kernel.open {
      ClosedByStep(numbers, s, a, n);
    } else {
      OpenAfterStep(s, a, n);
      NotTakenUp(s, a, id, n);
    }
  }

  /** A thread takes nothing up that is open already. */
  lemma NotTakenUp(s: State, a: Action, id: Id, n: int)
    requires Enabled(s, a) && id < |s.conns| && n in s.kernel.open && !HasInHand(s.conns[id].pc, n)
    ensures !HasInHand(Apply(s, a).conns[id].pc, n)
  {
  }

  /** What is left after a step and was not before was left by it. */
  lemma LeftByStep(numbers: iset<nat>, s: State, a: Action, id: Id, n: int)
    requires Inv(s) && DescriptorsOk(numbers, s) && Enabled(s, a) && Left(Apply(s, a), id, n) && !Left(s, id, n)
    ensures Leaves(s, a, id)
  {
    OpenAfterStep(s, a, n);
    if n in s.kernel.open {
      assert HolderOk(numbers, s.conns, n, s.kernel.open[n]);
      assert HeldOk(s.kernel, id, s.conns[id].pc);
    }
  }

  /** A step that leaves something leaves this. */
  lemma StepLeaves(numbers: iset<nat>, s: State, a: Action, id: Id)
    requires Inv(s) && DescriptorsOk(numbers, s) && Enabled(s, a) && Leaves(s, a, id)
    ensures LeftSome(Apply(s, a), id)
  {
    var pc := s.conns[id].pc;
    var n := if pc.ListClose? then pc.dir else if pc.FileSend? then pc.file else a.choice.number;
    assert HeldOk(s.kernel, id, pc);
    assert Left(Apply(s, a), id, n);
  }

  lemma LeftStep(numbers: iset<nat>, s: State, a: Action, id: Id)
    requires Inv(s) && DescriptorsOk(numbers, s) && Enabled(s, a)
    ensures LeftSome(Apply(s, a), id) <==> LeftSome(s, id) || Leaves(s, a, id)
  {
    if n :| Left(s, id, n) {
      LeftStays(numbers, s, a, id, n);
    }
    if n :| Left(Apply(s, a), id, n) {
      if !Left(s, id, n) { LeftByStep(numbers, s, a, id, n); }
    }
    if Leaves(s, a, id) { StepLeaves(numbers, s, a, id); }
  }

  // ---------------------------------------------------------------- all runs

  lemma {:induction false} LeftRun(numbers: iset<nat>, s: State, actions: seq<Action>, t: State, id: Id)
    requires Harmless(numbers) && Inv(s) && DescriptorsOk(numbers, s)
    requires Runs(s, actions, t) && OpensFrom(numbers, s, actions)
    ensures LeftSome(t, id) <==> LeftSome(s, id) || SomeLeaves(s, actions, id)
    decreases |actions|
  {
    if actions != [] {
      StepKeeps(s, actions[0]);
      StepKeepsFds(numbers, s, actions[0]);
      LeftStep(numbers, s, actions[0], id);
      LeftRun(numbers, Apply(s, actions[0]), actions[1..], t, id);
    }
  }

  /** A client thread that is over has left a file or directory open if and only if it opened a directory for a
      listing, or a listing or the sending of a file failed. */
  lemma LeavesExactly(numbers: iset<nat>, actions: seq<Action>, t: State, id: Id)
    requires Harmless(numbers) && Runs(INIT, actions, t) && OpensFrom(numbers, INIT, actions)
    requires id < |t.conns| && t.conns[id].pc in {Return, Finished}
    ensures (exists n :: OpenedBy(t.kernel, id, n)) <==> SomeLeaves(INIT, actions, id)
  {
    LeftRun(numbers, INIT, actions, t, id);
    forall n ensures OpenedBy(t.kernel, id, n) <==> Left(t, id, n) {
    }
  }

  /** And what is left open stays open, after the connection is freed and for the rest of every run. */
  lemma {:induction false} LeftForGood(numbers: iset<nat>, s: State, actions: seq<Action>, t: State, id: Id, n: int)
    requires Harmless(numbers) && Inv(s) && DescriptorsOk(numbers, s) && Left(s, id, n)
    requires Runs(s, actions, t) && OpensFrom(numbers, s, actions)
    ensures OpenedBy(t.kernel, id, n)
    decreases |actions|
  {
    if actions != [] {
      StepKeeps(s, actions[0]);
      StepKeepsFds(numbers, s, actions[0]);
      LeftStays(numbers, s, actions[0], id, n);
      LeftForGood(numbers, Apply(s, actions[0]), actions[1..], t, id, n);
    }
  }

  /** A thread lists a directory only once the first `opendir` has succeeded. */
  ghost predicate Listing(s: State, id: Id) {
    id < |s.conns| && (s.conns[id].pc.ListOpen? || s.conns[id].pc.ListClose?)
  }

  lemma ListingBegins(s: State, a: Action, id: Id)
    requires Enabled(s, a) && Listing(Apply(s, a), id)
    ensures Listing(s, id) || Leaves(s, a, id)
  {
  }

  lemma {:induction false} ListingLeft(numbers: iset<nat>, s: State, actions: seq<Action>, t: State, id: Id)
    requires Harmless(numbers) && Inv(s) && DescriptorsOk(numbers, s) && (Listing(s, id) ==> LeftSome(s, id))
    requires Runs(s, actions, t) && OpensFrom(numbers, s, actions)
    ensures Listing(t, id) ==> LeftSome(t, id)
    decreases |actions|
  {
    if actions != [] {
      StepKeeps(s, actions[0]);
      StepKeepsFds(numbers, s, actions[0]);
      LeftStep(numbers, s, actions[0], id);
      if Listing(Apply(s, actions[0]), id) { ListingBegins(s, actions[0], id); }
      ListingLeft(numbers, Apply(s, actions[0]), actions[1..], t, id);
    }
  }

  /** So every listing leaves a descriptor open, for the rest of every run. */
  lemma ListingLeaks(numbers: iset<nat>, before: seq<Action>, s: State, actions: seq<Action>, t: State, id: Id)
    requires Harmless(numbers) && Runs(INIT, before, s) && OpensFrom(numbers, INIT, before) && Listing(s, id)
    requires Runs(s, actions, t) && OpensFrom(numbers, s, actions)
    ensures exists n :: OpenedBy(s.kernel, id, n) && OpenedBy(t.kernel, id, n)
  {
    RunKeepsFds(numbers, INIT, before, s);
    ListingLeft(numbers, INIT, before, s, id);
    var n :| Left(s, id, n);
    LeftForGood(numbers, s, actions, t, id, n);
  }
}
