/** Runs of the web server in which files and directories are opened under certain numbers only, and runs put
    together from their last step backwards. */
module ServerRuns {
  import opened WebServer

  /** The step opens no file or directory, or the number it gets is one of these. */
  ghost predicate NumberFrom(numbers: iset<nat>, s: State, a: Action) {
    a.ThreadStep? && a.id < |s.conns| && Opens(s.conns[a.id].pc) && a.choice.number >= 0 ==>
      a.choice.number in numbers
  }

  ghost predicate OpensFrom(numbers: iset<nat>, s: State, actions: seq<Action>)
    decreases |actions|
  {
    actions == [] ||
    (Enabled(s, actions[0]) && NumberFrom(numbers, s, actions[0]) &&
     OpensFrom(numbers, Apply(s, actions[0]), actions[1..]))
  }

  ghost predicate Reaches(numbers: iset<nat>, s: State, t: State) {
    exists actions :: Runs(s, actions, t) && OpensFrom(numbers, s, actions)
  }

  lemma ReachesItself(numbers: iset<nat>, s: State)
    ensures Reaches(numbers, s, s)
  {
    assert Runs(s, [], s) && OpensFrom(numbers, s, []);
  }

  lemma StepFirst(numbers: iset<nat>, s: State, a: Action, t: State)
    requires Enabled(s, a) && NumberFrom(numbers, s, a) && Reaches(numbers, Apply(s, a), t)
    ensures Reaches(numbers, s, t)
  {
    var rest :| Runs(Apply(s, a), rest, t) && OpensFrom(numbers, Apply(s, a), rest);
    var actions := [a] + rest;
    assert actions[0] == a && actions[1..] == rest;
    assert Runs(s, actions, t) && OpensFrom(numbers, s, actions);
  }

  ghost predicate AllActive(s: State) {
    forall i | 0 <= i < |s.list| :: s.list[i] < |s.conns| && s.conns[s.list[i]].active
  }

  /** A sweep that finds nothing to erase. */
  lemma {:induction false} SweepFirst(numbers: iset<nat>, s: State, t: State)
    requires !s.crashed && s.main.Sweeping? && s.main.i <= |s.list| && AllActive(s)
    requires Reaches(numbers, s.(main := Accepting), t)
    ensures Reaches(numbers, s, t)
    decreases |s.list| - s.main.i
  {
    if s.main.i < |s.list| {
      assert AllActive(AfterSweep(s));
      SweepFirst(numbers, AfterSweep(s), t);
    }
    StepFirst(numbers, s, SweepStep, t);
  }

  function Connected(s: State, fd: int): State {
    s.(list := s.list + [|s.conns|], conns := s.conns + [Conn(fd, true, true, CheckFd)],
       kernel := Open(s.kernel, fd, Socket(|s.conns|)))
  }

  /** A client connects, and its thread is started. */
  lemma ConnectFirst(numbers: iset<nat>, s: State, fd: int, t: State)
    requires !s.crashed && s.main == Accepting && fd >= 0 && fd !in s.kernel.open && AllActive(s)
    requires Reaches(numbers, Connected(s, fd), t)
    ensures Reaches(numbers, s, t)
  {
    var accepted := AfterAccept(s, fd);
    var created := AfterCreate(accepted, true);
    assert created.conns == s.conns + [Conn(fd, true, true, CheckFd)];
    assert created.(main := Accepting) == Connected(s, fd);
    assert AllActive(created);
    SweepFirst(numbers, created, t);
    StepFirst(numbers, accepted, CreateThread(true), t);
    StepFirst(numbers, s, Accept(fd), t);
  }

  function Moved(s: State, id: Id, pc: ThreadPc): State
    requires id < |s.conns|
  {
    SetConn(s, id, s.conns[id].(pc := pc))
  }

  /** A step of a thread that opens and closes nothing. */
  lemma MoveFirst(numbers: iset<nat>, s: State, id: Id, pc: ThreadPc, ch: Choice, t: State)
    requires id < |s.conns| && !s.crashed && !Opens(pc) && !pc.FdMark? && pc != ClearFlag
    requires var c := s.conns[id].(pc := pc);
             Possible(s.kernel, c, ch) && !Crashes(c, ch) && NextKernel(s.kernel, id, c, ch) == s.kernel
    requires Reaches(numbers, Moved(s, id, NextPc(s.conns[id].(pc := pc), ch)), t)
    ensures Reaches(numbers, Moved(s, id, pc), t)
  {
    var c, now := s.conns[id].(pc := pc), Moved(s, id, pc);
    assert NextConn(c, ch) == s.conns[id].(pc := NextPc(c, ch));
    assert now.conns[id := NextConn(c, ch)] == s.conns[id := NextConn(c, ch)];
    StepFirst(numbers, now, ThreadStep(id, ch), t);
  }

  /** A thread reads the request, and its second read gives the result `read`. */
  lemma ReadFirst(numbers: iset<nat>, s: State, id: Id, read: ReadResult, t: State)
    requires id < |s.conns| && !s.crashed && s.conns[id].pc == CheckFd && s.conns[id].fd != -1
    requires Reaches(numbers, Moved(s, id, if read == Failure then FdTest(false) else Respond), t)
    ensures Reaches(numbers, s, t)
  {
    var data := Choice(Data, RegularFile, true, -1);
    MoveFirst(numbers, s, id, SecondRead, data.(read := read), t);
    MoveFirst(numbers, s, id, FirstRead, data, t);
    MoveFirst(numbers, s, id, CheckFd, data, t);
    assert Moved(s, id, CheckFd) == s by { assert s.conns[id := s.conns[id]] == s.conns; }
  }

  function Downloading(s: State, id: Id, number: nat): State
    requires id < |s.conns|
  {
    Moved(s, id, FileClose(number)).(kernel := Open(s.kernel, number, File(id)))
  }

  /** A thread opens a regular file under that number and sends it. */
  lemma DownloadFirst(numbers: iset<nat>, s: State, id: Id, number: nat, t: State)
    requires id < |s.conns| && !s.crashed && s.conns[id].pc == CheckFd && s.conns[id].fd != -1
    requires number in numbers && number !in s.kernel.open
    requires Truncated(number) == number
          || (Truncated(number) in s.kernel.open && s.kernel.open[Truncated(number)].File?)
    requires Reaches(numbers, Downloading(s, id, number), t)
    ensures Reaches(numbers, s, t)
  {
    var ch := Choice(Data, RegularFile, true, number);
    var holding := s.(kernel := Open(s.kernel, number, File(id)));
    assert Downloading(s, id, number) == Moved(holding, id, FileClose(number));
    MoveFirst(numbers, holding, id, FileSend(number), ch, t);
    OpenFirst(numbers, s, id, number, t);
    MoveFirst(numbers, s, id, Browse, ch, t);
    MoveFirst(numbers, s, id, Respond, ch, t);
    ReadFirst(numbers, s, id, Data, t);
  }

  lemma OpenFirst(numbers: iset<nat>, s: State, id: Id, number: nat, t: State)
    requires id < |s.conns| && !s.crashed && number in numbers && number !in s.kernel.open
    requires Reaches(numbers, Moved(s.(kernel := Open(s.kernel, number, File(id))), id, FileSend(number)), t)
    ensures Reaches(numbers, Moved(s, id, FileOpen), t)
  {
    var c, now := s.conns[id].(pc := FileOpen), Moved(s, id, FileOpen);
    var ch := Choice(Data, RegularFile, true, number);
    assert NextConn(c, ch) == s.conns[id].(pc := FileSend(number));
    assert now.conns[id := NextConn(c, ch)] == s.conns[id := NextConn(c, ch)];
    StepFirst(numbers, now, ThreadStep(id, ch), t);
  }
}
