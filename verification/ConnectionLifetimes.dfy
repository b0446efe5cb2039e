/** The connections of the web server: how long they live, and which of them are reaped. All of it holds in
    every interleaving, whatever becomes of the descriptors. */
module ConnectionLifetimes {
  import opened WebServer
  import opened ServerRuns

  // ---------------------------------------------------------------- the invariant

  /** The list is in accept order, and holds exactly the connections not yet freed. */
  ghost predicate ListOk(s: State) {
    && (forall i, j | 0 <= i < j < |s.list| :: s.list[i] < s.list[j])
    && (forall i | 0 <= i < |s.list| :: s.list[i] < |s.conns|)
    && (forall id :: id in s.freed ==> id < |s.conns|)
    && (forall id: Id | id < |s.conns| :: id in s.list <==> id !in s.freed)
  }

  ghost predicate MainOk(s: State) {
    match s.main
    case Accepting => true
    case Creating => s.list != [] && s.list[|s.list| - 1] < |s.conns| && s.conns[s.list[|s.list| - 1]].pc == NotStarted
    case Sweeping(i) => i <= |s.list|
    case Destroying(i, stage) =>
      && i < |s.list| && s.list[i] < |s.conns| && !s.conns[s.list[i]].active
      && (stage == AtJoin ==> !s.conns[s.list[i]].isOpen)
      && (stage in {AtFdClose, AtFdMark} ==> s.conns[s.list[i]].isOpen)
  }

  /** Only a thread that is done with its connection has cleared the flag. */
  ghost predicate FlagOk(c: Conn) { !c.active ==> c.pc in {Return, Finished} }

  ghost predicate FreedOk(c: Conn) { !c.active && c.pc == Finished && !c.isOpen }

  ghost predicate ConnsOk(s: State) {
    && (forall id: Id | id < |s.conns| :: FlagOk(s.conns[id]))
    && (forall id: Id | id in s.freed && id < |s.conns| :: FreedOk(s.conns[id]))
  }

  ghost predicate Inv(s: State) { ListOk(s) && MainOk(s) && ConnsOk(s) }

  lemma AcceptKeeps(s: State, fd: int)
    requires Inv(s) && Enabled(s, Accept(fd))
    ensures Inv(AfterAccept(s, fd))
  {
    var t, id := AfterAccept(s, fd), |s.conns|;
    forall k: Id | k < |t.conns| ensures k in t.list <==> k !in t.freed {
      if k == id { assert t.list[|s.list|] == id; }
    }
  }

  lemma CreateKeeps(s: State, ok: bool)
    requires Inv(s) && Enabled(s, CreateThread(ok))
    ensures Inv(AfterCreate(s, ok))
  {
    assert s.list[|s.list| - 1] in s.list;
  }

  lemma SweepKeeps(s: State)
    requires Inv(s) && Enabled(s, SweepStep)
    ensures Inv(AfterSweep(s))
  {
  }

  lemma EraseKeepsOrder(list: seq<Id>, i: nat)
    requires i < |list| && forall j, k | 0 <= j < k < |list| :: list[j] < list[k]
    ensures var r := list[..i] + list[i + 1..];
            (forall j, k | 0 <= j < k < |r| :: r[j] < r[k]) && (forall id :: id in r <==> id in list && id != list[i])
  {
    var r := list[..i] + list[i + 1..];
    assert list == list[..i] + [list[i]] + list[i + 1..];
    forall id ensures id in r <==> id in list && id != list[i] {
    }
  }

  lemma DestroyJoinKeeps(s: State)
    requires Inv(s) && Enabled(s, DestroyStep) && s.main.stage == AtJoin
    ensures Inv(AfterDestroy(s))
  {
    var t, id := AfterDestroy(s), s.list[s.main.i];
    assert id in s.list && FlagOk(s.conns[id]);
    EraseKeepsOrder(s.list, s.main.i);
    forall k | 0 <= k < |t.list| ensures t.list[k] < |t.conns| {
      assert t.list[k] in t.list;
    }
  }

  lemma DestroyKeeps(s: State)
    requires Inv(s) && Enabled(s, DestroyStep)
    ensures Inv(AfterDestroy(s))
  {
    if s.main.stage == AtJoin {
      DestroyJoinKeeps(s);
    } else {
      assert s.list[s.main.i] in s.list;
    }
  }

  lemma NextConnOk(c: Conn, ch: Choice)
    requires FlagOk(c) && c.pc !in {NotStarted, Finished}
    ensures FlagOk(NextConn(c, ch)) && NextConn(c, ch).fd == c.fd
    ensures !c.active ==> c.pc == Return && NextConn(c, ch) == c.(pc := Finished)
  {
  }

  /** A connection that is not freed changes, but not once its flag is clear, its thread aside. */
  lemma ReplaceKeeps(s: State, id: Id, d: Conn, k: Kernel)
    requires Inv(s) && id < |s.conns| && id !in s.freed && s.conns[id].pc != NotStarted && FlagOk(d)
    requires !s.conns[id].active ==> d == s.conns[id].(pc := Finished)
    ensures Inv(SetConn(s, id, d).(kernel := k))
  {
  }

  /** A thread that can move has not been freed. */
  lemma ThreadKeeps(s: State, id: Id, ch: Choice)
    requires Inv(s) && Enabled(s, ThreadStep(id, ch))
    ensures Inv(AfterThread(s, id, ch))
  {
    var c := s.conns[id];
    assert FlagOk(c) && id !in s.freed;
    if !Crashes(c, ch) {
      NextConnOk(c, ch);
      ReplaceKeeps(s, id, NextConn(c, ch), NextKernel(s.kernel, id, c, ch));
    }
  }

  /** Every action keeps the invariant. */
  lemma StepKeeps(s: State, a: Action)
    requires Inv(s) && Enabled(s, a)
    ensures Inv(Apply(s, a))
  {
    match a {
      case Accept(fd) => AcceptKeeps(s, fd);
      case CreateThread(ok) => CreateKeeps(s, ok);
      case SweepStep => SweepKeeps(s);
      case DestroyStep => DestroyKeeps(s);
      case ThreadStep(id, choice) => ThreadKeeps(s, id, choice);
    }
  }

  lemma {:induction false} RunKeeps(s: State, actions: seq<Action>, t: State)
    requires Inv(s) && Runs(s, actions, t)
    ensures Inv(t)
    decreases |actions|
  {
    if actions != [] {
      StepKeeps(s, actions[0]);
      RunKeeps(Apply(s, actions[0]), actions[1..], t);
    }
  }

  // ---------------------------------------------------------------- lifetimes

  /** In every interleaving the connections are in accept order, and a thread that can still touch its
      connection finds it neither freed nor in its destructor. */
  lemma Lifetimes(actions: seq<Action>, t: State)
    requires Runs(INIT, actions, t)
    ensures forall i, j | 0 <= i < j < |t.list| :: t.list[i] < t.list[j]
    ensures forall id: Id | id < |t.conns| && t.conns[id].pc !in {NotStarted, Return, Finished} ::
              id !in t.freed && !InDestructor(t, id) && id in t.list
  {
    RunKeeps(INIT, actions, t);
    forall id: Id | id < |t.conns| && t.conns[id].pc !in {NotStarted, Return, Finished}
      ensures id !in t.freed && !InDestructor(t, id) && id in t.list
    {
      assert FlagOk(t.conns[id]);
    }
  }

  /** The join in a destructor never waits for a thread that still has work to do with its connection: the
      thread has ended, or its next step, which is its last, is enabled. */
  lemma JoinEnds(actions: seq<Action>, t: State, choice: Choice)
    requires Runs(INIT, actions, t) && !t.crashed && t.main.Destroying? && t.main.stage == AtJoin
    ensures t.main.i < |t.list| && t.list[t.main.i] < |t.conns|
    ensures var id := t.list[t.main.i];
            Enabled(t, DestroyStep) ||
            (Enabled(t, ThreadStep(id, choice)) && Enabled(Apply(t, ThreadStep(id, choice)), DestroyStep))
  {
    RunKeeps(INIT, actions, t);
    LastStep(t, choice);
  }

  lemma LastStep(t: State, choice: Choice)
    requires MainOk(t) && ConnsOk(t) && !t.crashed && t.main.Destroying? && t.main.stage == AtJoin
    ensures var id := t.list[t.main.i];
            Enabled(t, DestroyStep) ||
            (Enabled(t, ThreadStep(id, choice)) && Enabled(Apply(t, ThreadStep(id, choice)), DestroyStep))
  {
    var c := t.conns[t.list[t.main.i]];
    assert FlagOk(c);
    if c.pc == Return {
      assert !Crashes(c, choice) && NextConn(c, choice).pc == Finished;
    }
  }

  /** A thread that has cleared its flag, next to one that is starting; the first is in its destructor. */
  function Joining(stage: Stage, first: Conn): State {
    State(Destroying(0, stage), [0, 1], [first, Conn(-1, true, true, CheckFd)], {}, Kernel(map[], multiset{}), false)
  }

  lemma JoiningFirst(numbers: iset<nat>)
    ensures Reaches(numbers, Joining(InBody, Conn(-1, true, false, Return)),
                    Joining(AtJoin, Conn(-1, false, false, Return)))
  {
    var before, after := Conn(-1, true, false, Return), Conn(-1, false, false, Return);
    var t := Joining(AtJoin, after);
    ReachesItself(numbers, t);
    assert Apply(Joining(AtFdMark, before), DestroyStep) == t;
    StepFirst(numbers, Joining(AtFdMark, before), DestroyStep, t);
    assert Apply(Joining(AtFdClose, before), DestroyStep) == Joining(AtFdMark, before);
    StepFirst(numbers, Joining(AtFdClose, before), DestroyStep, t);
    assert Apply(Joining(AtFdTest, before), DestroyStep) == Joining(AtFdClose, before);
    StepFirst(numbers, Joining(AtFdTest, before), DestroyStep, t);
    assert Apply(Joining(InBody, before), DestroyStep) == Joining(AtFdTest, before);
    StepFirst(numbers, Joining(InBody, before), DestroyStep, t);
  }

  /** A client whose `accept` has failed; its thread is there. */
  function Failed(main: MainPc, first: Conn): State {
    State(main, [0], [first], {}, Kernel(map[], multiset{}), false)
  }

  lemma SecondFirst(numbers: iset<nat>, t: State)
    requires Reaches(numbers, Joining(InBody, Conn(-1, true, false, Return)), t)
    ensures Reaches(numbers, Failed(Accepting, Conn(-1, true, false, Return)), t)
  {
    var c := Conn(-1, true, false, Return);
    var two := Failed(Creating, c).(list := [0, 1], conns := [c, Conn(-1, true, true, NotStarted)]);
    var sweeping := Joining(InBody, c).(main := Sweeping(0));
    assert Apply(sweeping, SweepStep) == Joining(InBody, c);
    StepFirst(numbers, sweeping, SweepStep, t);
    assert Apply(two, CreateThread(true)) == sweeping;
    StepFirst(numbers, two, CreateThread(true), t);
    assert Apply(Failed(Accepting, c), Accept(-1)) == two;
    StepFirst(numbers, Failed(Accepting, c), Accept(-1), t);
  }

  lemma ClearingFirst(numbers: iset<nat>, t: State)
    requires Reaches(numbers, Failed(Accepting, Conn(-1, true, false, Return)), t)
    ensures Reaches(numbers, Failed(Accepting, Conn(-1, true, true, CheckFd)), t)
  {
    var step, cleared := ThreadStep(0, Choice(Nothing, Nowhere, true, -1)), Conn(-1, true, false, Return);
    var clearing, checking := Conn(-1, true, true, ClearFlag), Conn(-1, true, true, CheckFd);
    assert Apply(Failed(Accepting, clearing), step) == Failed(Accepting, cleared);
    StepFirst(numbers, Failed(Accepting, clearing), step, t);
    assert Apply(Failed(Accepting, checking), step) == Failed(Accepting, clearing);
    StepFirst(numbers, Failed(Accepting, checking), step, t);
  }

  lemma StartFirst(numbers: iset<nat>, t: State)
    requires Reaches(numbers, Failed(Accepting, Conn(-1, true, true, CheckFd)), t)
    ensures Reaches(numbers, INIT, t)
  {
    var started, created := Failed(Sweeping(0), Conn(-1, true, true, CheckFd)),
                            Failed(Creating, Conn(-1, true, true, NotStarted));
    SweepFirst(numbers, started, t);
    assert Apply(created, CreateThread(true)) == started;
    StepFirst(numbers, created, CreateThread(true), t);
    assert Apply(INIT, Accept(-1)) == created;
    StepFirst(numbers, INIT, Accept(-1), t);
  }

  /** And the join is needed: a run leads to a destructor that finds its thread still there. */
  lemma JoinMayWait()
    ensures exists actions, t ::
              Runs(INIT, actions, t) && !t.crashed && t.main == Destroying(0, AtJoin) && !Enabled(t, DestroyStep)
  {
    var numbers, t := iset{}, Joining(AtJoin, Conn(-1, false, false, Return));
    JoiningFirst(numbers);
    SecondFirst(numbers, t);
    ClearingFirst(numbers, t);
    StartFirst(numbers, t);
  }

  // ---------------------------------------------------------------- who is reaped

  /** The thread is over, or could not be started, and left the flag set. */
  ghost predicate Abandoned(s: State, id: Id) {
    && id < |s.conns| && id in s.list && s.conns[id].active
    && (s.conns[id].pc in {Return, Finished} || (s.conns[id].pc == NotStarted && !AboutToStart(s, id)))
  }

  ghost predicate AboutToStart(s: State, id: Id) { s.main == Creating && s.list != [] && s.list[|s.list| - 1] == id }

  /** Such a connection stays in the list for the rest of every run. */
  lemma {:induction false} AbandonedStays(s: State, actions: seq<Action>, t: State, id: Id)
    requires Inv(s) && Runs(s, actions, t) && Abandoned(s, id)
    ensures id in t.list
    decreases |actions|
  {
    if actions != [] {
      StepKeeps(s, actions[0]);
      AbandonedStep(s, actions[0], id);
      AbandonedStays(Apply(s, actions[0]), actions[1..], t, id);
    }
  }

  lemma AbandonedStep(s: State, a: Action, id: Id)
    requires Inv(s) && Enabled(s, a) && Abandoned(s, id)
    ensures Abandoned(Apply(s, a), id)
  {
    if a.Accept? {
      assert id in AfterAccept(s, a.fd).list;
    } else if a.DestroyStep? {
      AbandonedDestroy(s, id);
    }
  }

  lemma AbandonedDestroy(s: State, id: Id)
    requires Inv(s) && Enabled(s, DestroyStep) && Abandoned(s, id)
    ensures Abandoned(AfterDestroy(s), id)
  {
    if s.main.stage == AtJoin {
      EraseKeepsOrder(s.list, s.main.i);
    }
  }

  function AbandonedClient(fd: int): State {
    State(Accepting, [0], [Conn(fd, false, true, Finished)], {}, Kernel(map[], multiset{0}), false)
  }

  /** The thread closes its socket, and ends. */
  lemma EarlyReturnEnds(numbers: iset<nat>, fd: int)
    requires fd >= 0
    ensures Reaches(numbers, Moved(Connected(INIT, fd), 0, FdClose(false)), AbandonedClient(fd))
  {
    var t, ch := AbandonedClient(fd), Choice(Nothing, Nowhere, true, -1);
    var returned := t.(conns := [Conn(fd, false, true, Return)]);
    var marking := t.(conns := [Conn(fd, true, true, FdMark(false))]);
    var closing := Moved(Connected(INIT, fd), 0, FdClose(false));
    ReachesItself(numbers, t);
    assert Apply(returned, ThreadStep(0, ch)) == t;
    StepFirst(numbers, returned, ThreadStep(0, ch), t);
    assert Apply(marking, ThreadStep(0, ch)) == returned;
    StepFirst(numbers, marking, ThreadStep(0, ch), t);
    assert Close(closing.kernel, fd) == t.kernel;
    assert Apply(closing, ThreadStep(0, ch)) == marking;
    StepFirst(numbers, closing, ThreadStep(0, ch), t);
  }

  /** For every descriptor that `accept` returns, such a connection is reached: its second read fails, its
      thread closes the socket and ends, and the flag is still set. */
  lemma AbandonedIsReached(fd: int)
    requires fd >= 0
    ensures exists actions, t ::
              Runs(INIT, actions, t) && Abandoned(t, 0) && t.conns[0] == Conn(fd, false, true, Finished)
  {
    var t, one, numbers := AbandonedClient(fd), Connected(INIT, fd), iset{};
    EarlyReturnEnds(numbers, fd);
    MoveFirst(numbers, one, 0, FdTest(false), Choice(Nothing, Nowhere, true, -1), t);
    ReadFirst(numbers, one, 0, Failure, t);
    ConnectFirst(numbers, INIT, fd, t);
  }

  /** The step is the second read of that connection's thread, and it fails. */
  ghost predicate FailsSecondRead(s: State, a: Action, id: Id) {
    a.ThreadStep? && a.id == id && id < |s.conns| && s.conns[id].pc == SecondRead && a.choice.read == Failure
  }

  /** Some step of the run is. */
  ghost predicate SecondReadFailed(s: State, actions: seq<Action>, id: Id)
    decreases |actions|
  {
    && actions != [] && Enabled(s, actions[0])
    && (FailsSecondRead(s, actions[0], id) || SecondReadFailed(Apply(s, actions[0]), actions[1..], id))
  }

  /** On the early return of `handleConnection`, or past it. */
  predicate OnEarlyReturn(c: Conn) {
    c.pc in {FdTest(false), FdClose(false), FdMark(false)} || (c.active && c.pc in {Return, Finished})
  }

  ghost predicate ReturnsEarly(s: State, id: Id) { id < |s.conns| && OnEarlyReturn(s.conns[id]) }

  lemma EarlyReturnNext(c: Conn, ch: Choice)
    requires FlagOk(c) && c.pc !in {NotStarted, Finished}
    ensures OnEarlyReturn(NextConn(c, ch)) <==> OnEarlyReturn(c) || (c.pc == SecondRead && ch.read == Failure)
  {
  }

  lemma EarlyReturnStep(s: State, a: Action, id: Id)
    requires Inv(s) && Enabled(s, a)
    ensures ReturnsEarly(Apply(s, a), id) <==> ReturnsEarly(s, id) || FailsSecondRead(s, a, id)
  {
    if id < |s.conns| {
      assert FlagOk(s.conns[id]);
      if a.ThreadStep? && a.id == id {
        EarlyReturnNext(s.conns[id], a.choice);
      }
    }
  }

  lemma {:induction false} EarlyReturnRun(s: State, actions: seq<Action>, t: State, id: Id)
    requires Inv(s) && Runs(s, actions, t)
    ensures ReturnsEarly(t, id) <==> ReturnsEarly(s, id) || SecondReadFailed(s, actions, id)
    decreases |actions|
  {
    if actions != [] {
      StepKeeps(s, actions[0]);
      EarlyReturnStep(s, actions[0], id);
      EarlyReturnRun(Apply(s, actions[0]), actions[1..], t, id);
    }
  }

  /** A thread that is over has left the flag set if and only if its second read failed. */
  lemma FlagTellsRead(actions: seq<Action>, t: State, id: Id)
    requires Runs(INIT, actions, t) && id < |t.conns| && t.conns[id].pc in {Return, Finished}
    ensures t.conns[id].active <==> SecondReadFailed(INIT, actions, id)
  {
    EarlyReturnRun(INIT, actions, t, id);
  }

  /** The connections of `doomed` have their flag clear, and those in the part of the list that the sweep
      has passed are gone. */
  ghost predicate SweepProgress(s: State, doomed: set<Id>) {
    && (forall id | id in doomed :: id < |s.conns| && !s.conns[id].active)
    && match s.main
       case Sweeping(i) => i <= |s.list| && forall j | 0 <= j < i :: s.list[j] !in doomed
       case Destroying(i, _) => i < |s.list| && forall j | 0 <= j < i :: s.list[j] !in doomed
       case _ => false
  }

  ghost predicate StaysInSweep(actions: seq<Action>, s: State)
    decreases |actions|
  {
    actions == [] ||
    (Enabled(s, actions[0]) && (actions[0] == SweepStep ==> s.main.Sweeping? && s.main.i < |s.list|) &&
     StaysInSweep(actions[1..], Apply(s, actions[0])))
  }

  /** A sweep erases every connection whose flag was clear when it began, whatever the threads do in the
      meantime: when it has reached the end of the list, none of them is left. */
  lemma {:induction false} SweepErases(s: State, actions: seq<Action>, t: State)
    requires Inv(s) && s.main == Sweeping(0)
    requires Runs(s, actions, t) && StaysInSweep(actions, s) && t.main == Sweeping(|t.list|)
    ensures forall id | id in s.list && id < |s.conns| && !s.conns[id].active :: id !in t.list
  {
    var doomed := set id | id in s.list && id < |s.conns| && !s.conns[id].active;
    SweepGoesOn(s, actions, t, doomed);
  }

  lemma {:induction false} SweepGoesOn(s: State, actions: seq<Action>, t: State, doomed: set<Id>)
    requires Inv(s) && SweepProgress(s, doomed) && Runs(s, actions, t) && StaysInSweep(actions, s)
    ensures SweepProgress(t, doomed)
    decreases |actions|
  {
    if actions != [] {
      StepKeeps(s, actions[0]);
      SweepProgressStep(s, actions[0], doomed);
      SweepGoesOn(Apply(s, actions[0]), actions[1..], t, doomed);
    }
  }

  lemma SweepProgressStep(s: State, a: Action, doomed: set<Id>)
    requires Inv(s) && Enabled(s, a) && SweepProgress(s, doomed)
    requires a == SweepStep ==> s.main.i < |s.list|
    ensures SweepProgress(Apply(s, a), doomed)
  {
    if a.ThreadStep? {
      assert !s.conns[a.id].active ==> !NextConn(s.conns[a.id], a.choice).active;
    }
  }

  /** A connection whose thread is over when a sweep begins is gone at the end of that sweep if and only if
      the second read of its thread had not failed. If it had, the connection is still there at the end of
      every further run. */
  lemma ReapedUnlessReadFailed(before: seq<Action>, s: State, actions: seq<Action>, t: State, id: Id)
    requires Runs(INIT, before, s) && s.main == Sweeping(0)
    requires id in s.list && id < |s.conns| && s.conns[id].pc in {Return, Finished}
    requires Runs(s, actions, t)
    ensures SecondReadFailed(INIT, before, id) ==> id in t.list
    ensures StaysInSweep(actions, s) && t.main == Sweeping(|t.list|) ==>
              (id !in t.list <==> !SecondReadFailed(INIT, before, id))
  {
    RunKeeps(INIT, before, s);
    FlagTellsRead(before, s, id);
    if s.conns[id].active {
      AbandonedStays(s, actions, t, id);
    } else if StaysInSweep(actions, s) && t.main == Sweeping(|t.list|) {
      SweepErases(s, actions, t);
    }
  }

  // ---------------------------------------------------------------- every sweep ends

  predicate InSweep(s: State) { s.main.Sweeping? || s.main.Destroying? }

  predicate AtEndOfSweep(s: State) { s.main == Sweeping(|s.list|) }

  predicate IsMainStep(a: Action) { a == SweepStep || a == DestroyStep }

  function StageSteps(stage: Stage): nat {
    match stage case InBody => 5 case AtFdTest => 4 case AtFdClose => 3 case AtFdMark => 2 case AtJoin => 1
  }

  /** An upper bound of the steps that the main thread takes up to the end of the list. */
  function SweepLeft(s: State): nat {
    match s.main
    case Sweeping(i) => if i <= |s.list| then 6 * (|s.list| - i) else 0
    case Destroying(i, stage) => if i < |s.list| then 6 * (|s.list| - i - 1) + StageSteps(stage) else 0
    case _ => 0
  }

  function MainSteps(actions: seq<Action>): nat {
    if actions == [] then 0 else (if IsMainStep(actions[0]) then 1 else 0) + MainSteps(actions[1..])
  }

  lemma SweepStepCounts(s: State, a: Action)
    requires MainOk(s) && InSweep(s) && Enabled(s, a) && (a == SweepStep ==> !AtEndOfSweep(s))
    ensures InSweep(Apply(s, a)) && SweepLeft(Apply(s, a)) + (if IsMainStep(a) then 1 else 0) <= SweepLeft(s)
  {
  }

  /** Whatever the client threads do, the main thread takes no more steps in a sweep than that. */
  lemma {:induction false} SweepStepsRunOut(s: State, actions: seq<Action>, t: State)
    requires Inv(s) && InSweep(s) && Runs(s, actions, t) && StaysInSweep(actions, s)
    ensures InSweep(t) && MainSteps(actions) + SweepLeft(t) <= SweepLeft(s)
    decreases |actions|
  {
    if actions != [] {
      StepKeeps(s, actions[0]);
      SweepStepCounts(s, actions[0]);
      SweepStepsRunOut(Apply(s, actions[0]), actions[1..], t);
    }
  }

  /** The main thread can go on in a sweep, at once or after the last step of the thread it joins. */
  lemma SweepGoesOnNext(s: State, choice: Choice)
    requires Inv(s) && InSweep(s) && !s.crashed && !AtEndOfSweep(s)
    ensures Enabled(s, SweepStep) || Enabled(s, DestroyStep)
         || (s.main.Destroying? && Enabled(s, ThreadStep(s.list[s.main.i], choice)) &&
             Enabled(Apply(s, ThreadStep(s.list[s.main.i], choice)), DestroyStep))
  {
    if s.main.Destroying? && s.main.stage == AtJoin {
      LastStep(s, choice);
    }
  }

  ghost predicate EndsSweep(s: State, actions: seq<Action>) {
    exists t :: Runs(s, actions, t) && StaysInSweep(actions, s) && AtEndOfSweep(t) && !t.crashed
  }

  lemma EndsSweepFirst(s: State, a: Action, rest: seq<Action>)
    requires Enabled(s, a) && (a == SweepStep ==> s.main.i < |s.list|) && EndsSweep(Apply(s, a), rest)
    ensures EndsSweep(s, [a] + rest)
  {
    var t :| Runs(Apply(s, a), rest, t) && StaysInSweep(rest, Apply(s, a)) && AtEndOfSweep(t) && !t.crashed;
    assert ([a] + rest)[1..] == rest;
    assert Runs(s, [a] + rest, t) && StaysInSweep([a] + rest, s);
  }

  /** And so the end of the list is reached. */
  lemma {:induction false} SweepEnds(s: State) returns (actions: seq<Action>)
    requires Inv(s) && InSweep(s) && !s.crashed
    ensures EndsSweep(s, actions) && MainSteps(actions) <= SweepLeft(s)
    decreases SweepLeft(s)
  {
    actions := [];
    if AtEndOfSweep(s) {
      assert Runs(s, [], s);
    } else {
      var choice := Choice(Nothing, Nowhere, true, -1);
      SweepGoesOnNext(s, choice);
      if Enabled(s, SweepStep) {
        actions := MainStepFirst(s, SweepStep);
      } else if Enabled(s, DestroyStep) {
        actions := MainStepFirst(s, DestroyStep);
      } else {
        var last := ThreadStep(s.list[s.main.i], choice);
        StepKeeps(s, last);
        SweepStepCounts(s, last);
        actions := MainStepFirst(Apply(s, last), DestroyStep);
        EndsSweepFirst(s, last, actions);
        actions := [last] + actions;
      }
    }
  }

  lemma {:induction false} MainStepFirst(s: State, a: Action) returns (actions: seq<Action>)
    requires Inv(s) && InSweep(s) && IsMainStep(a) && Enabled(s, a) && !AtEndOfSweep(s)
    ensures EndsSweep(s, actions) && MainSteps(actions) <= SweepLeft(s)
    decreases SweepLeft(s), 0
  {
    StepKeeps(s, a);
    SweepStepCounts(s, a);
    var rest := SweepEnds(Apply(s, a));
    EndsSweepFirst(s, a, rest);
    actions := [a] + rest;
  }

  // ---------------------------------------------------------------- every turn of the accept loop sweeps

  ghost predicate AcceptsNobody(actions: seq<Action>) { forall k | 0 <= k < |actions| :: !actions[k].Accept? }

  /** In a turn of the loop: the connections of `doomed` have their flag clear, those in the part of the list that the
      sweep has passed are gone, and none of them is left when the next client can be accepted. */
  ghost predicate TurnProgress(s: State, doomed: set<Id>) {
    && (forall id | id in doomed :: id < |s.conns| && !s.conns[id].active)
    && match s.main
       case Creating => true
       case Accepting => forall j | 0 <= j < |s.list| :: s.list[j] !in doomed
       case _ => SweepProgress(s, doomed)
  }

  lemma TurnProgressStep(s: State, a: Action, doomed: set<Id>)
    requires Inv(s) && Enabled(s, a) && !a.Accept? && TurnProgress(s, doomed)
    ensures TurnProgress(Apply(s, a), doomed)
  {
    if a.ThreadStep? {
      assert !s.conns[a.id].active ==> !NextConn(s.conns[a.id], a.choice).active;
    } else if InSweep(s) && !(a == SweepStep && AtEndOfSweep(s)) {
      SweepProgressStep(s, a, doomed);
    }
  }

  lemma {:induction false} TurnGoesOn(s: State, actions: seq<Action>, t: State, doomed: set<Id>)
    requires Inv(s) && TurnProgress(s, doomed) && Runs(s, actions, t) && AcceptsNobody(actions)
    ensures TurnProgress(t, doomed)
    decreases |actions|
  {
    if actions != [] {
      StepKeeps(s, actions[0]);
      TurnProgressStep(s, actions[0], doomed);
      TurnGoesOn(Apply(s, actions[0]), actions[1..], t, doomed);
    }
  }

  /** Whatever has its flag clear when a client is accepted is gone when the next one can be. */
  lemma TurnErases(s: State, actions: seq<Action>, t: State)
    requires Inv(s) && s.main == Creating
    requires Runs(s, actions, t) && AcceptsNobody(actions) && t.main == Accepting
    ensures forall id | id in s.list && id < |s.conns| && !s.conns[id].active :: id !in t.list
  {
    var doomed := set id | id in s.list && id < |s.conns| && !s.conns[id].active;
    TurnGoesOn(s, actions, t, doomed);
  }

  /** A connection whose thread is over when a client is accepted is gone when the next one can be, if and only if the
      second read of its thread had not failed. */
  lemma ReapedByNextAccept(before: seq<Action>, s: State, actions: seq<Action>, t: State, id: Id)
    requires Runs(INIT, before, s) && s.main == Creating
    requires id in s.list && id < |s.conns| && s.conns[id].pc in {Return, Finished}
    requires Runs(s, actions, t) && AcceptsNobody(actions) && t.main == Accepting
    ensures id !in t.list <==> !SecondReadFailed(INIT, before, id)
  {
    RunKeeps(INIT, before, s);
    FlagTellsRead(before, s, id);
    if s.conns[id].active {
      AbandonedStays(s, actions, t, id);
    } else {
      TurnErases(s, actions, t);
    }
  }

  ghost predicate EndsTurn(s: State, actions: seq<Action>) {
    exists t :: Runs(s, actions, t) && AcceptsNobody(actions) && t.main == Accepting && !t.crashed
  }

  lemma EndsTurnFirst(s: State, a: Action, rest: seq<Action>)
    requires Enabled(s, a) && !a.Accept? && EndsTurn(Apply(s, a), rest)
    ensures EndsTurn(s, [a] + rest)
  {
    var t :| Runs(Apply(s, a), rest, t) && AcceptsNobody(rest) && t.main == Accepting && !t.crashed;
    assert ([a] + rest)[1..] == rest;
    assert Runs(s, [a] + rest, t) && AcceptsNobody([a] + rest);
  }

  lemma {:induction false} SweepEndsTurn(s: State, actions: seq<Action>)
    requires Inv(s) && InSweep(s) && EndsSweep(s, actions)
    ensures EndsTurn(s, actions + [SweepStep])
    decreases |actions|
  {
    var t :| Runs(s, actions, t) && StaysInSweep(actions, s) && AtEndOfSweep(t) && !t.crashed;
    if actions == [] {
      assert Runs(AfterSweep(s), [], AfterSweep(s)) && EndsTurn(AfterSweep(s), []);
      EndsTurnFirst(s, SweepStep, []);
      assert actions + [SweepStep] == [SweepStep] + [];
    } else {
      var a, rest := actions[0], actions[1..];
      StepKeeps(s, a);
      SweepStepCounts(s, a);
      assert EndsSweep(Apply(s, a), rest);
      SweepEndsTurn(Apply(s, a), rest);
      EndsTurnFirst(s, a, rest + [SweepStep]);
      assert [a] + (rest + [SweepStep]) == actions + [SweepStep];
    }
  }

  /** From every state that is reached the loop can come to accept the next client, whether or not a thread is
      started for the last one. */
  lemma AcceptsAgain(before: seq<Action>, s: State, ok: bool) returns (actions: seq<Action>)
    requires Runs(INIT, before, s) && !s.crashed
    ensures EndsTurn(s, actions) && (s.main == Creating ==> actions != [] && actions[0] == CreateThread(ok))
  {
    RunKeeps(INIT, before, s);
    if s.main == Accepting {
      actions := [];
      assert Runs(s, [], s);
    } else if s.main == Creating {
      CreateKeeps(s, ok);
      var rest := SweepEnds(AfterCreate(s, ok));
      SweepEndsTurn(AfterCreate(s, ok), rest);
      EndsTurnFirst(s, CreateThread(ok), rest + [SweepStep]);
      actions := [CreateThread(ok)] + (rest + [SweepStep]);
    } else {
      actions := SweepEnds(s);
      SweepEndsTurn(s, actions);
      actions := actions + [SweepStep];
    }
  }

  // ---------------------------------------------------------------- threads that never run, and those that end it all

  lemma {:induction false} NumbersOpen(s: State, actions: seq<Action>, t: State)
    requires Runs(s, actions, t) && forall n | n in s.kernel.open :: n >= 0
    ensures forall n | n in t.kernel.open :: n >= 0
    decreases |actions|
  {
    if actions != [] {
      NumbersOpen(Apply(s, actions[0]), actions[1..], t);
    }
  }

  /** The kernel is free to fail, wherever it is asked for a descriptor, and to return any free number. */
  lemma AnyNumber(actions: seq<Action>, t: State, number: int)
    requires Runs(INIT, actions, t) && !t.crashed && number !in t.kernel.open
    ensures t.main == Accepting ==> (Enabled(t, Accept(number)) <==> number == -1 || number >= 0)
    ensures forall id: Id, ch: Choice | id < |t.conns| && Opens(t.conns[id].pc) && ch.number == number ::
              Enabled(t, ThreadStep(id, ch)) <==> number == -1 || number >= 0
    ensures -1 !in t.kernel.open
  {
    NumbersOpen(INIT, actions, t);
  }

  ghost predicate FailsToStart(s: State, a: Action, id: Id) {
    a == CreateThread(false) && s.list != [] && s.list[|s.list| - 1] == id
  }

  /** In some step of the run the thread of that connection could not be created. */
  ghost predicate CreationFailed(s: State, actions: seq<Action>, id: Id)
    decreases |actions|
  {
    && actions != [] && Enabled(s, actions[0])
    && (FailsToStart(s, actions[0], id) || CreationFailed(Apply(s, actions[0]), actions[1..], id))
  }

  ghost predicate NeverStarted(s: State, id: Id) {
    id < |s.conns| && s.conns[id].pc == NotStarted && !AboutToStart(s, id)
  }

  lemma NeverStartedStep(s: State, a: Action, id: Id)
    requires Inv(s) && Enabled(s, a)
    ensures NeverStarted(Apply(s, a), id) <==> NeverStarted(s, id) || FailsToStart(s, a, id)
  {
    if a.ThreadStep? {
      NeverStartedThread(s, a.id, a.choice, id);
    } else if a.CreateThread? {
      assert AboutToStart(s, s.list[|s.list| - 1]);
    }
  }

  lemma NeverStartedThread(s: State, moved: Id, choice: Choice, id: Id)
    requires Enabled(s, ThreadStep(moved, choice))
    ensures NeverStarted(AfterThread(s, moved, choice), id) <==> NeverStarted(s, id)
  {
    assert s.conns[moved].pc != NotStarted && NextConn(s.conns[moved], choice).pc != NotStarted;
  }

  lemma {:induction false} NeverStartedRun(s: State, actions: seq<Action>, t: State, id: Id)
    requires Inv(s) && Runs(s, actions, t)
    ensures NeverStarted(t, id) <==> NeverStarted(s, id) || CreationFailed(s, actions, id)
    decreases |actions|
  {
    if actions != [] {
      StepKeeps(s, actions[0]);
      NeverStartedStep(s, actions[0], id);
      NeverStartedRun(Apply(s, actions[0]), actions[1..], t, id);
    }
  }

  /** Once the accept loop has gone on from it, the thread of a connection runs unless it could not be created. */
  lemma StartedUnlessFailed(actions: seq<Action>, t: State, id: Id)
    requires Runs(INIT, actions, t) && id < |t.conns| && t.main != Creating
    ensures t.conns[id].pc == NotStarted <==> CreationFailed(INIT, actions, id)
  {
    NeverStartedRun(INIT, actions, t, id);
  }

  /** A thread step whose exception nobody catches: the first read fails, or the answer to a rejected request
      cannot be sent. */
  ghost predicate Throws(s: State, a: Action) {
    a.ThreadStep? && a.id < |s.conns| &&
    match s.conns[a.id].pc
    case FirstRead => a.choice.read.Failure?
    case Respond => a.choice.target.Rejected? && !a.choice.ok
    case _ => false
  }

  ghost predicate SomeThrows(s: State, actions: seq<Action>)
    decreases |actions|
  {
    && actions != [] && Enabled(s, actions[0])
    && (Throws(s, actions[0]) || SomeThrows(Apply(s, actions[0]), actions[1..]))
  }

  /** The process ends early if and only if a thread throws; that is the last step there is. */
  lemma {:induction false} EndsByException(s: State, actions: seq<Action>, t: State)
    requires Runs(s, actions, t)
    ensures t.crashed <==> s.crashed || SomeThrows(s, actions)
    ensures s.crashed ==> actions == []
    decreases |actions|
  {
    if actions != [] {
      EndsByException(Apply(s, actions[0]), actions[1..], t);
    }
  }
}
