/** What the thread of one client does, from its first call to its last, whatever all the others do. */
module ClientThread {
  import opened WebServer
  import opened ConnectionLifetimes

  /** The calls that can be seen from outside. A listing fails by an exception while a directory is read. */
  datatype Call =
    | Read(result: ReadResult)
    | Refuse
    | Look(target: Target)
    | BadPath
    | OpenDir(number: int)
    | CloseDir(number: int)
    | ListingFails
    | OpenFile(number: int)
    | Send(number: int, ok: bool)
    | CloseFile(number: int)
    | CloseSocket
    | ClearActive

  // ---------------------------------------------------------------- what a client is served

  /** The socket is closed and the flag cleared once an accepted request was answered. */
  predicate Closes(w: seq<Call>) { w == [CloseSocket, ClearActive] }

  /** A directory is read so many times, each time opened and closed, until an `opendir` or the reading fails. */
  predicate ReadsDir(passes: nat, w: seq<Call>)
    decreases passes, 1
  {
    if passes == 0 then
      Closes(w)
    else
      && w != [] && w[0].OpenDir?
      && if w[0].number == -1 then Closes(w[1..]) else FinishesPass(passes, w[0].number, w[1..])
  }

  predicate FinishesPass(passes: nat, dir: int, w: seq<Call>)
    decreases passes, 0
  {
    w != [] && ((w[0] == ListingFails && Closes(w[1..]))
                || (passes > 0 && w[0] == CloseDir(dir) && ReadsDir(passes - 1, w[1..])))
  }

  /** A directory is opened for nothing, then read for its folders and for its files. */
  predicate Lists(w: seq<Call>) {
    w != [] && w[0].OpenDir? && if w[0].number == -1 then Closes(w[1..]) else ReadsDir(2, w[1..])
  }

  predicate Downloads(w: seq<Call>) {
    w != [] && w[0].OpenFile? && if w[0].number == -1 then Closes(w[1..]) else SendsFile(w[0].number, w[1..])
  }

  predicate SendsFile(file: int, w: seq<Call>) {
    w != [] && ((w[0] == Send(file, false) && Closes(w[1..]))
                || (w[0] == Send(file, true) && ClosesFile(file, w[1..])))
  }

  predicate ClosesFile(file: int, w: seq<Call>) { w != [] && w[0] == CloseFile(file) && Closes(w[1..]) }

  predicate Answers(w: seq<Call>) {
    w == [BadPath, ClearActive] ||
    (w != [] && w[0].Look? &&
     match w[0].target
     case Folder => Lists(w[1..])
     case RegularFile => Downloads(w[1..])
     case _ => Closes(w[1..]))
  }

  predicate Judges(w: seq<Call>) { w == [Refuse, ClearActive] || Answers(w) }

  /** The request is read; but the answer begins only after a second read. */
  predicate ReadsOn(w: seq<Call>) {
    w != [] && w[0].Read? && if w[0].result == Failure then w[1..] == [CloseSocket] else Judges(w[1..])
  }

  predicate Serves(w: seq<Call>) {
    w == [Read(Nothing), ClearActive] || (w != [] && w[0] == Read(Data) && ReadsOn(w[1..]))
  }

  /** All the calls of a thread, from its first to its last. */
  predicate IsService(fd: int, w: seq<Call>) {
    if fd == -1 then w == [ClearActive] else Serves(w)
  }

  // ---------------------------------------------------------------- what a thread calls

  function CallOf(c: Conn, ch: Choice): seq<Call> {
    match c.pc
    case FirstRead => [Read(ch.read)]
    case SecondRead => [Read(ch.read)]
    case Respond => if ch.target == Rejected then [Refuse] else []
    case Browse => [if ch.ok then Look(ch.target) else BadPath]
    case DirOpen => [OpenDir(ch.number)]
    case ListOpen(_) => [OpenDir(ch.number)]
    case ListClose(dir, _) => [if ch.ok then CloseDir(dir) else ListingFails]
    case FileOpen => [OpenFile(ch.number)]
    case FileSend(file) => [Send(file, ch.ok)]
    case FileClose(file) => [CloseFile(file)]
    case FdClose(_) => [CloseSocket]
    case ClearFlag => [ClearActive]
    case _ => []
  }

  /** The calls of the thread of that connection in a run. */
  ghost function Calls(s: State, actions: seq<Action>, id: Id): seq<Call>
    decreases |actions|
  {
    if actions == [] || !Enabled(s, actions[0]) then []
    else
      (if actions[0].ThreadStep? && actions[0].id == id then CallOf(s.conns[id], actions[0].choice) else [])
      + Calls(Apply(s, actions[0]), actions[1..], id)
  }

  /** What remains to be called from there. */
  predicate Remains(c: Conn, w: seq<Call>) {
    match c.pc
    case NotStarted => IsService(c.fd, w)
    case CheckFd => IsService(c.fd, w)
    case FirstRead => Serves(w)
    case SecondRead => ReadsOn(w)
    case Respond => Judges(w)
    case Browse => Answers(w)
    case DirOpen => Lists(w)
    case ListOpen(left) => left > 0 && ReadsDir(left, w)
    case ListClose(dir, left) => FinishesPass(left, dir, w)
    case FileOpen => Downloads(w)
    case FileSend(file) => SendsFile(file, w)
    case FileClose(file) => ClosesFile(file, w)
    case FdTest(clear) => w == [CloseSocket] + Clearing(clear)
    case FdClose(clear) => w == [CloseSocket] + Clearing(clear)
    case FdMark(clear) => w == Clearing(clear)
    case ClearFlag => w == [ClearActive]
    case Return => w == []
    case Finished => w == []
  }

  function Clearing(clear: bool): seq<Call> { if clear then [ClearActive] else [] }

  /** The open flag is down only after the last use of the descriptor. */
  predicate OpenOk(c: Conn) { c.isOpen || c.pc in {ClearFlag, Return, Finished} }

  /** A pass is never begun with none left. */
  predicate PassesOk(pc: ThreadPc) { pc.ListOpen? || pc.ListClose? ==> pc.left > 0 }

  predicate ThreadOk(c: Conn) { OpenOk(c) && PassesOk(c.pc) }

  lemma NextOk(c: Conn, ch: Choice)
    requires ThreadOk(c)
    ensures ThreadOk(NextConn(c, ch))
  {
  }

  /** What remained before a step: its call, and what remains after it. */
  lemma RemainsBefore(c: Conn, ch: Choice, w: seq<Call>)
    requires c.pc !in {NotStarted, Finished} && ThreadOk(c) && !Crashes(c, ch) && Remains(NextConn(c, ch), w)
    ensures Remains(c, CallOf(c, ch) + w)
  {
    if CallOf(c, ch) == [] {
      assert CallOf(c, ch) + w == w;
    } else {
      var call := CallOf(c, ch)[0];
      assert ([call] + w)[0] == call && ([call] + w)[1..] == w;
    }
  }

  // ---------------------------------------------------------------- all runs

  /** A step that is not of that thread changes nothing of what it has to do. */
  lemma OthersLeave(s: State, a: Action, id: Id)
    requires Inv(s) && Enabled(s, a) && !(a.ThreadStep? && a.id == id) && id < |s.conns| && ThreadOk(s.conns[id])
    ensures ThreadOk(Apply(s, a).conns[id])
    ensures forall w :: Remains(Apply(s, a).conns[id], w) ==> Remains(s.conns[id], w)
  {
    assert FlagOk(s.conns[id]);
  }

  /** What the thread of that connection has to do, before and after it was accepted with the descriptor `fd`. */
  ghost predicate HasToDo(s: State, id: Id, fd: int, w: seq<Call>) {
    if id < |s.conns| then s.conns[id].fd == fd && ThreadOk(s.conns[id]) && Remains(s.conns[id], w)
    else IsService(fd, w)
  }

  ghost predicate ThreadsOk(s: State) { forall id: Id | id < |s.conns| :: ThreadOk(s.conns[id]) }

  lemma ThreadsStayOk(s: State, a: Action)
    requires Inv(s) && Enabled(s, a) && ThreadsOk(s)
    ensures ThreadsOk(Apply(s, a))
  {
    forall id: Id | id < |Apply(s, a).conns| ensures ThreadOk(Apply(s, a).conns[id]) {
      if a.ThreadStep? && a.id == id {
        NextOk(s.conns[id], a.choice);
      } else if id < |s.conns| {
        OthersLeave(s, a, id);
      }
    }
  }

  lemma HasToDoBefore(s: State, a: Action, id: Id, fd: int, w: seq<Call>)
    requires Inv(s) && Enabled(s, a) && ThreadsOk(s) && HasToDo(Apply(s, a), id, fd, w)
    requires a.ThreadStep? && a.id == id ==> !Crashes(s.conns[id], a.choice)
    ensures HasToDo(s, id, fd, (if a.ThreadStep? && a.id == id then CallOf(s.conns[id], a.choice) else []) + w)
  {
    if a.ThreadStep? && a.id == id {
      RemainsBefore(s.conns[id], a.choice, w);
    } else {
      assert [] + w == w;
      if id < |s.conns| { OthersLeave(s, a, id); }
    }
  }

  lemma {:induction false} HasToDoAll(s: State, actions: seq<Action>, t: State, id: Id)
    requires Inv(s) && ThreadsOk(s) && Runs(s, actions, t) && id < |t.conns| && t.conns[id].pc == Finished
    ensures HasToDo(s, id, t.conns[id].fd, Calls(s, actions, id))
    decreases |actions|
  {
    if actions != [] {
      var a, rest := actions[0], actions[1..];
      StepKeeps(s, a);
      ThreadsStayOk(s, a);
      assert Apply(s, a).crashed ==> rest == [];
      HasToDoAll(Apply(s, a), rest, t, id);
      HasToDoBefore(s, a, id, t.conns[id].fd, Calls(Apply(s, a), rest, id));
    }
  }

  /** In every interleaving the calls of a thread that has ended make up one service: the request is read, judged and
      answered, the descriptor closed and the flag cleared, in these orders and no others. */
  lemma ThreadServes(actions: seq<Action>, t: State, id: Id)
    requires Runs(INIT, actions, t) && id < |t.conns| && t.conns[id].pc == Finished
    ensures IsService(t.conns[id].fd, Calls(INIT, actions, id))
  {
    HasToDoAll(INIT, actions, t, id);
  }
}
