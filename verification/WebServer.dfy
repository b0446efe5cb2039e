/** The web server as a protocol: the accept loop, one thread for each client connection, and the
    descriptors the kernel hands out. Each action is one access to shared state; flag accesses are taken
    to be sequentially consistent. */
module WebServer {

  /** A connection is known by the order in which it was accepted. */
  type Id = nat

  /** Where the thread of a connection stands in `handleConnection`, `fsBrowse` and the request handlers.
      `clear` tells whether it goes on to clear the active flag after closing its descriptor, or returns at
      once; `left` counts the passes over a directory. */
  datatype ThreadPc =
    | NotStarted
    | CheckFd
    | FirstRead
    | SecondRead
    | Respond
    | Browse
    | DirOpen
    | ListOpen(left: nat)
    | ListClose(dir: int, left: nat)
    | FileOpen
    | FileSend(file: int)
    | FileClose(file: int)
    | FdTest(clear: bool)
    | FdClose(clear: bool)
    | FdMark(clear: bool)
    | ClearFlag
    | Return
    | Finished

  /** The members of a `ClientConnection` that are shared, and its thread. */
  datatype Conn = Conn(fd: int, isOpen: bool, active: bool, pc: ThreadPc)

  /** What an open descriptor is: the socket of a connection, or a file or directory its thread opened. */
  datatype Holder = Socket(id: Id) | File(id: Id) | Dir(id: Id)

  /** The open descriptors by number, and how often the socket of each connection was ended by a `close`. */
  datatype Kernel = Kernel(open: map<int, Holder>, ended: multiset<Id>)

  /** Where the destructor of a connection stands: its own body, the descriptor, then the thread. */
  datatype Stage = InBody | AtFdTest | AtFdClose | AtFdMark | AtJoin

  datatype MainPc =
    | Accepting
    | Creating
    | Sweeping(i: nat)
    | Destroying(i: nat, stage: Stage)

  /** `list` is m_Connections. */
  datatype State = State(main: MainPc, list: seq<Id>, conns: seq<Conn>, freed: set<Id>, kernel: Kernel, crashed: bool)

  const INIT := State(Accepting, [], [], {}, Kernel(map[], multiset{}), false)

  datatype ReadResult = Data | Nothing | Failure

  datatype Target = Rejected | Nowhere | Folder | RegularFile

  /** What a thread finds at a step, as far as it looks: the result of a read, what is requested, whether the
      call succeeds, and the number `open` returns. */
  datatype Choice = Choice(read: ReadResult, target: Target, ok: bool, number: int)

  datatype Action =
    | Accept(fd: int)
    | CreateThread(ok: bool)
    | SweepStep
    | DestroyStep
    | ThreadStep(id: Id, choice: Choice)

  // ---------------------------------------------------------------- the kernel

  /** `close(fd)`: ends the open descriptor of that number, whoever it belongs to. */
  function Close(k: Kernel, fd: int): Kernel {
    if fd in k.open then
      Kernel(k.open - {fd}, match k.open[fd] case Socket(id) => k.ended + multiset{id} case _ => k.ended)
    else k
  }

  /** `open` or `accept` returned that number; -1 is a failure. */
  function Open(k: Kernel, number: int, holder: Holder): Kernel {
    if number == -1 then k else k.(open := k.open[number := holder])
  }

  /** A descriptor number passed through a signed `char`. */
  function Truncated(number: nat): int {
    var low := number % 256;
    if low < 128 then low else low - 256
  }

  // ---------------------------------------------------------------- one step of a client thread

  function AfterClosing(clear: bool): ThreadPc { if clear then ClearFlag else Return }

  /** The exception leaves the thread function and ends the process. */
  predicate Crashes(c: Conn, ch: Choice) {
    (c.pc == FirstRead && ch.read == Failure) || (c.pc == Respond && ch.target == Rejected && !ch.ok)
  }

  function NextPc(c: Conn, ch: Choice): ThreadPc {
    match c.pc
    case CheckFd => if c.fd == -1 then ClearFlag else FirstRead
    case FirstRead => if ch.read == Data then SecondRead else ClearFlag
    case SecondRead => if ch.read == Failure then FdTest(false) else Respond
    case Respond => if ch.target == Rejected then ClearFlag else Browse
    case Browse =>
      if !ch.ok then ClearFlag
      else (match ch.target case Folder => DirOpen case RegularFile => FileOpen case _ => FdTest(true))
    case DirOpen => if ch.number == -1 then FdTest(true) else ListOpen(2)
    case ListOpen(left) => if ch.number == -1 then FdTest(true) else ListClose(ch.number, left)
    case ListClose(_, left) => if ch.ok && left > 1 then ListOpen(left - 1) else FdTest(true)
    case FileOpen => if ch.number == -1 then FdTest(true) else FileSend(ch.number)
    case FileSend(file) => if ch.ok then FileClose(file) else FdTest(true)
    case FileClose(_) => FdTest(true)
    case FdTest(clear) => if c.isOpen then FdClose(clear) else AfterClosing(clear)
    case FdClose(clear) => FdMark(clear)
    case FdMark(clear) => AfterClosing(clear)
    case ClearFlag => Return
    case Return => Finished
    case NotStarted => NotStarted
    case Finished => Finished
  }

  function NextConn(c: Conn, ch: Choice): Conn {
    c.(pc := NextPc(c, ch), isOpen := c.isOpen && !c.pc.FdMark?, active := c.active && c.pc != ClearFlag)
  }

  /** The first `opendir` is never closed, a failure leaves a directory or file open, and the number of a
      downloaded file has been passed through a `char` before it is closed. */
  function NextKernel(k: Kernel, id: Id, c: Conn, ch: Choice): Kernel {
    match c.pc
    case DirOpen => Open(k, ch.number, Dir(id))
    case ListOpen(_) => Open(k, ch.number, Dir(id))
    case ListClose(dir, _) => if ch.ok then Close(k, dir) else k
    case FileOpen => Open(k, ch.number, File(id))
    case FileClose(file) => if file < 0 then k else Close(k, Truncated(file))
    case FdClose(_) => Close(k, c.fd)
    case _ => k
  }

  predicate Opens(pc: ThreadPc) { pc == DirOpen || pc.ListOpen? || pc == FileOpen }

  /** `open` and `opendir` return any number that is free; `sendfile` sends from the truncated number, and
      fails on one that is not open or is a socket. */
  predicate Possible(k: Kernel, c: Conn, ch: Choice) {
    && c.pc !in {NotStarted, Finished}
    && (Opens(c.pc) ==> ch.number >= -1 && ch.number !in k.open)
    && (c.pc.FileSend? && ch.ok ==>
          c.pc.file >= 0 && Truncated(c.pc.file) in k.open && !k.open[Truncated(c.pc.file)].Socket?)
  }

  // ---------------------------------------------------------------- actions

  predicate Enabled(s: State, a: Action) {
    !s.crashed &&
    match a
    case Accept(fd) => s.main == Accepting && fd >= -1 && fd !in s.kernel.open
    case CreateThread(_) => s.main == Creating && s.list != [] && s.list[|s.list| - 1] < |s.conns|
    case SweepStep => s.main.Sweeping? && s.main.i <= |s.list| && (s.main.i < |s.list| ==> s.list[s.main.i] < |s.conns|)
    case DestroyStep =>
      && s.main.Destroying? && s.main.i < |s.list| && s.list[s.main.i] < |s.conns|
      && (s.main.stage == AtJoin ==> s.conns[s.list[s.main.i]].pc in {NotStarted, Finished})
    case ThreadStep(id, choice) => id < |s.conns| && Possible(s.kernel, s.conns[id], choice)
  }

  function SetConn(s: State, id: Id, c: Conn): State
    requires id < |s.conns|
  {
    s.(conns := s.conns[id := c])
  }

  /** `accept` and `push_back`. */
  function AfterAccept(s: State, fd: int): State {
    s.(main := Creating, list := s.list + [|s.conns|], conns := s.conns + [Conn(fd, true, true, NotStarted)],
       kernel := Open(s.kernel, fd, Socket(|s.conns|)))
  }

  /** `pthread_create`; when it fails the exception is caught and the connection stays. */
  function AfterCreate(s: State, ok: bool): State
    requires Enabled(s, CreateThread(ok))
  {
    var id := s.list[|s.list| - 1];
    SetConn(s, id, if ok then s.conns[id].(pc := CheckFd) else s.conns[id]).(main := Sweeping(0))
  }

  /** One turn of `clearUnusedClients`. */
  function AfterSweep(s: State): State
    requires Enabled(s, SweepStep)
  {
    var i := s.main.i;
    if i == |s.list| then s.(main := Accepting)
    else if s.conns[s.list[i]].active then s.(main := Sweeping(i + 1))
    else s.(main := Destroying(i, InBody))
  }

  /** The destructor of the connection that is erased, member by member. */
  function AfterDestroy(s: State): State
    requires Enabled(s, DestroyStep)
  {
    var i := s.main.i;
    var id := s.list[i];
    var c := s.conns[id];
    match s.main.stage
    case InBody => SetConn(s, id, c.(active := false)).(main := Destroying(i, AtFdTest))
    case AtFdTest => s.(main := Destroying(i, if c.isOpen then AtFdClose else AtJoin))
    case AtFdClose => s.(kernel := Close(s.kernel, c.fd), main := Destroying(i, AtFdMark))
    case AtFdMark => SetConn(s, id, c.(isOpen := false)).(main := Destroying(i, AtJoin))
    case AtJoin => s.(main := Sweeping(i), list := s.list[..i] + s.list[i + 1..], freed := s.freed + {id})
  }

  function AfterThread(s: State, id: Id, ch: Choice): State
    requires Enabled(s, ThreadStep(id, ch))
  {
    if Crashes(s.conns[id], ch) then s.(crashed := true)
    else SetConn(s, id, NextConn(s.conns[id], ch)).(kernel := NextKernel(s.kernel, id, s.conns[id], ch))
  }

  function Apply(s: State, a: Action): State
    requires Enabled(s, a)
  {
    match a
    case Accept(fd) => AfterAccept(s, fd)
    case CreateThread(ok) => AfterCreate(s, ok)
    case SweepStep => AfterSweep(s)
    case DestroyStep => AfterDestroy(s)
    case ThreadStep(id, choice) => AfterThread(s, id, choice)
  }

  ghost predicate Runs(s: State, actions: seq<Action>, t: State)
    decreases |actions|
  {
    if actions == [] then s == t else Enabled(s, actions[0]) && Runs(Apply(s, actions[0]), actions[1..], t)
  }

  /** The connection whose destructor runs. */
  ghost predicate InDestructor(s: State, id: Id) {
    s.main.Destroying? && s.main.i < |s.list| && s.list[s.main.i] == id
  }
}
