/** A death test as a protocol: the parent forks a child that runs the statement, and learns over a pipe
    whether it died. Each action is one system call, or the end of the child's own code. */
module DeathTestProtocol {
  import opened CStrings
  import opened SimpleRegex

  datatype AbortReason = TestEncounteredReturn | TestThrewException | TestDidNotDie

  datatype Outcome = InProgress | Died | Lived | Returned | Threw

  const LIVED := 'L'
  const RETURNED := 'R'
  const THREW := 'T'
  const INTERNAL_ERROR := 'I'

  /** How the child's code ended: by dying in the statement, by reporting a reason through `Abort`, or by
      reporting an internal error. */
  datatype Fate = Silent(status: int) | Reported(reason: AbortReason) | Broken(message: string)

  datatype ChildPc = Unborn | CloseRead | Running | Writing | Exiting | Dead

  datatype ParentPc = Start | Piped | Forked | Assuming | Reading | Closing | Waiting | Done | Fatal

  datatype State = State(
    parent: ParentPc, child: ChildPc,
    fate: Option<Fate>, exitStatus: int,
    pipe: string, parentRead: bool, parentWrite: bool, childRead: bool, childWrite: bool,
    spawned: bool, outcome: Outcome, readFdSet: bool, readCloses: nat, status: int)

  const INIT := State(Start, Unborn, None, -1, "", false, false, false, false, false, InProgress, false, 0, -1)

  datatype Action =
    | ParentStep
    | Interrupted
    | ReadFails
    | ChildStep
    | ChildEnds(fate: Fate)

  /** The byte `Abort` writes. */
  function StatusByte(reason: AbortReason): char {
    match reason
    case TestDidNotDie => LIVED
    case TestThrewException => THREW
    case TestEncounteredReturn => RETURNED
  }

  function Report(fate: Fate): string {
    match fate
    case Silent(_) => ""
    case Reported(reason) => [StatusByte(reason)]
    case Broken(message) => [INTERNAL_ERROR] + message
  }

  function ReasonOutcome(reason: AbortReason): Outcome {
    match reason
    case TestDidNotDie => Lived
    case TestThrewException => Threw
    case TestEncounteredReturn => Returned
  }

  /** The outcome a status byte stands for; None where the parent ends with a fatal error. */
  function Interpret(flag: char): Option<Outcome> {
    if flag == RETURNED then Some(Returned)
    else if flag == THREW then Some(Threw)
    else if flag == LIVED then Some(Lived)
    else None
  }

  /** `read` returns: there is data, or every write end is closed. */
  predicate ReadReturns(s: State) { s.pipe != "" || (!s.parentWrite && !s.childWrite) }

  /** `dropsWriteEnd` is false in the variant where the parent keeps its own write end. */
  predicate Enabled(s: State, a: Action) {
    match a
    case ParentStep =>
      && s.parent !in {Done, Fatal}
      && (s.parent == Reading ==> ReadReturns(s))
      && (s.parent == Waiting ==> s.child == Dead)
    case Interrupted => s.parent == Reading
    case ReadFails => s.parent == Reading
    case ChildStep => s.child in {CloseRead, Writing, Exiting}
    case ChildEnds(_) => s.child == Running
  }

  function AfterParent(s: State, dropsWriteEnd: bool): State
    requires Enabled(s, ParentStep)
  {
    match s.parent
    case Start => s.(parent := Piped, parentRead := true, parentWrite := true)
    case Piped => s.(parent := Forked, child := CloseRead, childRead := s.parentRead, childWrite := s.parentWrite)
    case Forked => s.(parent := Assuming, parentWrite := if dropsWriteEnd then false else s.parentWrite)
    case Assuming => s.(parent := Reading, readFdSet := true, spawned := true)
    case Reading =>
      if s.pipe == "" then s.(parent := Closing, outcome := Died)
      else
        (match Interpret(s.pipe[0])
         case Some(o) => s.(parent := Closing, outcome := o, pipe := s.pipe[1..])
         case None => s.(parent := Fatal, pipe := s.pipe[1..]))
    case Closing => s.(parent := Waiting, parentRead := false, readCloses := s.readCloses + 1, readFdSet := false)
    case Waiting => s.(parent := Done, status := s.exitStatus)
  }

  function AfterChild(s: State): State
    requires Enabled(s, ChildStep)
  {
    match s.child
    case CloseRead => s.(child := Running, childRead := false)
    case Writing => s.(child := Exiting, pipe := s.pipe + if s.fate.Some? then Report(s.fate.value) else "")
    case Exiting => s.(child := Dead, childWrite := false)
  }

  function Apply(s: State, a: Action, dropsWriteEnd: bool): State
    requires Enabled(s, a)
  {
    match a
    case ParentStep => AfterParent(s, dropsWriteEnd)
    case Interrupted => s
    case ReadFails => s.(parent := Fatal)
    case ChildStep => AfterChild(s)
    case ChildEnds(fate) =>
      s.(fate := Some(fate),
         child := if fate.Silent? then Exiting else Writing,
         exitStatus := if fate.Silent? then fate.status else 1)
  }

  ghost predicate Runs(s: State, actions: seq<Action>, t: State, dropsWriteEnd: bool)
    decreases |actions|
  {
    if actions == [] then s == t
    else Enabled(s, actions[0]) && Runs(Apply(s, actions[0], dropsWriteEnd), actions[1..], t, dropsWriteEnd)
  }

  // ---------------------------------------------------------------- the invariant

  function Order(p: ParentPc): nat {
    match p
    case Start => 0 case Piped => 1 case Forked => 2 case Assuming => 3 case Reading => 4
    case Closing => 5 case Waiting => 6 case Done => 7 case Fatal => 4
  }

  /** What the child has written and nobody has read yet. */
  function Written(s: State): string {
    if s.fate.Some? && s.child in {Exiting, Dead} then Report(s.fate.value) else ""
  }

  ghost predicate Inv(s: State) {
    && (s.child == Unborn <==> s.parent in {Start, Piped})
    && (s.fate.Some? <==> s.child in {Writing, Exiting, Dead})
    && (s.fate.Some? && s.fate.value.Silent? ==> s.child != Writing && s.exitStatus == s.fate.value.status)
    && (s.fate.Some? && !s.fate.value.Silent? ==> s.exitStatus == 1)
    && (s.childWrite <==> s.child !in {Unborn, Dead})
    && (s.parentWrite <==> s.parent in {Piped, Forked})
    && (s.parentRead <==> s.parent in {Piped, Forked, Assuming, Reading, Closing} || (s.parent == Fatal))
    && (s.readFdSet <==> s.parent in {Reading, Closing, Fatal})
    && s.readCloses == (if s.parent in {Waiting, Done} then 1 else 0)
    && (s.spawned <==> Order(s.parent) >= 4)
    && (s.outcome == InProgress <==> s.parent !in {Closing, Waiting, Done})
    && (s.parent in {Closing, Waiting, Done} ==>
          s.outcome == (if s.fate.Some? && s.fate.value.Reported? then ReasonOutcome(s.fate.value.reason) else Died) &&
          s.fate.Some? && !s.fate.value.Broken? && (s.outcome == Died ==> s.child == Dead) &&
          (s.fate.value.Reported? ==> s.child in {Exiting, Dead}))
    && (s.parent !in {Closing, Waiting, Done, Fatal} ==> s.pipe == Written(s))
    && (s.parent == Done ==> s.child == Dead && s.status == s.exitStatus)
  }

  lemma StepKeeps(s: State, a: Action)
    requires Inv(s) && Enabled(s, a)
    ensures Inv(Apply(s, a, true))
  {
  }

  lemma {:induction false} RunKeeps(s: State, actions: seq<Action>, t: State)
    requires Inv(s) && Runs(s, actions, t, true)
    ensures Inv(t)
    decreases |actions|
  {
    if actions != [] {
      StepKeeps(s, actions[0]);
      RunKeeps(Apply(s, actions[0], true), actions[1..], t);
    }
  }

  // ---------------------------------------------------------------- what every interleaving keeps

  /** Once the parent has concluded, its outcome is the child's fate: DIED exactly when the child died
      without reporting, and otherwise the outcome of the reason given to `Abort`. An internal error
      never comes to a conclusion. The read end is closed once, and is gone when the wait begins. */
  lemma OutcomeIsFate(actions: seq<Action>, t: State)
    requires Runs(INIT, actions, t, true)
    ensures t.outcome != InProgress ==> t.spawned && t.fate.Some? && !t.fate.value.Broken?
    ensures t.outcome != InProgress ==> (t.outcome == Died <==> t.fate.value.Silent?)
    ensures t.outcome != InProgress && t.fate.value.Reported? ==> t.outcome == ReasonOutcome(t.fate.value.reason)
    ensures t.readCloses <= 1 && (t.parent in {Waiting, Done} <==> t.readCloses == 1)
    ensures t.readCloses == 1 ==> !t.readFdSet && !t.parentRead
    ensures t.parent == Done && t.fate.Some? ==> t.status == if t.fate.value.Silent? then t.fate.value.status else 1
  {
    RunKeeps(INIT, actions, t);
  }

  /** The parent never hangs on a child that has ended: because it dropped its own write end, a read at
      that point returns, and so does the wait. */
  lemma NoHang(actions: seq<Action>, t: State)
    requires Runs(INIT, actions, t, true)
    ensures t.child == Dead && t.parent !in {Done, Fatal} ==> Enabled(t, ParentStep)
    ensures t.parent !in {Done, Fatal} ==>
              Enabled(t, ParentStep) || Enabled(t, ChildStep) || Enabled(t, ChildEnds(Silent(0)))
  {
    RunKeeps(INIT, actions, t);
  }

  /** How many steps parent and child have left, interrupted reads aside. */
  function StepsLeft(s: State): nat {
    (match s.parent
     case Start => 7 case Piped => 6 case Forked => 5 case Assuming => 4 case Reading => 3
     case Closing => 2 case Waiting => 1 case Done => 0 case Fatal => 0)
    + match s.child
      case Unborn => 5 case CloseRead => 4 case Running => 3 case Writing => 2 case Exiting => 1 case Dead => 0
  }

  function StepsIn(actions: seq<Action>): nat {
    if actions == [] then 0 else (if actions[0] == Interrupted then 0 else 1) + StepsIn(actions[1..])
  }

  lemma StepTakesOne(s: State, a: Action)
    requires Inv(s) && Enabled(s, a)
    ensures StepsLeft(Apply(s, a, true)) + (if a == Interrupted then 0 else 1) <= StepsLeft(s)
  {
  }

  /** Every action but an interrupted read brings the end nearer. */
  lemma {:induction false} StepsRunOut(s: State, actions: seq<Action>, t: State)
    requires Inv(s) && Runs(s, actions, t, true)
    ensures StepsIn(actions) + StepsLeft(t) <= StepsLeft(s)
    decreases |actions|
  {
    if actions != [] {
      StepKeeps(s, actions[0]);
      StepTakesOne(s, actions[0]);
      StepsRunOut(Apply(s, actions[0], true), actions[1..], t);
    }
  }

  /** The parent concludes: a run has at most twelve steps, interrupted reads aside, and as long as the parent
      is not done, some such step can be taken. */
  lemma ParentConcludes(actions: seq<Action>, t: State)
    requires Runs(INIT, actions, t, true)
    ensures StepsIn(actions) <= 12
    ensures t.parent !in {Done, Fatal} ==> exists a :: a != Interrupted && Enabled(t, a)
    ensures (forall a :: a != Interrupted ==> !Enabled(t, a)) ==> t.parent in {Done, Fatal} && t.child in {Dead, Unborn}
  {
    StepsRunOut(INIT, actions, t);
    NoHang(actions, t);
    RunKeeps(INIT, actions, t);
    if t.child == Running { assert Enabled(t, ChildEnds(Silent(0))); }
    if t.child in {CloseRead, Writing, Exiting} { assert Enabled(t, ChildStep); }
  }

  /** In the variant where the parent keeps its write end, it waits for ever for the end of the pipe of a
      child that died silently: the only things left to happen are interruptions and errors of the read. */
  ghost predicate Stuck(s: State) {
    s.parent == Reading && s.parentWrite && s.pipe == "" && s.child in {Exiting, Dead}
  }

  lemma {:induction false} KeptWriteEndHangs(s: State, actions: seq<Action>, t: State)
    requires Stuck(s) && Runs(s, actions, t, false)
    requires forall i | 0 <= i < |actions| :: actions[i] != ReadFails
    ensures Stuck(t) && !Enabled(t, ParentStep) && t.outcome == s.outcome
    decreases |actions|
  {
    if actions != [] {
      KeptWriteEndHangs(Apply(s, actions[0], false), actions[1..], t);
    }
  }

  lemma RunFirst(s: State, a: Action, rest: seq<Action>, t: State)
    requires Enabled(s, a) && Runs(Apply(s, a, false), rest, t, false)
    ensures Runs(s, [a] + rest, t, false)
  {
    assert ([a] + rest)[1..] == rest;
  }

  /** Both processes are up: the parent reads, the child runs the statement. */
  const BOTH_UP := State(Reading, Running, None, -1, "", true, true, false, true, true, InProgress, true, 0, -1)

  lemma ToBothUp(rest: seq<Action>, t: State)
    requires Runs(BOTH_UP, rest, t, false)
    ensures exists actions :: Runs(INIT, actions, t, false)
  {
    var piped := Apply(INIT, ParentStep, false);
    var forked := Apply(piped, ParentStep, false);
    var assuming := Apply(forked, ParentStep, false);
    var reading := Apply(assuming, ParentStep, false);
    assert Apply(reading, ChildStep, false) == BOTH_UP;
    RunFirst(reading, ChildStep, rest, t);
    RunFirst(assuming, ParentStep, [ChildStep] + rest, t);
    RunFirst(forked, ParentStep, [ParentStep] + ([ChildStep] + rest), t);
    RunFirst(piped, ParentStep, [ParentStep] + ([ParentStep] + ([ChildStep] + rest)), t);
    RunFirst(INIT, ParentStep, [ParentStep] + ([ParentStep] + ([ParentStep] + ([ChildStep] + rest))), t);
  }

  /** Such a state is reached when the child dies silently, with whatever status. */
  lemma StuckIsReached(status: int)
    ensures exists actions, t :: Runs(INIT, actions, t, false) && Stuck(t) && t.child == Dead && t.exitStatus == status
  {
    var exiting := Apply(BOTH_UP, ChildEnds(Silent(status)), false);
    var t := Apply(exiting, ChildStep, false);
    RunFirst(exiting, ChildStep, [], t);
    RunFirst(BOTH_UP, ChildEnds(Silent(status)), [ChildStep] + [], t);
    ToBothUp([ChildEnds(Silent(status))] + ([ChildStep] + []), t);
  }

  // ---------------------------------------------------------------- the verdict

  /** The regular expression matches somewhere in the text. */
  ghost predicate PatternMatches(pattern: Option<string>, text: string) {
    pattern.Some? && exists re :: Reads(pattern.value, re) && Matches(re, text)
  }

  /** The captured text up to its first NUL, as `c_str()` passes it on. */
  function CText(s: string): string { FirstField(s, '\0') }

  /** None is the fatal error of a call before the test has concluded. */
  method Passed(spawned: bool, outcome: Outcome, statusOk: bool, regex: RE, errorMessage: string)
    returns (success: Option<bool>)
    requires regex.Valid() && |errorMessage| < SIZE_MAX
    ensures success.None? <==> spawned && outcome == InProgress
    ensures success == Some(true) <==>
              spawned && outcome == Died && statusOk && PatternMatches(regex.pattern, CText(errorMessage))
  {
    if !spawned {
      return Some(false);
    }
    var result := false;
    match outcome {
      case Lived =>
      case Threw =>
      case Returned =>
      case Died =>
        if statusOk {
          var text := CText(errorMessage);
          assert IsFirstField(errorMessage, '\0', text);
          var matched := regex.PartialMatch(Some(text));
          PartialMatchDecides(regex, text, matched);
          if matched {
            result := true;
          }
        }
      case InProgress =>
        return None;
    }
    return Some(result);
  }

  lemma PartialMatchDecides(regex: RE, text: string, matched: bool)
    requires regex.Valid()
    requires !regex.isValid ==> !matched
    requires regex.isValid ==> forall re | Reads(regex.pattern.value, re) :: matched <==> Matches(re, text)
    ensures matched <==> PatternMatches(regex.pattern, text)
  {
    if regex.isValid {
      assert InGrammar(regex.pattern.value);
      var re :| Reads(regex.pattern.value, re);
      assert matched <==> Matches(re, text);
    }
  }

  ghost predicate Verdict(s: State, statusOk: int -> bool, pattern: Option<string>, errorMessage: string) {
    s.spawned && s.outcome == Died && statusOk(s.status) && PatternMatches(pattern, CText(errorMessage))
  }

  /** A run that has come to its end passes if and only if the child died without reporting, with a status that
      is accepted and a message that matches. */
  lemma PassesExactlyWhenDied(actions: seq<Action>, t: State, statusOk: int -> bool, pattern: Option<string>,
                              errorMessage: string)
    requires Runs(INIT, actions, t, true) && t.parent == Done
    ensures Verdict(t, statusOk, pattern, errorMessage) <==>
              && t.fate.Some? && t.fate.value.Silent? && statusOk(t.fate.value.status)
              && PatternMatches(pattern, CText(errorMessage))
  {
    OutcomeIsFate(actions, t);
    RunKeeps(INIT, actions, t);
  }
}
