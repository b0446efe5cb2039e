/** A run of all tests: iterations, environments, test cases and tests, and the events they send. */
module TestRun {
  import opened CStrings
  import opened Division
  import opened EventTrace
  import opened Orders
  import opened Shuffling
  import opened TestRegistry

  /** Forwards events to the listeners. The trace is what the listeners have heard, in one sequence. */
  class Repeater {
    const listeners: nat
    var forwardingEnabled: bool
    var trace: seq<Entry>
    ghost var events: seq<Event>

    ghost predicate Valid()
      reads this`trace, this`events
    {
      trace == Broadcast(listeners, events)
    }

    constructor (listeners: nat)
      ensures Valid() && forwardingEnabled && this.listeners == listeners && trace == [] && events == []
    {
      this.listeners, forwardingEnabled, trace, events := listeners, true, [], [];
    }

    method Forward(e: Event)
      requires Valid() && !e.End?
      modifies this`trace, this`events
      ensures Valid() && events == old(events) + if forwardingEnabled then [e] else []
    {
      if forwardingEnabled {
        TellAll(e);
        BroadcastStep(listeners, events, e);
        events := events + [e];
      }
    }

    method TellAll(e: Event)
      modifies this`trace
      ensures trace == old(trace) + Forwards(listeners, e)
    {
      ghost var before := trace;
      assert before + Forwards(0, e) == before;
      var i := 0;
      while i < listeners
        invariant 0 <= i <= listeners && trace == before + Forwards(i, e)
      {
        ForwardsStep(before, i, e);
        trace := trace + [(i, e)];
        i := i + 1;
      }
    }

    method ForwardReversed(e: Event)
      requires Valid() && e.End?
      modifies this`trace, this`events
      ensures Valid() && events == old(events) + if forwardingEnabled then [e] else []
    {
      if forwardingEnabled {
        TellAllReversed(e);
        BroadcastStep(listeners, events, e);
        events := events + [e];
      }
    }

    method TellAllReversed(e: Event)
      modifies this`trace
      ensures trace == old(trace) + Backwards(listeners, listeners, e)
    {
      ghost var before := trace;
      assert before + Backwards(listeners, 0, e) == before;
      var i := listeners - 1;
      while i >= 0
        invariant -1 <= i < listeners && trace == before + Backwards(listeners, listeners - 1 - i, e)
      {
        BackwardsStep(before, listeners, listeners - 1 - i, e);
        trace := trace + [(i, e)];
        i := i - 1;
      }
    }
  }

  /** Forwarding is on, and these scopes are open. */
  ghost predicate At(r: Repeater, open: seq<Scope>)
    reads r`trace, r`events, r`forwardingEnabled
  {
    r.Valid() && r.forwardingEnabled && Open(r.events) == Some(open)
  }

  /** The events without the part results. */
  ghost function Quiet(events: seq<Event>): seq<Event> {
    if events == [] then []
    else Quiet(events[..|events| - 1]) + if events[|events| - 1].PartResult? then [] else [events[|events| - 1]]
  }

  lemma QuietStep(events: seq<Event>, e: Event)
    ensures Quiet(events + [e]) == Quiet(events) + if e.PartResult? then [] else [e]
  {
    assert (events + [e])[..|events|] == events;
  }

  method Begin(r: Repeater, s: Scope, ghost open: seq<Scope>)
    requires At(r, open) && Fits(Innermost(open), s)
    modifies r`trace, r`events
    ensures At(r, open + [s]) && Quiet(r.events) == Quiet(old(r.events)) + [Start(s)]
  {
    OpenStep(r.events, Start(s));
    QuietStep(r.events, Start(s));
    r.Forward(Start(s));
  }

  method Finish(r: Repeater, s: Scope, ghost open: seq<Scope>)
    requires At(r, open + [s])
    modifies r`trace, r`events
    ensures At(r, open) && Quiet(r.events) == Quiet(old(r.events)) + [End(s)]
  {
    OpenStep(r.events, End(s));
    QuietStep(r.events, End(s));
    assert (open + [s])[..|open|] == open;
    r.ForwardReversed(End(s));
  }

  /** User code may report any number of part results. */
  method RunUserCode(r: Repeater, ghost open: seq<Scope>)
    requires At(r, open) && open != [] && RunsUserCode(open[|open| - 1])
    modifies r`trace, r`events
    ensures At(r, open) && Quiet(r.events) == Quiet(old(r.events))
  {
    var results: nat := *;
    while results > 0
      invariant At(r, open) && Quiet(r.events) == Quiet(old(r.events))
    {
      OpenStep(r.events, PartResult);
      QuietStep(r.events, PartResult);
      r.Forward(PartResult);
      results := results - 1;
    }
  }

  // ---------------------------------------------------------------- tests and test cases

  datatype TestPlan = TestPlan(name: string, run: bool)

  datatype CasePlan = CasePlan(name: string, run: bool, tests: seq<TestPlan>)

  /** The tests of the test case in the order of its indices, and which of them are to be run. */
  ghost predicate IsPlan(c: TestCase, plan: CasePlan)
    reads c`tests, c`testIndices, c`shouldRun, c.tests`shouldRun
  {
    && plan.name == c.name && plan.run == c.shouldRun && |plan.tests| == |c.testIndices|
    && forall i | 0 <= i < |plan.tests| ::
         && 0 <= c.testIndices[i] < |c.tests|
         && plan.tests[i] == TestPlan(c.tests[c.testIndices[i]].name, c.tests[c.testIndices[i]].shouldRun)
  }

  /** The test case as registered: its tests in that order. */
  ghost predicate IsRegistered(c: TestCase, registered: CasePlan)
    reads c`tests, c`shouldRun, c.tests`shouldRun
  {
    && registered.name == c.name && registered.run == c.shouldRun && |registered.tests| == |c.tests|
    && forall i | 0 <= i < |c.tests| :: registered.tests[i] == TestPlan(c.tests[i].name, c.tests[i].shouldRun)
  }

  lemma PermutationInRange(s: seq<int>)
    requires IsPermutation(s)
    ensures forall i | 0 <= i < |s| :: 0 <= s[i] < |s|
  {
    forall i | 0 <= i < |s| ensures 0 <= s[i] < |s| {
      PermutationRange(s, i);
    }
  }

  /** The plan lists every test of the test case, once. */
  ghost predicate Covers(registered: CasePlan, plan: CasePlan) {
    plan.name == registered.name && plan.run == registered.run && multiset(plan.tests) == multiset(registered.tests)
  }

  function TestPlanAt(tests: seq<TestPlan>, i: int): TestPlan {
    if 0 <= i < |tests| then tests[i] else TestPlan("", false)
  }

  /** The tests of a test case in the order of the indices. */
  function PlanFrom(registered: CasePlan, indices: seq<int>): (plan: CasePlan)
    ensures |plan.tests| == |indices|
  {
    CasePlan(registered.name, registered.run,
             seq(|indices|, i requires 0 <= i < |indices| => TestPlanAt(registered.tests, indices[i])))
  }

  lemma PlanOf(c: TestCase, registered: CasePlan)
    requires c.Valid() && IsRegistered(c, registered)
    ensures IsPlan(c, PlanFrom(registered, c.testIndices)) && Covers(registered, PlanFrom(registered, c.testIndices))
  {
    PermutationInRange(c.testIndices);
    EachReachedOnce(registered.tests, c.testIndices);
    assert PlanFrom(registered, c.testIndices).tests == Pick(registered.tests, c.testIndices);
  }

  function TestEvents(caseName: string, t: TestPlan): seq<Event> {
    if t.run then [Start(Test(caseName, t.name)), End(Test(caseName, t.name))] else []
  }

  function TestsEvents(caseName: string, tests: seq<TestPlan>): seq<Event> {
    if tests == [] then []
    else TestsEvents(caseName, tests[..|tests| - 1]) + TestEvents(caseName, tests[|tests| - 1])
  }

  function CaseEvents(c: CasePlan): seq<Event> {
    if c.run then [Start(Case(c.name))] + TestsEvents(c.name, c.tests) + [End(Case(c.name))] else []
  }

  function CasesEvents(cases: seq<CasePlan>): seq<Event> {
    if cases == [] then [] else CasesEvents(cases[..|cases| - 1]) + CaseEvents(cases[|cases| - 1])
  }

  method RunTest(info: TestInfo, caseName: string, r: Repeater, ghost open: seq<Scope>)
    requires At(r, open) && Innermost(open) == Some(Case(caseName))
    modifies r`trace, r`events
    ensures At(r, open)
    ensures Quiet(r.events) == Quiet(old(r.events)) + TestEvents(caseName, TestPlan(info.name, info.shouldRun))
  {
    if !info.shouldRun {
      return;
    }
    var test := Test(caseName, info.name);
    Begin(r, test, open);
    RunUserCode(r, open + [test]);
    var createdWithoutFatalFailure: bool := *;
    if createdWithoutFatalFailure {
      RunUserCode(r, open + [test]);
    }
    RunUserCode(r, open + [test]);
    Finish(r, test, open);
  }

  lemma TestsStep(before: seq<Event>, caseName: string, tests: seq<TestPlan>, i: nat)
    requires i < |tests|
    ensures before + TestsEvents(caseName, tests[..i]) + TestEvents(caseName, tests[i])
         == before + TestsEvents(caseName, tests[..i + 1])
  {
    assert tests[..i + 1][..i] == tests[..i];
    Associate(before, TestsEvents(caseName, tests[..i]), TestEvents(caseName, tests[i]));
  }

  method RunTestAt(c: TestCase, i: nat, r: Repeater, ghost open: seq<Scope>, ghost plan: CasePlan)
    requires c.Valid() && At(r, open) && Innermost(open) == Some(Case(c.name)) && IsPlan(c, plan) && i < |c.tests|
    modifies r`trace, r`events
    ensures c.Valid() && IsPlan(c, plan) && At(r, open)
    ensures Quiet(r.events) == Quiet(old(r.events)) + TestEvents(c.name, plan.tests[i])
  {
    var info := c.GetMutableTestInfo(i);
    RunTest(info, c.name, r, open);
  }

  method RunTests(c: TestCase, r: Repeater, ghost open: seq<Scope>, ghost plan: CasePlan)
    requires c.Valid() && At(r, open) && Innermost(open) == Some(Case(c.name)) && IsPlan(c, plan)
    modifies r`trace, r`events
    ensures At(r, open) && Quiet(r.events) == Quiet(old(r.events)) + TestsEvents(c.name, plan.tests)
  {
    ghost var before, tests := Quiet(r.events), plan.tests;
    assert tests[..0] == [] && before + [] == before;
    var i := 0;
    while i < |c.tests|
      invariant 0 <= i <= |c.tests| && c.Valid() && IsPlan(c, plan) && At(r, open)
      invariant Quiet(r.events) == before + TestsEvents(c.name, tests[..i])
    {
      RunTestAt(c, i, r, open, plan);
      TestsStep(before, c.name, tests, i);
      i := i + 1;
    }
    assert tests[..i] == tests;
  }

  method RunCase(c: TestCase, r: Repeater, ghost open: seq<Scope>, ghost plan: CasePlan)
    requires c.Valid() && At(r, open) && open != [] && open[|open| - 1].Iteration? && IsPlan(c, plan)
    modifies r`trace, r`events
    ensures At(r, open) && Quiet(r.events) == Quiet(old(r.events)) + CaseEvents(plan)
  {
    ghost var before := Quiet(r.events);
    if !c.shouldRun {
      return;
    }
    var scope := Case(c.name);
    Begin(r, scope, open);
    RunUserCode(r, open + [scope]);
    RunTests(c, r, open + [scope], plan);
    RunUserCode(r, open + [scope]);
    Finish(r, scope, open);
    Associate(before, [Start(scope)], TestsEvents(c.name, plan.tests));
    Associate(before, [Start(scope)] + TestsEvents(c.name, plan.tests), [End(scope)]);
  }

  lemma CasesStep(before: seq<Event>, cases: seq<CasePlan>, i: nat)
    requires i < |cases|
    ensures before + CasesEvents(cases[..i]) + CaseEvents(cases[i]) == before + CasesEvents(cases[..i + 1])
  {
    assert cases[..i + 1][..i] == cases[..i];
    Associate(before, CasesEvents(cases[..i]), CaseEvents(cases[i]));
  }

  method RunCaseAt(impl: UnitTestImpl, i: nat, r: Repeater, ghost open: seq<Scope>, ghost plan: CasePlan)
    requires impl.Valid() && At(r, open) && open != [] && open[|open| - 1].Iteration? && i < |impl.testCases|
    requires 0 <= impl.testCaseIndices[i] < |impl.testCases| && IsPlan(impl.testCases[impl.testCaseIndices[i]], plan)
    modifies r`trace, r`events
    ensures impl.Valid() && At(r, open) && Quiet(r.events) == Quiet(old(r.events)) + CaseEvents(plan)
  {
    var c := impl.GetMutableTestCase(i);
    RunCase(c, r, open, plan);
  }

  method RunCases(impl: UnitTestImpl, r: Repeater, ghost open: seq<Scope>, ghost plans: seq<CasePlan>)
    requires impl.Valid() && At(r, open) && open != [] && open[|open| - 1].Iteration? && |plans| == |impl.testCases|
    requires forall i | 0 <= i < |plans| ::
               0 <= impl.testCaseIndices[i] < |plans| && IsPlan(impl.testCases[impl.testCaseIndices[i]], plans[i])
    modifies r`trace, r`events
    ensures At(r, open) && Quiet(r.events) == Quiet(old(r.events)) + CasesEvents(plans)
  {
    ghost var before := Quiet(r.events);
    assert plans[..0] == [] && before + [] == before;
    var i := 0;
    while i < |impl.testCases|
      invariant 0 <= i <= |impl.testCases| && impl.Valid() && At(r, open)
      invariant Quiet(r.events) == before + CasesEvents(plans[..i])
    {
      assert old(IsPlan(impl.testCases[impl.testCaseIndices[i]], plans[i]));
      RunCaseAt(impl, i, r, open, plans[i]);
      CasesStep(before, plans, i);
      i := i + 1;
    }
    assert plans[..i] == plans;
  }

  // ---------------------------------------------------------------- iterations

  ghost predicate RunOrderOk(order: seq<int>, count: nat, lastDeathTestCase: int) {
    && |order| == count && -1 <= lastDeathTestCase < count
    && IsPermutation(order) && DeathTestsFirst(order, lastDeathTestCase + 1)
    && forall k | 0 <= k < count :: 0 <= order[k] < count
  }

  /** An iteration: the order of the test cases, what was run of each in that order, unless there was a fatal
      failure in the set-up of the environments. */
  datatype Run = Run(order: seq<int>, plans: seq<CasePlan>, fatal: bool)

  function PlanAt(registered: seq<CasePlan>, tests: seq<seq<int>>, k: int): CasePlan {
    if 0 <= k < |registered| && k < |tests| then PlanFrom(registered[k], tests[k]) else CasePlan("", false, [])
  }

  function PlansFrom(registered: seq<CasePlan>, tests: seq<seq<int>>, order: seq<int>): (plans: seq<CasePlan>)
    ensures |plans| == |order|
  {
    seq(|order|, i requires 0 <= i < |order| => PlanAt(registered, tests, order[i]))
  }

  /** The iteration that runs the test cases in this order, and the tests of each in these. */
  function RunFrom(registered: seq<CasePlan>, order: seq<int>, tests: seq<seq<int>>, fatal: bool): Run {
    Run(order, PlansFrom(registered, tests, order), fatal)
  }

  function IdentityOrders(registered: seq<CasePlan>): seq<seq<int>> {
    if registered == [] then []
    else IdentityOrders(registered[..|registered| - 1]) + [Identity(|registered[|registered| - 1].tests|)]
  }

  lemma {:induction false} IdentityOrderAt(registered: seq<CasePlan>)
    ensures |IdentityOrders(registered)| == |registered|
    ensures forall k | 0 <= k < |registered| :: IdentityOrders(registered)[k] == Identity(|registered[k].tests|)
  {
    if registered != [] {
      IdentityOrderAt(registered[..|registered| - 1]);
    }
  }

  /** The orders that a shuffle with that seed, if there is one, makes of these. */
  function OrderFrom(shuffled: bool, seed: nat, deaths: int, order: seq<int>): seq<int> {
    if shuffled && 0 <= deaths <= |order| then ShuffledBlocks(seed, deaths, order) else order
  }

  function TestsFrom(shuffled: bool, seed: nat, deaths: int, tests: seq<seq<int>>): seq<seq<int>> {
    if shuffled && 0 <= deaths <= |tests| then
      ShuffledUpTo(StateAfterBlocks(seed, deaths, |tests|), tests, |tests|)
    else tests
  }

  /** What a run makes of the orders in each iteration: whether it shuffles, where the death test cases end, and
      functions from the seed and the orders before to those of the iteration. */
  datatype Drawing = Draw(shuffled: bool, lastDeathTestCase: int, order: (nat, seq<int>) -> seq<int>,
                          tests: (nat, seq<seq<int>>) -> seq<seq<int>>)

  /** Those functions give the orders that a shuffle makes, if there is one. */
  ghost predicate Gives(d: Drawing) {
    var deaths := d.lastDeathTestCase + 1;
    && (forall seed, order {:trigger OrderFrom(d.shuffled, seed, deaths, order)} ::
          d.order(seed, order) == OrderFrom(d.shuffled, seed, deaths, order))
    && (forall seed, tests {:trigger TestsFrom(d.shuffled, seed, deaths, tests)} ::
          d.tests(seed, tests) == TestsFrom(d.shuffled, seed, deaths, tests))
  }

  ghost function Undrawn(): (d: Drawing)
    ensures Gives(d)
  {
    Draw(false, -1, (seed: nat, order: seq<int>) => order, (seed: nat, tests: seq<seq<int>>) => tests)
  }

  type Draw = d: Drawing | Gives(d) ghost witness Undrawn()

  ghost predicate IsFor(d: Draw, shuffled: bool, lastDeathTestCase: int) {
    d.shuffled == shuffled && d.lastDeathTestCase == lastDeathTestCase
  }

  lemma DrawnWith(shuffled: bool, lastDeathTestCase: int) returns (d: Draw)
    ensures IsFor(d, shuffled, lastDeathTestCase)
  {
    var deaths := lastDeathTestCase + 1;
    d := Draw(shuffled, lastDeathTestCase,
              (seed: nat, order: seq<int>) => OrderFrom(shuffled, seed, deaths, order),
              (seed: nat, tests: seq<seq<int>>) => TestsFrom(shuffled, seed, deaths, tests));
  }

  /** Every iteration but the first starts from the order of registration. */
  function OrderBefore(registered: seq<CasePlan>, order: seq<int>, k: nat): seq<int> {
    if k == 0 then order else Identity(|registered|)
  }

  function TestsBefore(registered: seq<CasePlan>, tests: seq<seq<int>>, k: nat): seq<seq<int>> {
    if k == 0 then tests else IdentityOrders(registered)
  }

  ghost predicate InRegistrationOrder(impl: UnitTestImpl, registered: seq<CasePlan>)
    reads impl`testCases, impl`testCaseIndices, impl.testCases`testIndices
  {
    impl.testCaseIndices == Identity(|registered|) && HaveOrders(impl.testCases, IdentityOrders(registered))
  }

  /** Every test case is run once, death test cases first, and every test of it once. */
  ghost predicate RunsEachOnce(registered: seq<CasePlan>, lastDeathTestCase: int, run: Run) {
    && RunOrderOk(run.order, |registered|, lastDeathTestCase) && |run.plans| == |run.order|
    && forall k | 0 <= k < |run.order| :: Covers(registered[run.order[k]], run.plans[k])
  }

  ghost predicate AreRegistered(impl: UnitTestImpl, registered: seq<CasePlan>)
    reads impl`testCases, impl.testCases`tests, impl.testCases`shouldRun,
          (set i, j | 0 <= i < |impl.testCases| && 0 <= j < |impl.testCases[i].tests| ::
             impl.testCases[i].tests[j])`shouldRun
  {
    && |registered| == |impl.testCases|
    && forall k | 0 <= k < |registered| :: IsRegistered(impl.testCases[k], registered[k])
  }

  lemma RunOfRegistry(impl: UnitTestImpl, registered: seq<CasePlan>, tests: seq<seq<int>>, fatal: bool)
    returns (run: Run)
    requires impl.Valid() && AreRegistered(impl, registered) && HaveOrders(impl.testCases, tests)
    ensures run == RunFrom(registered, impl.testCaseIndices, tests, fatal)
    ensures RunsEachOnce(registered, impl.lastDeathTestCase, run)
    ensures forall k | 0 <= k < |run.plans| :: IsPlan(impl.testCases[run.order[k]], run.plans[k])
  {
    var order := impl.testCaseIndices;
    PermutationInRange(order);
    assert RunOrderOk(order, |registered|, impl.lastDeathTestCase);
    run := RunFrom(registered, order, tests, fatal);
    forall k | 0 <= k < |order|
      ensures IsPlan(impl.testCases[order[k]], run.plans[k]) && Covers(registered[order[k]], run.plans[k])
    {
      var c := impl.testCases[order[k]];
      assert c in impl.testCases && IsRegistered(c, registered[order[k]]);
      PlanOf(c, registered[order[k]]);
    }
  }

  /** What an iteration sends: nothing but its start and end when there are no tests to run, and no test cases
      after a fatal failure in the set-up of the environments. */
  function IterationEvents(number: nat, hasTests: bool, fatal: bool, plans: seq<CasePlan>): seq<Event> {
    [Start(Iteration(number))] + (if hasTests then TestingEvents(fatal, plans) else []) + [End(Iteration(number))]
  }

  function TestingEvents(fatal: bool, plans: seq<CasePlan>): seq<Event> {
    [Start(SetUp), End(SetUp)] + (if fatal then [] else CasesEvents(plans)) + [Start(TearDown), End(TearDown)]
  }

  method RunEnvironments(r: Repeater, s: Scope, ghost open: seq<Scope>)
    requires At(r, open) && Fits(Innermost(open), s) && (s.SetUp? || s.TearDown?)
    modifies r`trace, r`events
    ensures At(r, open) && Quiet(r.events) == Quiet(old(r.events)) + [Start(s), End(s)]
  {
    Begin(r, s, open);
    RunUserCode(r, open + [s]);
    Finish(r, s, open);
  }

  method RunTesting(impl: UnitTestImpl, r: Repeater, ghost open: seq<Scope>, ghost plans: seq<CasePlan>)
    returns (fatal: bool)
    requires impl.Valid() && At(r, open) && open != [] && open[|open| - 1].Iteration? && |plans| == |impl.testCases|
    requires forall i | 0 <= i < |plans| ::
               0 <= impl.testCaseIndices[i] < |plans| && IsPlan(impl.testCases[impl.testCaseIndices[i]], plans[i])
    modifies r`trace, r`events
    ensures At(r, open) && Quiet(r.events) == Quiet(old(r.events)) + TestingEvents(fatal, plans)
  {
    ghost var before := Quiet(r.events);
    RunEnvironments(r, SetUp, open);
    fatal := *;
    if !fatal {
      RunCases(impl, r, open, plans);
    }
    RunEnvironments(r, TearDown, open);
    ThreeParts(before, [Start(SetUp), End(SetUp)], if fatal then [] else CasesEvents(plans),
               [Start(TearDown), End(TearDown)]);
  }

  lemma ThreeParts(before: seq<Event>, a: seq<Event>, b: seq<Event>, c: seq<Event>)
    ensures before + a + b + c == before + (a + b + c)
    ensures b == [] ==> before + a + c == before + (a + b + c)
  {
  }

  const MAX_RANDOM_SEED: nat := 99999

  function GetNextRandomSeed(seed: nat): nat { if seed + 1 > MAX_RANDOM_SEED then 1 else seed + 1 }

  /** The seed of iteration `k`. */
  function SeedOf(shuffle: bool, first: nat, k: nat): nat {
    if k == 0 || !shuffle then first else GetNextRandomSeed(SeedOf(shuffle, first, k - 1))
  }

  /** The seeds go through 1 to 99999 in turn, for ever. */
  lemma {:induction false} SeedsCycle(first: nat, k: nat)
    requires 1 <= first <= 99999
    ensures SeedOf(true, first, k) == (first - 1 + k) % 99999 + 1
  {
    if k > 0 {
      SeedsCycle(first, k - 1);
      var r, q := (first - 1 + k - 1) % 99999, (first - 1 + k - 1) / 99999;
      assert first - 1 + k - 1 == 99999 * q + r;
      if r + 1 < 99999 {
        DivisionUnique(first - 1 + k, 99999, q, r + 1);
      } else {
        DivisionUnique(first - 1 + k, 99999, q + 1, 0);
      }
    }
  }

  /** Each iteration ran every test case once, and every test of it once, in the orders drawn for its seed: the first
      from these orders, the others from that of registration. */
  ghost predicate HaveRun(registered: seq<CasePlan>, d: Draw, shuffle: bool, firstSeed: nat, order: seq<int>,
                          tests: seq<seq<int>>, runs: seq<Run>)
  {
    runs == [] ||
    var n := |runs| - 1;
    && HaveRun(registered, d, shuffle, firstSeed, order, tests, runs[..n])
    && RunsEachOnce(registered, d.lastDeathTestCase, runs[n])
    && var seed := SeedOf(shuffle, firstSeed, n);
       runs[n] == RunFrom(registered, d.order(seed, OrderBefore(registered, order, n)),
                          d.tests(seed, TestsBefore(registered, tests, n)), runs[n].fatal)
  }

  /** What that says of iteration `k`. */
  lemma {:induction false} HaveRunAt(registered: seq<CasePlan>, d: Draw, shuffle: bool, firstSeed: nat,
                                     order: seq<int>, tests: seq<seq<int>>, runs: seq<Run>, k: nat)
    requires HaveRun(registered, d, shuffle, firstSeed, order, tests, runs) && k < |runs|
    ensures RunsEachOnce(registered, d.lastDeathTestCase, runs[k])
    ensures var seed, deaths := SeedOf(shuffle, firstSeed, k), d.lastDeathTestCase + 1;
            runs[k] == RunFrom(registered, OrderFrom(d.shuffled, seed, deaths, OrderBefore(registered, order, k)),
                               TestsFrom(d.shuffled, seed, deaths, TestsBefore(registered, tests, k)), runs[k].fatal)
  {
    if k < |runs| - 1 {
      HaveRunAt(registered, d, shuffle, firstSeed, order, tests, runs[..|runs| - 1], k);
    } else {
      DrawnOrders(d, SeedOf(shuffle, firstSeed, k), OrderBefore(registered, order, k),
                  TestsBefore(registered, tests, k));
    }
  }

  lemma {:induction false} HaveRunEach(registered: seq<CasePlan>, d: Draw, shuffle: bool, firstSeed: nat,
                                       order: seq<int>, tests: seq<seq<int>>, runs: seq<Run>)
    requires HaveRun(registered, d, shuffle, firstSeed, order, tests, runs)
    ensures forall k | 0 <= k < |runs| :: RunsEachOnce(registered, d.lastDeathTestCase, runs[k])
  {
    if runs != [] {
      var n := |runs| - 1;
      HaveRunEach(registered, d, shuffle, firstSeed, order, tests, runs[..n]);
      forall k | 0 <= k < |runs| ensures RunsEachOnce(registered, d.lastDeathTestCase, runs[k]) {
        if k < n { assert runs[k] == runs[..n][k]; }
      }
    }
  }

  lemma HaveRunStep(registered: seq<CasePlan>, d: Draw, shuffle: bool, firstSeed: nat, seed: nat, order: seq<int>,
                    tests: seq<seq<int>>, runs: seq<Run>, run: Run)
    requires HaveRun(registered, d, shuffle, firstSeed, order, tests, runs)
    requires RunsEachOnce(registered, d.lastDeathTestCase, run) && seed == SeedOf(shuffle, firstSeed, |runs|)
    requires run == RunFrom(registered, d.order(seed, OrderBefore(registered, order, |runs|)),
                            d.tests(seed, TestsBefore(registered, tests, |runs|)), run.fatal)
    ensures HaveRun(registered, d, shuffle, firstSeed, order, tests, runs + [run])
  {
    assert (runs + [run])[..|runs|] == runs;
  }

  /** One iteration. */
  method RunIteration(impl: UnitTestImpl, r: Repeater, number: nat, hasTests: bool, shuffle: bool, seed: nat,
                      ghost registered: seq<CasePlan>, ghost d: Draw, ghost order: seq<int>,
                      ghost tests: seq<seq<int>>)
    returns (ghost run: Run)
    requires impl.Valid() && AreRegistered(impl, registered) && At(r, [Program])
    requires impl.testCaseIndices == order && HaveOrders(impl.testCases, tests)
    requires IsFor(d, hasTests && shuffle, impl.lastDeathTestCase)
    modifies r`trace, r`events, impl`testCaseIndices, impl.testCases`testIndices, impl.random`state
    ensures impl.Valid() && impl.Unshuffled() && AreRegistered(impl, registered) && At(r, [Program])
    ensures Quiet(r.events) == Quiet(old(r.events)) + IterationEvents(number, hasTests, run.fatal, run.plans)
    ensures RunsEachOnce(registered, impl.lastDeathTestCase, run)
    ensures InRegistrationOrder(impl, registered)
    ensures run == RunFrom(registered, d.order(seed, order), d.tests(seed, tests), run.fatal)
  {
    ShuffleIf(impl, hasTests && shuffle, seed, registered, d, order, tests);
    run := RunAndUnshuffle(impl, r, number, hasTests, registered, d.order(seed, order), d.tests(seed, tests));
  }

  method RunAndUnshuffle(impl: UnitTestImpl, r: Repeater, number: nat, hasTests: bool, ghost registered: seq<CasePlan>,
                         ghost order: seq<int>, ghost tests: seq<seq<int>>)
    returns (ghost run: Run)
    requires impl.Valid() && AreRegistered(impl, registered) && At(r, [Program])
    requires impl.testCaseIndices == order && HaveOrders(impl.testCases, tests)
    modifies r`trace, r`events, impl`testCaseIndices, impl.testCases`testIndices
    ensures impl.Valid() && impl.Unshuffled() && AreRegistered(impl, registered) && At(r, [Program])
    ensures Quiet(r.events) == Quiet(old(r.events)) + IterationEvents(number, hasTests, run.fatal, run.plans)
    ensures RunsEachOnce(registered, impl.lastDeathTestCase, run)
    ensures InRegistrationOrder(impl, registered) && run == RunFrom(registered, order, tests, run.fatal)
  {
    run := RunInOrder(impl, r, number, hasTests, registered, tests);
    impl.UnshuffleTests();
    OrdersRestored(impl, registered);
  }

  lemma OrdersRestored(impl: UnitTestImpl, registered: seq<CasePlan>)
    requires impl.Valid() && impl.Unshuffled() && AreRegistered(impl, registered)
    requires forall c | c in impl.testCases :: c.Unshuffled()
    ensures InRegistrationOrder(impl, registered)
  {
    IdentityOrderAt(registered);
    forall k | 0 <= k < |registered| ensures impl.testCases[k].testIndices == Identity(|registered[k].tests|) {
      assert IsRegistered(impl.testCases[k], registered[k]);
      var c := impl.testCases[k];
      assert c in impl.testCases && c.Valid() && c.Unshuffled();
    }
  }

  method ShuffleIf(impl: UnitTestImpl, shuffle: bool, seed: nat, ghost registered: seq<CasePlan>,
                   ghost d: Draw, ghost order: seq<int>, ghost tests: seq<seq<int>>)
    requires impl.Valid() && AreRegistered(impl, registered)
    requires impl.testCaseIndices == order && HaveOrders(impl.testCases, tests)
    requires IsFor(d, shuffle, impl.lastDeathTestCase)
    modifies impl`testCaseIndices, impl.testCases`testIndices, impl.random`state
    ensures impl.Valid() && AreRegistered(impl, registered)
    ensures impl.testCaseIndices == d.order(seed, order) && HaveOrders(impl.testCases, d.tests(seed, tests))
  {
    if shuffle {
      DrawOrders(impl, seed, d, order, tests);
    } else {
      NothingDrawn(d, seed, order, tests);
    }
  }

  method DrawOrders(impl: UnitTestImpl, seed: nat, ghost d: Draw, ghost order: seq<int>, ghost tests: seq<seq<int>>)
    requires impl.Valid() && impl.testCaseIndices == order && HaveOrders(impl.testCases, tests)
    requires IsFor(d, true, impl.lastDeathTestCase)
    modifies impl`testCaseIndices, impl.testCases`testIndices, impl.random`state
    ensures impl.Valid()
    ensures impl.testCaseIndices == d.order(seed, order) && HaveOrders(impl.testCases, d.tests(seed, tests))
  {
    SomethingDrawn(d, seed, order, tests);
    ReseedAndShuffle(impl, seed, tests);
  }

  lemma DrawnOrders(d: Draw, seed: nat, order: seq<int>, tests: seq<seq<int>>)
    ensures d.order(seed, order) == OrderFrom(d.shuffled, seed, d.lastDeathTestCase + 1, order)
    ensures d.tests(seed, tests) == TestsFrom(d.shuffled, seed, d.lastDeathTestCase + 1, tests)
  {
    assert d.order(seed, order) == OrderFrom(d.shuffled, seed, d.lastDeathTestCase + 1, order);
    assert d.tests(seed, tests) == TestsFrom(d.shuffled, seed, d.lastDeathTestCase + 1, tests);
  }

  lemma SomethingDrawn(d: Draw, seed: nat, order: seq<int>, tests: seq<seq<int>>)
    ensures d.shuffled ==> d.order(seed, order) == OrderFrom(true, seed, d.lastDeathTestCase + 1, order)
    ensures d.shuffled ==> d.tests(seed, tests) == TestsFrom(true, seed, d.lastDeathTestCase + 1, tests)
  {
    DrawnOrders(d, seed, order, tests);
  }

  lemma NothingDrawn(d: Draw, seed: nat, order: seq<int>, tests: seq<seq<int>>)
    ensures !d.shuffled ==> d.order(seed, order) == order && d.tests(seed, tests) == tests
  {
    DrawnOrders(d, seed, order, tests);
  }

  method ReseedAndShuffle(impl: UnitTestImpl, seed: nat, ghost tests: seq<seq<int>>)
    requires impl.Valid() && HaveOrders(impl.testCases, tests)
    modifies impl`testCaseIndices, impl.testCases`testIndices, impl.random`state
    ensures impl.Valid()
    ensures impl.testCaseIndices == OrderFrom(true, seed, impl.lastDeathTestCase + 1, old(impl.testCaseIndices))
    ensures HaveOrders(impl.testCases, TestsFrom(true, seed, impl.lastDeathTestCase + 1, tests))
  {
    impl.random.state := seed;
    OrdersAre(impl.testCases, tests);
    impl.ShuffleTests();
  }

  lemma OrdersAre(cases: seq<TestCase>, orders: seq<seq<int>>)
    requires HaveOrders(cases, orders)
    ensures TestOrders(cases) == orders
  {
  }

  method RunInOrder(impl: UnitTestImpl, r: Repeater, number: nat, hasTests: bool, ghost registered: seq<CasePlan>,
                    ghost tests: seq<seq<int>>)
    returns (ghost run: Run)
    requires impl.Valid() && AreRegistered(impl, registered) && At(r, [Program]) && HaveOrders(impl.testCases, tests)
    modifies r`trace, r`events
    ensures impl.Valid() && AreRegistered(impl, registered) && At(r, [Program])
    ensures Quiet(r.events) == Quiet(old(r.events)) + IterationEvents(number, hasTests, run.fatal, run.plans)
    ensures RunsEachOnce(registered, impl.lastDeathTestCase, run)
    ensures run == RunFrom(registered, impl.testCaseIndices, tests, run.fatal)
  {
    run := RunOfRegistry(impl, registered, tests, false);
    var fatal := RunPlans(impl, r, number, hasTests, run.plans);
    run := run.(fatal := fatal);
  }

  method RunPlans(impl: UnitTestImpl, r: Repeater, number: nat, hasTests: bool, ghost plans: seq<CasePlan>)
    returns (fatal: bool)
    requires impl.Valid() && At(r, [Program]) && |plans| == |impl.testCases|
    requires forall i | 0 <= i < |plans| ::
               0 <= impl.testCaseIndices[i] < |plans| && IsPlan(impl.testCases[impl.testCaseIndices[i]], plans[i])
    modifies r`trace, r`events
    ensures At(r, [Program])
    ensures Quiet(r.events) == Quiet(old(r.events)) + IterationEvents(number, hasTests, fatal, plans)
  {
    ghost var before := Quiet(r.events);
    var scope := Iteration(number);
    Begin(r, scope, [Program]);
    fatal := false;
    if hasTests {
      fatal := RunTesting(impl, r, [Program] + [scope], plans);
    }
    Finish(r, scope, [Program]);
    ThreeParts(before, [Start(scope)], if hasTests then TestingEvents(fatal, plans) else [], [End(scope)]);
  }

  // ---------------------------------------------------------------- RunAllTests

  function AllIterations(hasTests: bool, runs: seq<Run>): seq<Event> {
    if runs == [] then []
    else
      var n := |runs| - 1;
      AllIterations(hasTests, runs[..n]) + IterationEvents(n, hasTests, runs[n].fatal, runs[n].plans)
  }

  lemma IterationStep(before: seq<Event>, hasTests: bool, runs: seq<Run>, run: Run)
    ensures before + AllIterations(hasTests, runs) + IterationEvents(|runs|, hasTests, run.fatal, run.plans)
         == before + AllIterations(hasTests, runs + [run])
  {
    assert (runs + [run])[..|runs|] == runs;
    Associate(before, AllIterations(hasTests, runs), IterationEvents(|runs|, hasTests, run.fatal, run.plans));
  }

  /** One iteration more, and the seed for the next. */
  method RunOnce(impl: UnitTestImpl, r: Repeater, number: nat, hasTests: bool, shuffle: bool, seed: nat,
                 ghost registered: seq<CasePlan>, ghost before: seq<Event>, ghost runs: seq<Run>,
                 ghost d: Draw, ghost firstSeed: nat, ghost order: seq<int>,
                 ghost tests: seq<seq<int>>)
    returns (next: nat, ghost after: seq<Run>)
    requires impl.Valid() && AreRegistered(impl, registered) && At(r, [Program]) && number == |runs|
    requires seed == SeedOf(shuffle, firstSeed, number) && IsFor(d, hasTests && shuffle, impl.lastDeathTestCase)
    requires HaveRun(registered, d, shuffle, firstSeed, order, tests, runs)
    requires impl.testCaseIndices == OrderBefore(registered, order, number)
    requires HaveOrders(impl.testCases, TestsBefore(registered, tests, number))
    requires Quiet(r.events) == before + AllIterations(hasTests, runs)
    modifies r`trace, r`events, impl`testCaseIndices, impl.testCases`testIndices, impl.random`state
    ensures impl.Valid() && AreRegistered(impl, registered) && At(r, [Program]) && |after| == number + 1
    ensures Quiet(r.events) == before + AllIterations(hasTests, after)
    ensures HaveRun(registered, d, shuffle, firstSeed, order, tests, after)
    ensures impl.testCaseIndices == OrderBefore(registered, order, number + 1)
    ensures HaveOrders(impl.testCases, TestsBefore(registered, tests, number + 1))
    ensures next == SeedOf(shuffle, firstSeed, number + 1)
  {
    ghost var run := RunIteration(impl, r, number, hasTests, shuffle, seed, registered, d,
                                  OrderBefore(registered, order, number), TestsBefore(registered, tests, number));
    after := runs + [run];
    IterationStep(before, hasTests, runs, run);
    HaveRunStep(registered, d, shuffle, firstSeed, seed, order, tests, runs, run);
    next := if shuffle then GetNextRandomSeed(seed) else seed;
  }

  /** Any number of iterations. This is also what a run that repeats forever has done after each of them. */
  method RunIterations(impl: UnitTestImpl, r: Repeater, repeat: nat, hasTests: bool, shuffle: bool, firstSeed: nat,
                       ghost registered: seq<CasePlan>, ghost d: Draw, ghost order: seq<int>,
                       ghost tests: seq<seq<int>>)
    returns (ghost runs: seq<Run>)
    requires impl.Valid() && AreRegistered(impl, registered) && At(r, [Program])
    requires impl.testCaseIndices == order && HaveOrders(impl.testCases, tests)
    requires IsFor(d, hasTests && shuffle, impl.lastDeathTestCase)
    modifies r`trace, r`events, impl`testCaseIndices, impl.testCases`testIndices, impl.random`state
    ensures impl.Valid() && At(r, [Program]) && |runs| == repeat
    ensures Quiet(r.events) == Quiet(old(r.events)) + AllIterations(hasTests, runs)
    ensures AreRegistered(impl, registered)
    ensures HaveRun(registered, d, shuffle, firstSeed, order, tests, runs)
  {
    ghost var before := Quiet(r.events);
    runs := [];
    var seed := firstSeed;
    var i := 0;
    while i < repeat
      invariant 0 <= i == |runs| <= repeat
      invariant impl.Valid() && At(r, [Program])
      invariant Quiet(r.events) == before + AllIterations(hasTests, runs)
      invariant AreRegistered(impl, registered)
      invariant seed == SeedOf(shuffle, firstSeed, i)
      invariant HaveRun(registered, d, shuffle, firstSeed, order, tests, runs)
      invariant impl.testCaseIndices == OrderBefore(registered, order, i)
      invariant HaveOrders(impl.testCases, TestsBefore(registered, tests, i))
    {
      seed, runs := RunOnce(impl, r, i, hasTests, shuffle, seed, registered, before, runs, d, firstSeed, order,
                            tests);
      i := i + 1;
    }
  }

  /** A whole run with a number of iterations that is not negative; it leaves early when Google Test is not
      initialized, for help, and for a list of the tests. Whatever the user code does, what all
      listeners hear is well-bracketed, and nothing is left open. */
  method RunAllTests(impl: UnitTestImpl, r: Repeater, leavesEarly: bool, repeat: nat, hasTests: bool, shuffle: bool,
                     firstSeed: nat, ghost registered: seq<CasePlan>, ghost d: Draw, ghost order: seq<int>,
                     ghost tests: seq<seq<int>>)
    returns (ghost runs: seq<Run>)
    requires impl.Valid() && AreRegistered(impl, registered) && At(r, []) && r.events == []
    requires impl.testCaseIndices == order && HaveOrders(impl.testCases, tests)
    requires IsFor(d, hasTests && shuffle, impl.lastDeathTestCase)
    modifies r`trace, r`events, impl`testCaseIndices, impl.testCases`testIndices, impl.random`state
    ensures leavesEarly ==> r.trace == []
    ensures Bracketed(r.listeners, r.trace) == Some(Brackets([], false))
    ensures forall l | 0 <= l < r.listeners :: Told(l, r.trace) == r.events
    ensures !leavesEarly ==>
              && Quiet(r.events) == [Start(Program)] + AllIterations(hasTests, runs) + [End(Program)]
              && |runs| == repeat
              && forall k | 0 <= k < repeat :: RunsEachOnce(registered, impl.lastDeathTestCase, runs[k])
    ensures !leavesEarly ==> HaveRun(registered, d, shuffle, firstSeed, order, tests, runs)
  {
    runs := [];
    if !leavesEarly {
      runs := RunProgram(impl, r, repeat, hasTests, shuffle, firstSeed, registered, d, order, tests);
      HaveRunEach(registered, d, shuffle, firstSeed, order, tests, runs);
    }
    HeardByAll(r.listeners, r.events);
  }

  method RunProgram(impl: UnitTestImpl, r: Repeater, repeat: nat, hasTests: bool, shuffle: bool, firstSeed: nat,
                    ghost registered: seq<CasePlan>, ghost d: Draw, ghost order: seq<int>,
                    ghost tests: seq<seq<int>>)
    returns (ghost runs: seq<Run>)
    requires impl.Valid() && AreRegistered(impl, registered) && At(r, []) && r.events == []
    requires impl.testCaseIndices == order && HaveOrders(impl.testCases, tests)
    requires IsFor(d, hasTests && shuffle, impl.lastDeathTestCase)
    modifies r`trace, r`events, impl`testCaseIndices, impl.testCases`testIndices, impl.random`state
    ensures At(r, []) && |runs| == repeat
    ensures Quiet(r.events) == [Start(Program)] + AllIterations(hasTests, runs) + [End(Program)]
    ensures HaveRun(registered, d, shuffle, firstSeed, order, tests, runs)
  {
    assert [] + [Program] == [Program] && Quiet(r.events) + [Start(Program)] == [Start(Program)];
    Begin(r, Program, []);
    runs := RunIterations(impl, r, repeat, hasTests, shuffle, firstSeed, registered, d, order, tests);
    Finish(r, Program, []);
  }

  lemma HeardByAll(listeners: nat, events: seq<Event>)
    requires Open(events) == Some([])
    ensures var trace := Broadcast(listeners, events);
            && Bracketed(listeners, trace) == Some(Brackets([], false))
            && forall l | 0 <= l < listeners :: Told(l, trace) == events
  {
    AllClosed(listeners, events);
    forall l | 0 <= l < listeners ensures Told(l, Broadcast(listeners, events)) == events {
      EachListenerIsToldAll(l, listeners, events);
    }
  }
}
