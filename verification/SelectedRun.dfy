/** A whole test run: the tests are selected, and every iteration starts exactly the selected ones. */
module SelectedRun {
  import opened CStrings
  import opened EventTrace
  import opened Orders
  import opened TestRegistry
  import opened TestRun
  import opened TestSelection

  // ---------------------------------------------------------------- the tests that are started

  function StartedBy(e: Event): multiset<Scope> {
    match e
    case Start(Test(c, t)) => multiset{Test(c, t)}
    case _ => multiset{}
  }

  /** The tests that the events start, as often as they do. */
  ghost function Started(events: seq<Event>): multiset<Scope> { Total(StartedBy, events) }

  lemma {:induction false} StartedConcat(a: seq<Event>, b: seq<Event>)
    ensures Started(a + b) == Started(a) + Started(b)
  {
    if b == [] {
      assert a + b == a;
    } else {
      var n := |b| - 1;
      StartedConcat(a, b[..n]);
      LastOfConcat(a, b);
    }
  }

  lemma StartedNone(events: seq<Event>)
    requires forall i | 0 <= i < |events| :: !(events[i].Start? && events[i].scope.Test?)
    ensures Started(events) == multiset{}
  {
    if events != [] {
      StartedNone(events[..|events| - 1]);
    }
  }

  function RunOf(caseName: string): TestPlan -> multiset<Scope> {
    (t: TestPlan) => if t.run then multiset{Test(caseName, t.name)} else multiset{}
  }

  /** The tests of a test case that are to be run. */
  ghost function ToRun(c: CasePlan): multiset<Scope> {
    if c.run then Total(RunOf(c.name), c.tests) else multiset{}
  }

  lemma {:induction false} StartedTests(caseName: string, tests: seq<TestPlan>)
    ensures Started(TestsEvents(caseName, tests)) == Total(RunOf(caseName), tests)
  {
    if tests != [] {
      var n := |tests| - 1;
      StartedTests(caseName, tests[..n]);
      StartedConcat(TestsEvents(caseName, tests[..n]), TestEvents(caseName, tests[n]));
      StartedTest(caseName, tests[n]);
    }
  }

  lemma StartedTest(caseName: string, t: TestPlan)
    ensures Started(TestEvents(caseName, t)) == RunOf(caseName)(t)
  {
    var events := TestEvents(caseName, t);
    if t.run {
      assert events == [events[0]] + [events[1]];
      StartedConcat([events[0]], [events[1]]);
      StartedOne(events[0]);
      StartedOne(events[1]);
    }
  }

  lemma StartedOne(e: Event)
    ensures Started([e]) == StartedBy(e)
  {
    assert [e] == [] + [e];
    assert [e][..|[e]| - 1] == [] && Started([]) == multiset{};
  }

  lemma StartedCase(c: CasePlan)
    ensures Started(CaseEvents(c)) == ToRun(c)
  {
    if c.run {
      var tests := TestsEvents(c.name, c.tests);
      StartedTests(c.name, c.tests);
      StartedConcat([Start(Case(c.name))] + tests, [End(Case(c.name))]);
      StartedConcat([Start(Case(c.name))], tests);
      StartedOne(Start(Case(c.name)));
      StartedOne(End(Case(c.name)));
    }
  }

  lemma {:induction false} StartedCases(plans: seq<CasePlan>)
    ensures Started(CasesEvents(plans)) == Total(ToRun, plans)
  {
    if plans != [] {
      var n := |plans| - 1;
      StartedCases(plans[..n]);
      StartedConcat(CasesEvents(plans[..n]), CaseEvents(plans[n]));
      StartedCase(plans[n]);
    }
  }

  lemma StartedIteration(number: nat, hasTests: bool, fatal: bool, plans: seq<CasePlan>)
    ensures Started(IterationEvents(number, hasTests, fatal, plans))
         == if hasTests && !fatal then Total(ToRun, plans) else multiset{}
  {
    var inner := if hasTests then TestingEvents(fatal, plans) else [];
    StartedConcat([Start(Iteration(number))] + inner, [End(Iteration(number))]);
    StartedConcat([Start(Iteration(number))], inner);
    StartedOne(Start(Iteration(number)));
    StartedOne(End(Iteration(number)));
    if hasTests {
      StartedTesting(fatal, plans);
    }
  }

  lemma StartedTesting(fatal: bool, plans: seq<CasePlan>)
    ensures Started(TestingEvents(fatal, plans)) == if fatal then multiset{} else Total(ToRun, plans)
  {
    var cases := if fatal then [] else CasesEvents(plans);
    StartedConcat([Start(SetUp), End(SetUp)] + cases, [Start(TearDown), End(TearDown)]);
    StartedConcat([Start(SetUp), End(SetUp)], cases);
    StartedNone([Start(SetUp), End(SetUp)]);
    StartedNone([Start(TearDown), End(TearDown)]);
    StartedCases(plans);
  }

  // ---------------------------------------------------------------- in whatever order

  lemma CoversSame(registered: CasePlan, plan: CasePlan)
    requires Covers(registered, plan)
    ensures ToRun(plan) == ToRun(registered)
  {
    TotalOfPermutation(RunOf(plan.name), plan.tests, registered.tests);
  }

  /** The order of an iteration makes no difference to the tests that are run in it. */
  lemma OrderIrrelevant(registered: seq<CasePlan>, lastDeathTestCase: int, run: Run)
    requires RunsEachOnce(registered, lastDeathTestCase, run)
    ensures Total(ToRun, run.plans) == Total(ToRun, registered)
  {
    var picked := Pick(registered, run.order);
    EachReachedOnce(registered, run.order);
    TotalOfPermutation(ToRun, picked, registered);
    forall k | 0 <= k < |picked| ensures ToRun(run.plans[k]) == ToRun(picked[k]) {
      CoversSame(registered[run.order[k]], run.plans[k]);
    }
    TotalAgrees(ToRun, run.plans, picked);
  }

  // ---------------------------------------------------------------- the selection

  function TestNames(caseName: string, tests: seq<TestPlan>): (r: seq<Scope>)
    ensures |r| == |tests|
  {
    seq(|tests|, j requires 0 <= j < |tests| => Test(caseName, tests[j].name))
  }

  function TestMarks(tests: seq<TestPlan>): (r: seq<bool>)
    ensures |r| == |tests|
  {
    seq(|tests|, j requires 0 <= j < |tests| => tests[j].run)
  }

  /** All tests, in the order of registration. */
  function AllNames(registered: seq<CasePlan>): seq<Scope> {
    if registered == [] then []
    else
      var n := |registered| - 1;
      AllNames(registered[..n]) + TestNames(registered[n].name, registered[n].tests)
  }

  function AllMarks(registered: seq<CasePlan>): (r: seq<bool>)
    ensures |r| == |AllNames(registered)|
  {
    if registered == [] then []
    else
      var n := |registered| - 1;
      AllMarks(registered[..n]) + TestMarks(registered[n].tests)
  }

  /** The marked ones among them. */
  ghost function Chosen(names: seq<Scope>, marks: seq<bool>): multiset<Scope>
    requires |names| == |marks|
  {
    if names == [] then multiset{}
    else
      var n := |names| - 1;
      Chosen(names[..n], marks[..n]) + if marks[n] then multiset{names[n]} else multiset{}
  }

  lemma {:induction false} ChosenConcat(a: seq<Scope>, am: seq<bool>, b: seq<Scope>, bm: seq<bool>)
    requires |a| == |am| && |b| == |bm|
    ensures Chosen(a + b, am + bm) == Chosen(a, am) + Chosen(b, bm)
  {
    if b == [] {
      assert a + b == a && am + bm == am;
    } else {
      var n := |b| - 1;
      ChosenConcat(a, am, b[..n], bm[..n]);
      LastOfConcat(a, b);
      LastOfConcat(am, bm);
    }
  }

  lemma LastOfConcat<T>(a: seq<T>, b: seq<T>)
    requires b != []
    ensures (a + b)[..|a + b| - 1] == a + b[..|b| - 1] && (a + b)[|a + b| - 1] == b[|b| - 1]
  {
  }

  lemma {:induction false} ChosenTests(caseName: string, tests: seq<TestPlan>)
    ensures Chosen(TestNames(caseName, tests), TestMarks(tests)) == Total(RunOf(caseName), tests)
  {
    if tests != [] {
      var n := |tests| - 1;
      ChosenTests(caseName, tests[..n]);
      assert TestNames(caseName, tests)[..n] == TestNames(caseName, tests[..n]);
      assert TestMarks(tests)[..n] == TestMarks(tests[..n]);
    }
  }

  lemma {:induction false} NothingToRun(caseName: string, tests: seq<TestPlan>)
    requires forall j | 0 <= j < |tests| :: !tests[j].run
    ensures Total(RunOf(caseName), tests) == multiset{}
  {
    if tests != [] {
      NothingToRun(caseName, tests[..|tests| - 1]);
    }
  }

  /** A test case is to run exactly when one of its tests is. */
  ghost predicate RunsIfMarked(c: CasePlan) { c.run <==> exists j :: 0 <= j < |c.tests| && c.tests[j].run }

  lemma {:induction false} ChosenAll(registered: seq<CasePlan>)
    requires forall k | 0 <= k < |registered| :: RunsIfMarked(registered[k])
    ensures Chosen(AllNames(registered), AllMarks(registered)) == Total(ToRun, registered)
  {
    if registered != [] {
      var n := |registered| - 1;
      var c := registered[n];
      ChosenAll(registered[..n]);
      ChosenConcat(AllNames(registered[..n]), AllMarks(registered[..n]),
                   TestNames(c.name, c.tests), TestMarks(c.tests));
      ChosenTests(c.name, c.tests);
      assert RunsIfMarked(c);
      if !c.run { NothingToRun(c.name, c.tests); }
    }
  }

  lemma NoneChosen(names: seq<Scope>, marks: seq<bool>)
    requires |names| == |marks| && CountTrue(marks) == 0
    ensures Chosen(names, marks) == multiset{}
  {
    if names != [] {
      var n := |names| - 1;
      NoneChosen(names[..n], marks[..n]);
    }
  }

  /** The tests that an iteration starts are those that were marked, each of them once; none after a fatal
      failure in the set-up of the environments. */
  lemma IterationStartsChosen(registered: seq<CasePlan>, lastDeathTestCase: int, run: Run, number: nat)
    requires RunsEachOnce(registered, lastDeathTestCase, run)
    requires forall k | 0 <= k < |registered| :: RunsIfMarked(registered[k])
    ensures Started(IterationEvents(number, CountTrue(AllMarks(registered)) > 0, run.fatal, run.plans))
         == if run.fatal then multiset{} else Chosen(AllNames(registered), AllMarks(registered))
  {
    StartedIteration(number, CountTrue(AllMarks(registered)) > 0, run.fatal, run.plans);
    OrderIrrelevant(registered, lastDeathTestCase, run);
    ChosenAll(registered);
    if CountTrue(AllMarks(registered)) == 0 {
      NoneChosen(AllNames(registered), AllMarks(registered));
    }
  }

  // ---------------------------------------------------------------- selecting and running

  function ListedTests(caseName: string, tests: seq<TestInfo>): (r: seq<Scope>)
    ensures |r| == |tests|
  {
    seq(|tests|, j requires 0 <= j < |tests| => Test(caseName, tests[j].name))
  }

  /** The listed tests by name, in the order of registration. */
  function ListedNames(l: Listing): seq<Scope> {
    if l == [] then []
    else
      var n := |l| - 1;
      ListedNames(l[..n]) + ListedTests(l[n].0, l[n].1)
  }

  ghost predicate Reflects(c: CasePlan, name: string, tests: seq<TestInfo>)
    reads tests`shouldRun
  {
    && c.name == name && |c.tests| == |tests|
    && forall j | 0 <= j < |tests| :: c.tests[j] == TestPlan(tests[j].name, tests[j].shouldRun)
  }

  lemma AreMarkedParts(a: seq<TestInfo>, b: seq<TestInfo>, marks: seq<bool>)
    requires AreMarked(a + b, marks)
    ensures AreMarked(a, marks[..|a|]) && AreMarked(b, marks[|a|..])
  {
    assert forall m | 0 <= m < |a| :: (a + b)[m] == a[m];
    assert forall m | 0 <= m < |b| :: (a + b)[|a| + m] == b[m];
  }

  lemma CaseReflected(c: CasePlan, name: string, tests: seq<TestInfo>, marks: seq<bool>)
    requires Reflects(c, name, tests) && AreMarked(tests, marks)
    ensures TestMarks(c.tests) == marks
    ensures TestNames(c.name, c.tests) == ListedTests(name, tests)
  {
  }

  lemma Rejoined(marks: seq<bool>, k: nat)
    requires k <= |marks|
    ensures marks == marks[..k] + marks[k..]
  {
  }

  lemma {:induction false} MarksReflected(registered: seq<CasePlan>, l: Listing, marks: seq<bool>)
    requires |registered| == |l| && forall k | 0 <= k < |l| :: Reflects(registered[k], l[k].0, l[k].1)
    requires AreMarked(AllTests(l), marks)
    ensures AllMarks(registered) == marks && AllNames(registered) == ListedNames(l)
    decreases |l|
  {
    if l != [] {
      var n := |l| - 1;
      var front := AllTests(l[..n]);
      AreMarkedParts(front, l[n].1, marks);
      MarksReflected(registered[..n], l[..n], marks[..|front|]);
      CaseReflected(registered[n], l[n].0, l[n].1, marks[|front|..]);
      Rejoined(marks, |front|);
    }
  }

  lemma RegisteredOf(impl: UnitTestImpl) returns (registered: seq<CasePlan>)
    ensures AreRegistered(impl, registered)
  {
    registered := [];
    for k := 0 to |impl.testCases|
      invariant |registered| == k && forall i | 0 <= i < k :: IsRegistered(impl.testCases[i], registered[i])
    {
      var c := impl.testCases[k];
      var tests := seq(|c.tests|, j requires 0 <= j < |c.tests| reads c, c.tests =>
                                    TestPlan(c.tests[j].name, c.tests[j].shouldRun));
      registered := registered + [CasePlan(c.name, c.shouldRun, tests)];
    }
  }

  /** What the registry holds after the selection. */
  lemma TakenDown(impl: UnitTestImpl, l: Listing, marks: seq<bool>) returns (registered: seq<CasePlan>)
    requires IsListing(l, impl.testCases) && AreMarked(AllTests(l), marks)
    requires forall k | 0 <= k < |l| :: impl.testCases[k].shouldRun <==> AnyMarked(l[k].1)
    ensures AreRegistered(impl, registered)
    ensures AllMarks(registered) == marks && AllNames(registered) == ListedNames(l)
    ensures forall k | 0 <= k < |registered| :: RunsIfMarked(registered[k])
  {
    registered := RegisteredOf(impl);
    forall k | 0 <= k < |l| ensures Reflects(registered[k], l[k].0, l[k].1) && RunsIfMarked(registered[k]) {
      assert IsRegistered(impl.testCases[k], registered[k]);
    }
    MarksReflected(registered, l, marks);
  }

  /** Marks the tests, and takes down what the registry then holds; the orders stay. */
  method Select(impl: UnitTestImpl, o: Options, s: Shard, ghost l: Listing, ghost marks: seq<bool>,
                ghost tests: seq<seq<int>>)
    returns (selected: nat, ghost registered: seq<CasePlan>)
    requires marks == Selection(OnShard(s), 0, AllRunnable(RunnableWith(o), l)) && HaveOrders(impl.testCases, tests)
    requires impl.Valid() && IsListing(l, impl.testCases) && TestsOnce(impl.testCases)
    modifies impl.testCases`shouldRun, AllTests(l)`shouldRun, AllTests(l)`isDisabled, AllTests(l)`matchesFilter
    ensures impl.Valid() && AreRegistered(impl, registered) && HaveOrders(impl.testCases, tests)
    ensures AllMarks(registered) == marks
    ensures AllNames(registered) == ListedNames(l) && selected == CountTrue(AllMarks(registered))
    ensures forall k | 0 <= k < |registered| :: RunsIfMarked(registered[k])
  {
    CasesDistinct(impl);
    selected, registered := MarkAndTakeDown(impl, o, s, l);
    RegistryKept(impl);
  }

  method MarkAndTakeDown(impl: UnitTestImpl, o: Options, s: Shard, ghost l: Listing)
    returns (selected: nat, ghost registered: seq<CasePlan>)
    requires Distinct(impl.testCases) && IsListing(l, impl.testCases) && TestsOnce(impl.testCases)
    modifies impl.testCases`shouldRun, AllTests(l)`shouldRun, AllTests(l)`isDisabled, AllTests(l)`matchesFilter
    ensures AreRegistered(impl, registered)
    ensures AllMarks(registered) == Selection(OnShard(s), 0, AllRunnable(RunnableWith(o), l))
    ensures AllNames(registered) == ListedNames(l) && selected == CountTrue(AllMarks(registered))
    ensures forall k | 0 <= k < |registered| :: RunsIfMarked(registered[k])
  {
    selected := FilterTests(o, s, impl.testCases, l);
    registered := TakenDown(impl, l, Selection(OnShard(s), 0, AllRunnable(RunnableWith(o), l)));
  }

  /** The marks are no part of what makes a registry valid. */
  twostate lemma RegistryKept(impl: UnitTestImpl)
    requires old(impl.Valid())
    requires impl.testCases == old(impl.testCases) && impl.testCaseIndices == old(impl.testCaseIndices)
    requires impl.lastDeathTestCase == old(impl.lastDeathTestCase)
    requires SameTests(impl.testCases)
    ensures impl.Valid()
  {
    forall c | c in impl.testCases ensures c.Valid() {
      assert old(c.Valid());
    }
  }

  /** Every iteration of a run starts the marked tests, each of them once. */
  ghost predicate StartsChosen(runs: seq<Run>, names: seq<Scope>, marks: seq<bool>) {
    |names| == |marks| &&
    forall k | 0 <= k < |runs| ::
      Started(IterationEvents(k, CountTrue(marks) > 0, runs[k].fatal, runs[k].plans))
      == if runs[k].fatal then multiset{} else Chosen(names, marks)
  }

  lemma RunsStartChosen(registered: seq<CasePlan>, lastDeathTestCase: int, runs: seq<Run>)
    requires forall k | 0 <= k < |runs| :: RunsEachOnce(registered, lastDeathTestCase, runs[k])
    requires forall k | 0 <= k < |registered| :: RunsIfMarked(registered[k])
    ensures StartsChosen(runs, AllNames(registered), AllMarks(registered))
  {
    forall k | 0 <= k < |runs|
      ensures Started(IterationEvents(k, CountTrue(AllMarks(registered)) > 0, runs[k].fatal, runs[k].plans))
           == if runs[k].fatal then multiset{} else Chosen(AllNames(registered), AllMarks(registered))
    {
      IterationStartsChosen(registered, lastDeathTestCase, runs[k], k);
    }
  }

  /** Runs what the registry holds. */
  method RunMarked(impl: UnitTestImpl, r: Repeater, leavesEarly: bool, repeat: nat, hasTests: bool, shuffle: bool,
                   firstSeed: nat, ghost registered: seq<CasePlan>, ghost d: Draw, ghost order: seq<int>,
                   ghost tests: seq<seq<int>>)
    returns (ghost runs: seq<Run>)
    requires impl.Valid() && AreRegistered(impl, registered) && At(r, []) && r.events == []
    requires forall k | 0 <= k < |registered| :: RunsIfMarked(registered[k])
    requires hasTests == (CountTrue(AllMarks(registered)) > 0) && IsFor(d, hasTests && shuffle, impl.lastDeathTestCase)
    requires impl.testCaseIndices == order && HaveOrders(impl.testCases, tests)
    modifies r`trace, r`events, impl`testCaseIndices, impl.testCases`testIndices, impl.random`state
    ensures Bracketed(r.listeners, r.trace) == Some(Brackets([], false))
    ensures !leavesEarly ==>
              && Quiet(r.events) == [Start(Program)] + AllIterations(hasTests, runs) + [End(Program)]
              && |runs| == repeat && StartsChosen(runs, AllNames(registered), AllMarks(registered))
              && HaveRun(registered, d, shuffle, firstSeed, order, tests, runs)
  {
    runs := RunAllTests(impl, r, leavesEarly, repeat, hasTests, shuffle, firstSeed, registered, d, order, tests);
    if !leavesEarly {
      RunsStartChosen(registered, impl.lastDeathTestCase, runs);
    }
  }

  /** The tests are filtered, then run. Whatever the listeners, the user code and the shuffling: the trace is
      well-bracketed, and every iteration starts exactly the tests of the shard's selection, each of them
      once, in the orders drawn for its seed. */
  method RunSelected(impl: UnitTestImpl, r: Repeater, o: Options, s: Shard, leavesEarly: bool, repeat: nat,
                     shuffle: bool, firstSeed: nat, ghost l: Listing, ghost marks: seq<bool>, ghost d: Draw,
                     ghost order: seq<int>, ghost tests: seq<seq<int>>)
    returns (ghost runs: seq<Run>, ghost registered: seq<CasePlan>)
    requires impl.Valid() && IsListing(l, impl.testCases) && TestsOnce(impl.testCases)
    requires At(r, []) && r.events == []
    requires marks == Selection(OnShard(s), 0, AllRunnable(RunnableWith(o), l))
    requires impl.testCaseIndices == order && HaveOrders(impl.testCases, tests)
    requires IsFor(d, CountTrue(marks) > 0 && shuffle, impl.lastDeathTestCase)
    modifies r`trace, r`events, impl`testCaseIndices, impl.testCases`testIndices, impl.random`state,
             impl.testCases`shouldRun, AllTests(l)`shouldRun, AllTests(l)`isDisabled, AllTests(l)`matchesFilter
    ensures Bracketed(r.listeners, r.trace) == Some(Brackets([], false))
    ensures AllMarks(registered) == marks && AllNames(registered) == ListedNames(l)
    ensures !leavesEarly ==>
              && Quiet(r.events) == [Start(Program)] + AllIterations(CountTrue(marks) > 0, runs) + [End(Program)]
              && |runs| == repeat && StartsChosen(runs, ListedNames(l), marks)
              && HaveRun(registered, d, shuffle, firstSeed, order, tests, runs)
  {
    var selected;
    selected, registered := Select(impl, o, s, l, marks, tests);
    runs := RunMarked(impl, r, leavesEarly, repeat, selected > 0, shuffle, firstSeed, registered, d, order, tests);
  }
}
