/** Which tests are run: the filter, the disabled ones, and the shard. */
module TestSelection {
  import opened Division
  import opened Orders
  import opened TestFilter
  import opened TestRegistry

  const DISABLE_TEST_FILTER := "DISABLED_*:*/DISABLED_*"

  datatype Options = Options(filter: string, alsoRunDisabled: bool)

  /** The sharding protocol: how many shards there are, and which one this is. */
  datatype Sharding = Ignore | Honor(total: nat, index: nat)

  ghost predicate IsDisabled(caseName: string, name: string) {
    ListMatches(DISABLE_TEST_FILTER, caseName) || ListMatches(DISABLE_TEST_FILTER, name)
  }

  /** What marks a name as disabled: it begins with `DISABLED_`, or does so behind a slash. */
  ghost predicate HasDisabledMark(name: string) {
    "DISABLED_" <= name || exists k | 0 <= k <= |name| :: "/DISABLED_" <= name[k..]
  }

  lemma DisabledListed(name: string)
    ensures ListMatches(DISABLE_TEST_FILTER, name) <==> HasDisabledMark(name)
  {
    assert DISABLE_TEST_FILTER == "DISABLED_" + "*" + ":" + ("*" + ("/DISABLED_" + "*"));
    BeginsOrHolds(DISABLE_TEST_FILTER, "DISABLED_", "/DISABLED_", name);
  }

  /** A test is disabled by its own name or by that of its test case. */
  lemma DisabledNames(caseName: string, name: string)
    ensures IsDisabled(caseName, name) <==> HasDisabledMark(caseName) || HasDisabledMark(name)
  {
    DisabledListed(caseName);
    DisabledListed(name);
  }

  /** Which tests are runnable, in terms of names and the filter: the flag admits disabled tests, and admits no
      test that the filter does not select. */
  lemma RunnableNames(o: Options, caseName: string, name: string)
    ensures IsRunnable(o, caseName, name) <==>
              && Selects(o.filter, caseName + "." + name)
              && (HasDisabledMark(caseName) || HasDisabledMark(name) ==> o.alsoRunDisabled)
  {
    DisabledNames(caseName, name);
  }

  /** The test is run on some shard. */
  ghost predicate IsRunnable(o: Options, caseName: string, name: string) {
    (o.alsoRunDisabled || !IsDisabled(caseName, name)) && Selects(o.filter, caseName + "." + name)
  }

  predicate ShouldRunTestOnShard(totalShards: nat, shardIndex: nat, testId: nat)
    requires totalShards > 0
  {
    testId % totalShards == shardIndex
  }

  /** The process is stopped earlier on an index that is not below the number of shards. */
  type Shard = s: Sharding | s.Honor? ==> s.index < s.total witness Ignore

  /** The numbers of the runnable tests that belong to the shard. */
  function OnShard(s: Shard): nat -> bool {
    match s
    case Ignore => (n: nat) => true
    case Honor(total, index) => (n: nat) => ShouldRunTestOnShard(total, index, n)
  }

  // ---------------------------------------------------------------- the selection among the runnable tests

  function CountTrue(flags: seq<bool>): nat {
    if flags == [] then 0 else CountTrue(flags[..|flags| - 1]) + if flags[|flags| - 1] then 1 else 0
  }

  /** Given which tests are runnable, those that are selected: runnable tests are numbered in order, from
      `start`, and those whose number is on the shard are selected. */
  function Selection(onShard: nat -> bool, start: nat, flags: seq<bool>): (r: seq<bool>)
    ensures |r| == |flags|
  {
    if flags == [] then []
    else
      var n := |flags| - 1;
      Selection(onShard, start, flags[..n]) + [flags[n] && onShard(start + CountTrue(flags[..n]))]
  }

  lemma {:induction false} SelectionAt(onShard: nat -> bool, flags: seq<bool>, m: nat, id: nat)
    requires m < |flags| && id == CountTrue(flags[..m])
    ensures Selection(onShard, 0, flags)[m] <==> flags[m] && onShard(id)
  {
    var n := |flags| - 1;
    if m < n {
      assert flags[..n][..m] == flags[..m];
      SelectionAt(onShard, flags[..n], m, id);
    }
  }

  lemma {:induction false} SelectionOfConcat(onShard: nat -> bool, start: nat, a: seq<bool>, b: seq<bool>)
    ensures CountTrue(a + b) == CountTrue(a) + CountTrue(b)
    ensures Selection(onShard, start, a + b)
         == Selection(onShard, start, a) + Selection(onShard, start + CountTrue(a), b)
  {
    if b == [] {
      assert a + b == a;
    } else {
      var n := |b| - 1;
      SelectionOfConcat(onShard, start, a, b[..n]);
      assert (a + b)[..|a + b| - 1] == a + b[..n];
    }
  }

  lemma CountStep(flags: seq<bool>, flag: bool)
    ensures CountTrue(flags + [flag]) == CountTrue(flags) + if flag then 1 else 0
  {
    var next := flags + [flag];
    assert next[..|next| - 1] == flags;
  }

  lemma SelectionStep(onShard: nat -> bool, start: nat, flags: seq<bool>, id: nat, flag: bool, mark: bool)
    requires id == start + CountTrue(flags) && mark == (flag && onShard(id))
    ensures Selection(onShard, start, flags + [flag]) == Selection(onShard, start, flags) + [mark]
  {
    var next := flags + [flag];
    assert next[..|next| - 1] == flags;
  }

  /** Without sharding, the selected tests are exactly the runnable ones. */
  lemma {:induction false} UnshardedSelectsAll(start: nat, flags: seq<bool>)
    ensures Selection(OnShard(Ignore), start, flags) == flags
  {
    if flags != [] {
      UnshardedSelectsAll(start, flags[..|flags| - 1]);
    }
  }

  function ShardSize(total: nat, index: nat, flags: seq<bool>): nat
    requires index < total
  {
    CountTrue(Selection(OnShard(Honor(total, index)), 0, flags))
  }

  lemma OnItsShard(total: nat, k: nat, flags: seq<bool>, m: nat)
    requires k < total && m < |flags|
    ensures Selection(OnShard(Honor(total, k)), 0, flags)[m] <==> flags[m] && CountTrue(flags[..m]) % total == k
  {
    SelectionAt(OnShard(Honor(total, k)), flags, m, CountTrue(flags[..m]));
  }

  /** A runnable test is selected on exactly one shard, any other on none. */
  lemma {:induction false} OnOneShard(total: nat, flags: seq<bool>, m: nat)
    requires total > 0 && m < |flags|
    ensures (set k | 0 <= k < total && Selection(OnShard(Honor(total, k)), 0, flags)[m])
         == if flags[m] then {CountTrue(flags[..m]) % total} else {}
  {
    forall k | 0 <= k < total
      ensures Selection(OnShard(Honor(total, k)), 0, flags)[m] <==> flags[m] && CountTrue(flags[..m]) % total == k
    {
      OnItsShard(total, k, flags, m);
    }
  }

  lemma NextNumber(r: nat, total: nat, index: nat)
    requires index < total
    ensures (r + 1) / total + (if index < (r + 1) % total then 1 else 0)
         == r / total + (if index < r % total then 1 else 0) + (if r % total == index then 1 else 0)
  {
    var q, m := r / total, r % total;
    if m + 1 < total {
      assert r + 1 == total * q + (m + 1);
      DivisionUnique(r + 1, total, q, m + 1);
    } else {
      assert r + 1 == total * (q + 1) + 0;
      DivisionUnique(r + 1, total, q + 1, 0);
    }
  }

  /** The runnable tests are dealt evenly: the first shards get the ones left over. */
  lemma {:induction false} ShardSizeIs(total: nat, index: nat, flags: seq<bool>)
    requires index < total
    ensures ShardSize(total, index, flags)
         == CountTrue(flags) / total + if index < CountTrue(flags) % total then 1 else 0
  {
    if flags != [] {
      var n := |flags| - 1;
      ShardSizeIs(total, index, flags[..n]);
      NextNumber(CountTrue(flags[..n]), total, index);
      var onShard := OnShard(Honor(total, index));
      assert Selection(onShard, 0, flags)[..n] == Selection(onShard, 0, flags[..n]);
    }
  }

  lemma ShardsBalanced(total: nat, k: nat, l: nat, flags: seq<bool>)
    requires k < total && l < total
    ensures ShardSize(total, k, flags) <= ShardSize(total, l, flags) + 1
  {
    ShardSizeIs(total, k, flags);
    ShardSizeIs(total, l, flags);
  }

  function FirstShards(total: nat, n: nat, flags: seq<bool>): nat
    requires n <= total
  {
    if n == 0 then 0 else FirstShards(total, n - 1, flags) + ShardSize(total, n - 1, flags)
  }

  lemma {:induction false} FirstShardsAre(total: nat, n: nat, flags: seq<bool>, quotient: nat, rest: nat)
    requires n <= total && total > 0
    requires quotient == CountTrue(flags) / total && rest == CountTrue(flags) % total
    ensures FirstShards(total, n, flags) == n * quotient + if n < rest then n else rest
  {
    if n > 0 {
      FirstShardsAre(total, n - 1, flags, quotient, rest);
      ShardSizeIs(total, n - 1, flags);
      assert n * quotient == (n - 1) * quotient + quotient;
    }
  }

  /** Together the shards run every runnable test. */
  lemma ShardsCoverAll(total: nat, flags: seq<bool>)
    requires total > 0
    ensures FirstShards(total, total, flags) == CountTrue(flags)
  {
    var r := CountTrue(flags);
    FirstShardsAre(total, total, flags, r / total, r % total);
  }

  // ---------------------------------------------------------------- FilterTests

  /** The test cases with their tests. */
  type Listing = seq<(string, seq<TestInfo>)>

  ghost predicate IsListing(l: Listing, cases: seq<TestCase>)
    reads cases`tests
  {
    |l| == |cases| && forall k | 0 <= k < |l| :: l[k] == (cases[k].name, cases[k].tests)
  }

  /** `runs` tells, for the names of a test case and a test, whether the test is runnable. */
  ghost predicate Tells(runs: (string, string) -> bool, o: Options) {
    forall c, n {:trigger IsRunnable(o, c, n)} :: runs(c, n) == IsRunnable(o, c, n)
  }

  ghost function RunnableWith(o: Options): (runs: (string, string) -> bool)
    ensures Tells(runs, o)
  {
    (c: string, n: string) => IsRunnable(o, c, n)
  }

  /** Which tests of a test case are runnable. */
  ghost function Runnable(runs: (string, string) -> bool, caseName: string, tests: seq<TestInfo>): (r: seq<bool>)
    ensures |r| == |tests|
  {
    if tests == [] then []
    else
      var n := |tests| - 1;
      Runnable(runs, caseName, tests[..n]) + [runs(caseName, tests[n].name)]
  }

  ghost function AllRunnable(runs: (string, string) -> bool, l: Listing): (r: seq<bool>)
    ensures |r| == |AllTests(l)|
  {
    if l == [] then []
    else
      var n := |l| - 1;
      AllRunnable(runs, l[..n]) + Runnable(runs, l[n].0, l[n].1)
  }

  ghost function AllTests(l: Listing): (r: seq<TestInfo>)
    ensures forall m | 0 <= m < |r| :: exists k :: 0 <= k < |l| && r[m] in l[k].1
  {
    if l == [] then []
    else
      var n := |l| - 1;
      assert forall k | 0 <= k < n :: l[..n][k] == l[k];
      AllTests(l[..n]) + l[n].1
  }

  /** The tests are marked to be run as `marks` says. */
  ghost predicate AreMarked(tests: seq<TestInfo>, marks: seq<bool>)
    reads tests`shouldRun
  {
    |marks| == |tests| && forall m | 0 <= m < |tests| :: tests[m].shouldRun == marks[m]
  }

  method Classify(o: Options, ghost runs: (string, string) -> bool, caseName: string, info: TestInfo)
    returns (isRunnable: bool)
    requires Tells(runs, o)
    modifies info`isDisabled, info`matchesFilter
    ensures isRunnable == runs(caseName, info.name)
    ensures info.isDisabled == IsDisabled(caseName, info.name)
    ensures info.matchesFilter == Selects(o.filter, caseName + "." + info.name)
  {
    var caseDisabled := MatchesFilter(caseName, DISABLE_TEST_FILTER);
    var testDisabled := MatchesFilter(info.name, DISABLE_TEST_FILTER);
    info.isDisabled := caseDisabled || testDisabled;
    info.matchesFilter := FilterMatchesTest(caseName, info.name, o.filter);
    isRunnable := (o.alsoRunDisabled || !info.isDisabled) && info.matchesFilter;
    assert isRunnable == IsRunnable(o, caseName, info.name);
  }

  method MarkTest(c: TestCase, tests: seq<TestInfo>, j: nat, isSelected: bool, ghost marks: seq<bool>)
    requires j < |tests| && forall k | 0 <= k < j :: tests[k] != tests[j]
    requires AreMarked(tests[..j], marks) && (c.shouldRun <==> true in marks)
    modifies c`shouldRun, {tests[j]}`shouldRun
    ensures AreMarked(tests[..j + 1], marks + [isSelected]) && (c.shouldRun <==> true in marks + [isSelected])
  {
    tests[j].shouldRun := isSelected;
    c.shouldRun := c.shouldRun || isSelected;
    forall k | 0 <= k < j ensures tests[k].shouldRun == marks[k] {
      assert tests[..j][k] == tests[k];
    }
  }

  /** One test: its number is `runnable` if it is runnable. */
  method FilterTest(o: Options, ghost runs: (string, string) -> bool, onShard: nat -> bool, c: TestCase,
                    tests: seq<TestInfo>, j: nat, runnable: nat, ghost marks: seq<bool>)
    returns (isRunnable: bool, isSelected: bool)
    requires Tells(runs, o) && j < |tests| && forall k | 0 <= k < j :: tests[k] != tests[j]
    requires AreMarked(tests[..j], marks) && (c.shouldRun <==> true in marks)
    modifies c`shouldRun, {tests[j]}`shouldRun, {tests[j]}`isDisabled, {tests[j]}`matchesFilter
    ensures isRunnable == runs(c.name, tests[j].name) && isSelected == (isRunnable && onShard(runnable))
    ensures AreMarked(tests[..j + 1], marks + [isSelected]) && (c.shouldRun <==> true in marks + [isSelected])
  {
    isRunnable := Classify(o, runs, c.name, tests[j]);
    isSelected := isRunnable && onShard(runnable);
    MarkTest(c, tests, j, isSelected, marks);
  }

  /** The counts when `flags` says which tests were runnable and `marks` which were selected. */
  ghost predicate Tally(onShard: nat -> bool, runnableBefore: nat, selectedBefore: nat, flags: seq<bool>,
                        marks: seq<bool>, runnable: nat, selected: nat)
  {
    && marks == Selection(onShard, runnableBefore, flags)
    && runnable == runnableBefore + CountTrue(flags) && selected == selectedBefore + CountTrue(marks)
  }

  lemma TallyStep(onShard: nat -> bool, runnableBefore: nat, selectedBefore: nat, flags: seq<bool>, marks: seq<bool>,
                  runnable: nat, selected: nat, flag: bool, mark: bool)
    requires Tally(onShard, runnableBefore, selectedBefore, flags, marks, runnable, selected)
    requires mark == (flag && onShard(runnable))
    ensures Tally(onShard, runnableBefore, selectedBefore, flags + [flag], marks + [mark],
                  runnable + (if flag then 1 else 0), selected + if mark then 1 else 0)
  {
    SelectionStep(onShard, runnableBefore, flags, runnable, flag, mark);
    CountStep(flags, flag);
    CountStep(marks, mark);
  }

  /** One test case: `runnableBefore` tests of those before it are runnable, and `selectedBefore` selected. */
  method FilterCase(o: Options, ghost runs: (string, string) -> bool, onShard: nat -> bool, c: TestCase,
                    tests: seq<TestInfo>, runnableBefore: nat, selectedBefore: nat)
    returns (runnable: nat, selected: nat, ghost marks: seq<bool>)
    requires Tells(runs, o) && forall i, j | 0 <= i < j < |tests| :: tests[i] != tests[j]
    modifies c`shouldRun, tests`shouldRun, tests`isDisabled, tests`matchesFilter
    ensures AreMarked(tests, marks) && (c.shouldRun <==> true in marks)
    ensures Tally(onShard, runnableBefore, selectedBefore, Runnable(runs, c.name, tests), marks, runnable, selected)
  {
    runnable, selected := runnableBefore, selectedBefore;
    c.shouldRun := false;
    var j := 0;
    marks := [];
    ghost var flags: seq<bool> := [];
    while j < |tests|
      invariant 0 <= j <= |tests| && flags == Runnable(runs, c.name, tests[..j])
      invariant AreMarked(tests[..j], marks) && (c.shouldRun <==> true in marks)
      invariant Tally(onShard, runnableBefore, selectedBefore, flags, marks, runnable, selected)
    {
      var isRunnable, isSelected := FilterTest(o, runs, onShard, c, tests, j, runnable, marks);
      RunnableStep(runs, c.name, tests, j);
      TallyStep(onShard, runnableBefore, selectedBefore, flags, marks, runnable, selected, isRunnable, isSelected);
      flags, marks := flags + [isRunnable], marks + [isSelected];
      runnable := runnable + if isRunnable then 1 else 0;
      selected := selected + if isSelected then 1 else 0;
      j := j + 1;
    }
    assert tests[..j] == tests;
  }

  lemma RunnableStep(runs: (string, string) -> bool, caseName: string, tests: seq<TestInfo>, j: nat)
    requires j < |tests|
    ensures Runnable(runs, caseName, tests[..j + 1])
         == Runnable(runs, caseName, tests[..j]) + [runs(caseName, tests[j].name)]
  {
    assert tests[..j + 1][..j] == tests[..j];
  }

  ghost predicate Within(l: Listing, all: set<TestInfo>) {
    forall k, j | 0 <= k < |l| && 0 <= j < |l[k].1| :: l[k].1[j] in all
  }

  /** Every test belongs to one test case, and is in it once. */
  ghost predicate EachOnce(l: Listing) {
    && (forall i, j, k | 0 <= i < |l| && 0 <= j < k < |l[i].1| :: l[i].1[j] != l[i].1[k])
    && (forall i, j, k, m | 0 <= i < k < |l| && 0 <= j < |l[i].1| && 0 <= m < |l[k].1| :: l[i].1[j] != l[k].1[m])
  }

  twostate predicate SameTests(cases: seq<TestCase>)
    reads cases`tests, cases`testIndices
  {
    forall c | c in cases :: c.tests == old(c.tests) && c.testIndices == old(c.testIndices)
  }

  lemma EachOnceIs(l: Listing, cases: seq<TestCase>)
    requires IsListing(l, cases) && TestsOnce(cases)
    ensures EachOnce(l)
  {
    forall i, j, k, m | 0 <= i < k < |l| && 0 <= j < |l[i].1| && 0 <= m < |l[k].1| ensures l[i].1[j] != l[k].1[m] {
      assert Apart(cases[i].tests, cases[k].tests) && l[i].1[j] in cases[i].tests && l[k].1[m] in cases[k].tests;
    }
    forall i, j, k | 0 <= i < |l| && 0 <= j < k < |l[i].1| ensures l[i].1[j] != l[i].1[k] {
      assert Distinct(cases[i].tests);
    }
  }

  /** Marks the tests to run, and the test cases that have one; returns how many tests are to be run. */
  method FilterTests(o: Options, s: Shard, cases: seq<TestCase>, ghost l: Listing) returns (selected: nat)
    requires IsListing(l, cases) && TestsOnce(cases) && Distinct(cases)
    modifies cases`shouldRun, AllTests(l)`shouldRun, AllTests(l)`isDisabled, AllTests(l)`matchesFilter
    ensures var selection := Selection(OnShard(s), 0, AllRunnable(RunnableWith(o), l));
            && AreMarked(AllTests(l), selection) && selected == CountTrue(selection)
            && (s.Ignore? ==> selection == AllRunnable(RunnableWith(o), l))
    ensures forall k | 0 <= k < |l| :: cases[k].shouldRun <==> AnyMarked(l[k].1)
  {
    EachOnceIs(l, cases);
    TestsListed(l);
    ghost var marks;
    selected, marks := FilterCases(o, RunnableWith(o), OnShard(s), cases, l, set t | t in AllTests(l));
    MarksAgree(cases, l, marks);
    if s.Ignore? { UnshardedSelectsAll(0, AllRunnable(RunnableWith(o), l)); }
  }

  ghost predicate AnyMarked(tests: seq<TestInfo>)
    reads tests`shouldRun
  {
    exists j :: 0 <= j < |tests| && tests[j].shouldRun
  }

  lemma AnyMarkedIs(tests: seq<TestInfo>, marks: seq<bool>)
    requires AreMarked(tests, marks)
    ensures AnyMarked(tests) <==> true in marks
  {
    if true in marks {
      var j :| 0 <= j < |marks| && marks[j];
      assert tests[j].shouldRun;
    }
  }

  /** The test cases so far are marked as `marks` says. */
  ghost predicate CasesMarked(cases: seq<TestCase>, l: Listing, marks: seq<seq<bool>>)
    reads cases`shouldRun, set i, j | 0 <= i < |l| && 0 <= j < |l[i].1| :: l[i].1[j]
  {
    && |marks| <= |l| == |cases|
    && (forall k | 0 <= k < |marks| :: AreMarked(l[k].1, marks[k]))
    && (forall k | 0 <= k < |marks| :: cases[k].shouldRun <==> true in marks[k])
  }

  method FilterNext(o: Options, ghost runs: (string, string) -> bool, ghost cases: seq<TestCase>,
                    onShard: nat -> bool, c: TestCase, ghost l: Listing, ghost all: set<TestInfo>,
                    ghost i: nat, runnableBefore: nat, selectedBefore: nat, ghost marks: seq<seq<bool>>)
    returns (runnable: nat, selected: nat, ghost m: seq<bool>)
    requires Tells(runs, o) && EachOnce(l) && Distinct(cases) && IsListing(l, cases)
    requires |marks| == i < |cases| && c == cases[i] && CasesMarked(cases, l, marks)
    requires Within(l, all)
    modifies cases`shouldRun, all`shouldRun, all`isDisabled, all`matchesFilter
    ensures IsListing(l, cases) && CasesMarked(cases, l, marks + [m])
    ensures Tally(onShard, runnableBefore, selectedBefore, Runnable(runs, l[i].0, l[i].1), m, runnable, selected)
  {
    runnable, selected, m := FilterCase(o, runs, onShard, c, c.tests, runnableBefore, selectedBefore);
    forall k | 0 <= k < i ensures AreMarked(l[k].1, marks[k]) {
      forall j | 0 <= j < |l[k].1| ensures l[k].1[j].shouldRun == marks[k][j] {
      }
    }
    forall k | 0 <= k < i ensures cases[k].shouldRun == old(cases[k].shouldRun) {
      assert cases[k] != cases[i];
    }
    CasesMarkedNext(cases, l, marks, m);
  }

  lemma CasesMarkedNext(cases: seq<TestCase>, l: Listing, marks: seq<seq<bool>>, m: seq<bool>)
    requires |marks| < |l| == |cases|
    requires forall k | 0 <= k < |marks| :: AreMarked(l[k].1, marks[k]) && (cases[k].shouldRun <==> true in marks[k])
    requires AreMarked(l[|marks|].1, m) && (cases[|marks|].shouldRun <==> true in m)
    ensures CasesMarked(cases, l, marks + [m])
  {
  }

  method FilterTurn(o: Options, ghost runs: (string, string) -> bool, ghost cases: seq<TestCase>,
                    onShard: nat -> bool, c: TestCase, ghost l: Listing, ghost all: set<TestInfo>,
                    ghost i: nat, runnableBefore: nat, selectedBefore: nat, ghost marks: seq<seq<bool>>)
    returns (runnable: nat, selected: nat, ghost after: seq<seq<bool>>)
    requires Tells(runs, o) && EachOnce(l) && Distinct(cases) && IsListing(l, cases)
    requires |marks| == i < |cases| && c == cases[i] && CasesMarked(cases, l, marks)
    requires Within(l, all)
    requires Tally(onShard, 0, 0, AllRunnable(runs, l[..i]), Concat(marks), runnableBefore, selectedBefore)
    modifies cases`shouldRun, all`shouldRun, all`isDisabled, all`matchesFilter
    ensures |after| == i + 1 && CasesMarked(cases, l, after)
    ensures Tally(onShard, 0, 0, AllRunnable(runs, l[..i + 1]), Concat(after), runnable, selected)
  {
    ghost var m;
    runnable, selected, m := FilterNext(o, runs, cases, onShard, c, l, all, i, runnableBefore, selectedBefore, marks);
    after := marks + [m];
    TallyNext(runs, onShard, l, i, marks, runnableBefore, selectedBefore, m, runnable, selected);
  }

  method FilterCases(o: Options, ghost runs: (string, string) -> bool, onShard: nat -> bool, cases: seq<TestCase>,
                     ghost l: Listing, ghost all: set<TestInfo>)
    returns (selected: nat, ghost marks: seq<seq<bool>>)
    requires Tells(runs, o) && EachOnce(l) && Distinct(cases)
    requires IsListing(l, cases)
    requires Within(l, all)
    modifies cases`shouldRun, all`shouldRun, all`isDisabled, all`matchesFilter
    ensures |marks| == |l| && CasesMarked(cases, l, marks) && SameTests(cases)
    ensures Concat(marks) == Selection(onShard, 0, AllRunnable(runs, l)) && selected == CountTrue(Concat(marks))
  {
    marks := [];
    var runnable := 0;
    selected := 0;
    var i := 0;
    while i < |cases|
      invariant 0 <= i == |marks| <= |cases|
      invariant Tally(onShard, 0, 0, AllRunnable(runs, l[..i]), Concat(marks), runnable, selected)
      invariant CasesMarked(cases, l, marks)
    {
      runnable, selected, marks :=
        FilterTurn(o, runs, cases, onShard, cases[i], l, all, i, runnable, selected, marks);
      i := i + 1;
    }
    assert l[..i] == l;
  }

  lemma TallyNext(runs: (string, string) -> bool, onShard: nat -> bool, l: Listing, i: nat, marks: seq<seq<bool>>,
                  runnable: nat, selected: nat, m: seq<bool>, r: nat, t: nat)
    requires i < |l| && Tally(onShard, 0, 0, AllRunnable(runs, l[..i]), Concat(marks), runnable, selected)
    requires Tally(onShard, runnable, selected, Runnable(runs, l[i].0, l[i].1), m, r, t)
    ensures Tally(onShard, 0, 0, AllRunnable(runs, l[..i + 1]), Concat(marks + [m]), r, t)
  {
    TallyCase(onShard, AllRunnable(runs, l[..i]), Concat(marks), runnable, selected, Runnable(runs, l[i].0, l[i].1), m,
              r, t);
    AllRunnableStep(runs, l, i);
    ConcatStep(marks, m);
  }

  lemma TallyCase(onShard: nat -> bool, flags: seq<bool>, marks: seq<bool>, runnable: nat, selected: nat,
                  f: seq<bool>, m: seq<bool>, r: nat, t: nat)
    requires Tally(onShard, 0, 0, flags, marks, runnable, selected)
    requires Tally(onShard, runnable, selected, f, m, r, t)
    ensures Tally(onShard, 0, 0, flags + f, marks + m, r, t)
  {
    SelectionOfConcat(onShard, 0, flags, f);
    SelectionOfConcat(onShard, 0, marks, m);
  }

  ghost function Concat(marks: seq<seq<bool>>): seq<bool> {
    if marks == [] then [] else Concat(marks[..|marks| - 1]) + marks[|marks| - 1]
  }

  lemma ConcatStep(marks: seq<seq<bool>>, m: seq<bool>)
    ensures Concat(marks + [m]) == Concat(marks) + m
  {
    assert (marks + [m])[..|marks|] == marks;
  }

  lemma AllRunnableStep(runs: (string, string) -> bool, l: Listing, i: nat)
    requires i < |l|
    ensures AllRunnable(runs, l[..i + 1]) == AllRunnable(runs, l[..i]) + Runnable(runs, l[i].0, l[i].1)
  {
    assert l[..i + 1][..i] == l[..i];
  }

  lemma TestsWithin(l: Listing, i: nat)
    requires i < |l|
    ensures forall t | t in l[i].1 :: t in AllTests(l)
    decreases |l|
  {
    var n := |l| - 1;
    if i < n {
      TestsWithin(l[..n], i);
    }
  }

  lemma TestsListed(l: Listing)
    ensures Within(l, set t | t in AllTests(l))
  {
    forall k | 0 <= k < |l| ensures forall j | 0 <= j < |l[k].1| :: l[k].1[j] in AllTests(l) {
      TestsWithin(l, k);
    }
  }

  lemma AllAreMarked(l: Listing, marks: seq<seq<bool>>)
    requires |marks| == |l| && forall k | 0 <= k < |l| :: AreMarked(l[k].1, marks[k])
    ensures AreMarked(AllTests(l), Concat(marks))
    decreases |l|
  {
    if l != [] {
      AllAreMarked(l[..|l| - 1], marks[..|l| - 1]);
    }
  }

  lemma {:induction false} MarksAgree(cases: seq<TestCase>, l: Listing, marks: seq<seq<bool>>)
    requires |marks| == |l| && CasesMarked(cases, l, marks)
    ensures AreMarked(AllTests(l), Concat(marks))
    ensures forall k | 0 <= k < |l| :: cases[k].shouldRun <==> AnyMarked(l[k].1)
  {
    AllAreMarked(l, marks);
    forall k | 0 <= k < |l| ensures cases[k].shouldRun <==> AnyMarked(l[k].1) {
      AnyMarkedIs(l[k].1, marks[k]);
    }
  }
}
