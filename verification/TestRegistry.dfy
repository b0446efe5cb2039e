/** The registry of test cases: registration, which keeps death test cases first; shuffling and unshuffling
    through index vectors; and the selection of tests by filter and shard. */
module TestRegistry {
  import opened CStrings
  import opened Orders
  import opened Shuffling
  import opened TestFilter

  class Random {
    var state: nat

    constructor (seed: nat)
      ensures state == seed
    {
      state := seed;
    }

    method Generate(range: nat) returns (r: nat)
      requires 0 < range <= MAX_RANGE
      modifies this`state
      ensures state == NextState(old(state)) && r == Remainder(state, range)
    {
      RemainderIs(1103515245 * state + 12345, 0x1_0000_0000);
      RemainderIs((1103515245 * state + 12345) % 0x1_0000_0000, MAX_RANGE);
      state := (1103515245 * state + 12345) % 0x1_0000_0000 % MAX_RANGE;
      RemainderIs(state, range);
      return state % range;
    }
  }

  /** Fisher-Yates on the elements from `begin` up to `end`: they come in the order that the generator draws,
      and no other element moves. */
  method ShuffleRange<E(==)>(random: Random, begin: nat, end: nat, v: seq<E>) returns (r: seq<E>)
    requires begin <= end <= |v| <= MAX_RANGE
    modifies random`state
    ensures |r| == |v| && r[..begin] == v[..begin] && r[end..] == v[end..]
    ensures r[begin..end] == Shuffled(old(random.state), v[begin..end])
    ensures random.state == StateAfter(old(random.state), end - begin)
    ensures multiset(r[begin..end]) == multiset(v[begin..end]) && multiset(r) == multiset(v)
  {
    r := TakeTurns(random, begin, end - begin, v);
    RangeIsArranged(Draws(old(random.state), end - begin), v, begin, end, r);
  }

  /** The turns of the loop, one for each width of the range that is left. */
  method TakeTurns<E(==)>(random: Random, begin: nat, width: nat, v: seq<E>) returns (r: seq<E>)
    requires begin + width <= |v| <= MAX_RANGE
    modifies random`state
    ensures r == RangeArranged(Draws(old(random.state), width), v, begin, width)
    ensures random.state == StateAfter(old(random.state), width)
  {
    r := v;
    var rangeWidth := width;
    while rangeWidth >= 2
      invariant begin + rangeWidth <= |r| == |v|
      invariant RangeArranged(Draws(random.state, rangeWidth), r, begin, rangeWidth)
             == RangeArranged(Draws(old(random.state), width), v, begin, width)
      invariant StateAfter(random.state, rangeWidth) == StateAfter(old(random.state), width)
    {
      TurnTaken(random.state, begin, rangeWidth, r);
      var lastInRange := begin + rangeWidth - 1;
      var offset := random.Generate(rangeWidth);
      var selected := begin + offset;
      r := Swapped(r, selected, lastInRange);
      rangeWidth := rangeWidth - 1;
    }
  }

  method Shuffle<E(==)>(random: Random, v: seq<E>) returns (r: seq<E>)
    requires |v| <= MAX_RANGE
    modifies random`state
    ensures r == Shuffled(old(random.state), v)
    ensures random.state == StateAfter(old(random.state), |v|)
    ensures multiset(r) == multiset(v)
  {
    r := ShuffleRange(random, 0, |v|, v);
    assert r[0..|v|] == r && v[0..|v|] == v;
  }

  class TestInfo {
    const name: string
    var isDisabled: bool
    var matchesFilter: bool
    var shouldRun: bool

    constructor (name: string)
      ensures this.name == name && !isDisabled && !matchesFilter && !shouldRun
    {
      this.name := name;
      isDisabled, matchesFilter, shouldRun := false, false, false;
    }
  }

  class TestCase {
    const name: string
    var tests: seq<TestInfo>
    var testIndices: seq<int>
    var shouldRun: bool

    ghost predicate Valid()
      reads this`tests, this`testIndices
    {
      |testIndices| == |tests| <= MAX_RANGE && IsPermutation(testIndices)
    }

    ghost predicate Unshuffled()
      reads this
    {
      forall i | 0 <= i < |testIndices| :: testIndices[i] == i
    }

    constructor (name: string)
      ensures this.name == name && tests == [] && !shouldRun && Valid() && Unshuffled()
    {
      this.name, tests, testIndices, shouldRun := name, [], [], false;
      new;
      IdentityIsPermutation(testIndices);
    }

    method AddTestInfo(info: TestInfo)
      requires Valid() && |tests| < MAX_RANGE
      modifies this
      ensures Valid() && tests == old(tests) + [info] && testIndices == old(testIndices) + [|old(tests)|]
    {
      PermutationAppend(testIndices);
      tests := tests + [info];
      testIndices := testIndices + [|testIndices|];
    }

    method ShuffleTests(random: Random)
      requires Valid()
      modifies this`testIndices, random`state
      ensures Valid()
      ensures testIndices == Shuffled(old(random.state), old(testIndices))
      ensures random.state == StateAfter(old(random.state), |old(testIndices)|)
    {
      testIndices := Shuffle(random, testIndices);
    }

    method UnshuffleTests()
      requires Valid()
      modifies this`testIndices
      ensures Valid() && Unshuffled()
    {
      var i := 0;
      while i < |testIndices|
        invariant 0 <= i <= |testIndices| == old(|testIndices|)
        invariant forall k | 0 <= k < i :: testIndices[k] == k
      {
        testIndices := testIndices[i := i];
        i := i + 1;
      }
      IdentityIsPermutation(testIndices);
    }

    /** The test that is run in place `i`. */
    method GetMutableTestInfo(i: int) returns (info: TestInfo?)
      requires Valid()
      ensures if 0 <= i < |tests| then 0 <= testIndices[i] < |tests| && info == tests[testIndices[i]] else info == null
    {
      if i < 0 || i >= |testIndices| {
        return null;
      }
      PermutationRange(testIndices, i);
      return tests[testIndices[i]];
    }
  }

  // ---------------------------------------------------------------- the registry

  const DEATH_TEST_CASE_FILTER := "*DeathTest:*DeathTest/*"

  ghost predicate IsDeathTestCase(name: string) { ListMatches(DEATH_TEST_CASE_FILTER, name) }

  /** The names of death test cases end in `DeathTest`, or have `DeathTest/` in them. */
  lemma DeathTestNames(name: string)
    ensures IsDeathTestCase(name) <==>
              exists k | 0 <= k <= |name| :: name[k..] == "DeathTest" || "DeathTest/" <= name[k..]
  {
    assert DEATH_TEST_CASE_FILTER == "*" + "DeathTest" + ":" + ("*" + ("DeathTest/" + "*"));
    EndsOrHolds(DEATH_TEST_CASE_FILTER, "DeathTest", "DeathTest/", name);
  }

  /** The first `deaths` indices are those of the death test cases. */
  ghost predicate DeathTestsFirst(indices: seq<int>, deaths: nat)
    requires deaths <= |indices|
  {
    IsPermutation(indices[..deaths])
  }

  ghost function Inserted<T>(s: seq<T>, k: nat, x: T): (r: seq<T>)
    requires k <= |s|
    ensures |r| == |s| + 1 && forall i | 0 <= i < |r| :: r[i] == if i < k then s[i] else if i == k then x else s[i - 1]
  {
    s[..k] + [x] + s[k..]
  }

  /** The death test cases are the first `deaths`, and no two test cases have the same name. */
  ghost predicate NamesOk(cases: seq<TestCase>, deaths: nat) {
    && deaths <= |cases|
    && (forall i {:trigger IsDeathTestCase(cases[i].name)} | 0 <= i < |cases| ::
          i < deaths <==> IsDeathTestCase(cases[i].name))
    && (forall i, j | 0 <= i < j < |cases| :: HaveTwoNames(cases[i], cases[j]))
  }

  ghost predicate HaveTwoNames(c: TestCase, d: TestCase) { c.name != d.name }

  /** The test cases with a new one in its place. */
  ghost function WithNew(cases: seq<TestCase>, deaths: nat, c: TestCase): seq<TestCase>
    requires deaths <= |cases|
  {
    Inserted(cases, if IsDeathTestCase(c.name) then deaths else |cases|, c)
  }

  lemma InsertedNamesOk(cases: seq<TestCase>, deaths: nat, c: TestCase)
    requires NamesOk(cases, deaths) && forall i | 0 <= i < |cases| :: cases[i].name != c.name
    ensures var death := IsDeathTestCase(c.name);
            NamesOk(WithNew(cases, deaths, c), if death then deaths + 1 else deaths)
  {
  }

  lemma InsertedValid(cases: seq<TestCase>, deaths: nat, c: TestCase)
    requires deaths <= |cases| && c.Valid() && forall d | d in cases :: d.Valid()
    ensures forall d | d in WithNew(cases, deaths, c) :: d.Valid()
  {
  }

  lemma IdentityOrderOk(indices: seq<int>, deaths: nat)
    requires deaths <= |indices| && forall i | 0 <= i < |indices| :: indices[i] == i
    ensures IsPermutation(indices) && DeathTestsFirst(indices, deaths)
  {
    IdentityIsPermutation(indices);
    IdentityIsPermutation(indices[..deaths]);
  }

  // ---------------------------------------------------------------- a shuffled registry

  ghost function TestOrders(cases: seq<TestCase>): (r: seq<seq<int>>)
    reads cases`testIndices
    ensures HaveOrders(cases, r)
  {
    if cases == [] then [] else TestOrders(cases[..|cases| - 1]) + [cases[|cases| - 1].testIndices]
  }

  /** The index vectors of the test cases. */
  ghost predicate HaveOrders(cases: seq<TestCase>, orders: seq<seq<int>>)
    reads cases`testIndices
  {
    |orders| == |cases| && forall k | 0 <= k < |cases| :: cases[k].testIndices == orders[k]
  }

  /** The tests of every test case are in the order drawn for them, one test case after the other. */
  ghost predicate TestsShuffled(state: nat, before: seq<seq<int>>, cases: seq<TestCase>)
    reads cases`testIndices
  {
    HaveOrders(cases, ShuffledUpTo(state, before, |before|))
  }

  /** The new index leaves the indices of the death test cases first. */
  ghost predicate KeepsBlocks(indices: seq<int>, deaths: nat, isDeathTest: bool)
    requires deaths <= |indices|
  {
    !isDeathTest || deaths == |indices| || indices[deaths] == deaths
  }

  /** Registering a death test case while the tests are shuffled keeps the death test cases first only
      when the place after them holds the index that becomes theirs. */
  lemma RegisteringWhileShuffled(indices: seq<int>, deaths: nat)
    requires deaths <= |indices| && IsPermutation(indices) && DeathTestsFirst(indices, deaths)
    ensures DeathTestsFirst(indices + [|indices|], deaths + 1) <==> KeepsBlocks(indices, deaths, true)
  {
    var after := indices + [|indices|];
    var next := after[deaths];
    assert after[..deaths + 1] == indices[..deaths] + [next];
    IdentityHoldsOnce(deaths, deaths);
    IdentityHoldsOnce(deaths + 1, deaths);
    assert Identity(deaths + 1) == Identity(deaths) + [deaths];
  }

  lemma BlocksAfterIndex(indices: seq<int>, deaths: nat, isDeathTest: bool)
    requires deaths <= |indices| && IsPermutation(indices) && DeathTestsFirst(indices, deaths)
    ensures IsPermutation(indices + [|indices|])
    ensures DeathTestsFirst(indices + [|indices|], if isDeathTest then deaths + 1 else deaths)
        <==> KeepsBlocks(indices, deaths, isDeathTest)
  {
    PermutationAppend(indices);
    RegisteringWhileShuffled(indices, deaths);
    assert (indices + [|indices|])[..deaths] == indices[..deaths];
  }

  lemma CasesAreDistinct(cases: seq<TestCase>, deaths: nat)
    requires NamesOk(cases, deaths)
    ensures Distinct(cases)
  {
    forall i, j | 0 <= i < j < |cases| ensures cases[i] != cases[j] {
      assert HaveTwoNames(cases[i], cases[j]);
    }
  }

  lemma CasesDistinct(impl: UnitTestImpl)
    requires impl.Valid()
    ensures Distinct(impl.testCases)
  {
    CasesAreDistinct(impl.testCases, impl.lastDeathTestCase + 1);
  }

  // ---------------------------------------------------------------- every test once

  /** No test belongs to two test cases, or twice to one. */
  ghost predicate TestsOnce(cases: seq<TestCase>)
    reads cases`tests
  {
    && (forall i | 0 <= i < |cases| :: Distinct(cases[i].tests))
    && (forall i, k | 0 <= i < k < |cases| :: Apart(cases[i].tests, cases[k].tests))
  }

  ghost predicate Apart(a: seq<TestInfo>, b: seq<TestInfo>) { forall t | t in a :: t !in b }

  lemma InsertedOnce(cases: seq<TestCase>, deaths: nat, c: TestCase)
    requires deaths <= |cases| && TestsOnce(cases) && c.tests == []
    ensures TestsOnce(WithNew(cases, deaths, c))
  {
    var after := WithNew(cases, deaths, c);
    forall i, k | 0 <= i < k < |after| ensures Apart(after[i].tests, after[k].tests) {
    }
  }

  lemma InsertedAmong(cases: seq<TestCase>, deaths: nat, c: TestCase)
    requires deaths <= |cases|
    ensures forall d :: d in WithNew(cases, deaths, c) <==> d in cases || d == c
  {
    var k := if IsDeathTestCase(c.name) then deaths else |cases|;
    assert cases == cases[..k] + cases[k..];
    assert WithNew(cases, deaths, c) == cases[..k] + [c] + cases[k..];
  }

  lemma OneCaseOfName(cases: seq<TestCase>, deaths: nat, c: TestCase)
    requires NamesOk(cases, deaths) && c in cases
    ensures forall d | d in cases && d != c :: d.name != c.name
  {
    var k :| 0 <= k < |cases| && cases[k] == c;
    forall d | d in cases && d != c ensures d.name != c.name {
      var i :| 0 <= i < |cases| && cases[i] == d;
      assert if i < k then HaveTwoNames(cases[i], cases[k]) else HaveTwoNames(cases[k], cases[i]);
    }
  }

  /** One test more, in one of the test cases. */
  twostate lemma AddedOnce(cases: seq<TestCase>, new c: TestCase, new info: TestInfo)
    requires c in cases && old(TestsOnce(cases)) && Distinct(cases)
    requires forall d | d in cases :: info !in old(d.tests)
    requires forall d | d in cases :: d.tests == if d == c then old(d.tests) + [info] else old(d.tests)
    ensures TestsOnce(cases)
  {
    forall i, k | 0 <= i < k < |cases| ensures Apart(cases[i].tests, cases[k].tests) {
      assert old(Apart(cases[i].tests, cases[k].tests)) && cases[i] != cases[k];
    }
  }

  class UnitTestImpl {
    var testCases: seq<TestCase>
    var testCaseIndices: seq<int>
    var lastDeathTestCase: int
    const random: Random

    ghost predicate Valid()
      reads this`testCases, this`testCaseIndices, this`lastDeathTestCase, testCases`tests, testCases`testIndices
    {
      CasesOk() && IndicesOk()
    }

    ghost predicate CasesOk()
      reads this`testCases, this`lastDeathTestCase, testCases`tests, testCases`testIndices
    {
      && -1 <= lastDeathTestCase < |testCases| <= MAX_RANGE
      && NamesOk(testCases, lastDeathTestCase + 1)
      && (forall c | c in testCases :: c.Valid())
    }

    ghost predicate IndicesOk()
      requires -1 <= lastDeathTestCase < |testCases|
      reads this`testCases, this`testCaseIndices, this`lastDeathTestCase
    {
      && |testCaseIndices| == |testCases| && IsPermutation(testCaseIndices)
      && DeathTestsFirst(testCaseIndices, lastDeathTestCase + 1)
    }

    ghost predicate Unshuffled()
      reads this
    {
      forall i | 0 <= i < |testCaseIndices| :: testCaseIndices[i] == i
    }

    constructor (seed: nat)
      ensures Valid() && Unshuffled() && testCases == [] && fresh(random) && random.state == seed
    {
      testCases, testCaseIndices, lastDeathTestCase := [], [], -1;
      random := new Random(seed);
      new;
      IdentityOrderOk(testCaseIndices, 0);
    }

    /** Finds the test case of that name, or registers it: a death test case after the last one so far, any
        other at the end. Done while the tests are shuffled, it may cost the death test cases their place. */
    method GetTestCase(name: string) returns (testCase: TestCase)
      requires Valid() && |testCases| < MAX_RANGE
      modifies this
      ensures CasesOk() && testCase in testCases && testCase.name == name
      ensures if testCase in old(testCases) then testCases == old(testCases) && Valid() && unchanged(`testCaseIndices)
              else
                && fresh(testCase) && testCase.tests == [] && testCase.Valid()
                && testCases == WithNew(old(testCases), old(lastDeathTestCase) + 1, testCase)
                && testCaseIndices == old(testCaseIndices) + [|old(testCases)|]
                && lastDeathTestCase == old(lastDeathTestCase) + (if IsDeathTestCase(name) then 1 else 0)
                && (Valid() <==> KeepsBlocks(old(testCaseIndices), old(lastDeathTestCase) + 1, IsDeathTestCase(name)))
      ensures old(Unshuffled()) ==> Valid() && Unshuffled()
    {
      var found := FindTestCase(name);
      if found != null {
        return found;
      }
      testCase := CreateTestCase(name);
    }

    method CreateTestCase(name: string) returns (testCase: TestCase)
      requires Valid() && |testCases| < MAX_RANGE && forall i | 0 <= i < |testCases| :: testCases[i].name != name
      modifies this
      ensures CasesOk() && testCase in testCases && testCase.name == name
      ensures fresh(testCase) && testCase.tests == [] && testCase.Valid()
      ensures testCases == WithNew(old(testCases), old(lastDeathTestCase) + 1, testCase)
      ensures testCaseIndices == old(testCaseIndices) + [|old(testCases)|]
      ensures lastDeathTestCase == old(lastDeathTestCase) + if IsDeathTestCase(name) then 1 else 0
      ensures Valid() <==> KeepsBlocks(old(testCaseIndices), old(lastDeathTestCase) + 1, IsDeathTestCase(name))
      ensures old(Unshuffled()) ==> Valid() && Unshuffled()
    {
      testCase := new TestCase(name);
      var isDeathTest := MatchesFilter(name, DEATH_TEST_CASE_FILTER);
      Register(testCase, isDeathTest);
    }

    /** Registers a test, with its test case if that is new. */
    method AddTestInfo(caseName: string, info: TestInfo)
      requires Valid() && |testCases| < MAX_RANGE && TestsOnce(testCases)
      requires forall c | c in testCases :: info !in c.tests && |c.tests| < MAX_RANGE
      modifies this, testCases
      ensures CasesOk() && TestsOnce(testCases) && (old(Unshuffled()) ==> Valid() && Unshuffled())
      ensures forall c | c in old(testCases) :: c in testCases
      ensures forall c | c in testCases :: (c !in old(testCases) ==> fresh(c) && c.name == caseName) &&
                c.tests == (if c in old(testCases) then old(c.tests) else []) +
                           (if c.name == caseName then [info] else [])
      ensures exists c :: c in testCases && c.name == caseName
    {
      var testCase := CaseFor(caseName);
      AddTo(testCase, info);
    }

    method CaseFor(caseName: string) returns (testCase: TestCase)
      requires Valid() && |testCases| < MAX_RANGE && TestsOnce(testCases)
      modifies this
      ensures CasesOk() && TestsOnce(testCases) && Distinct(testCases)
      ensures old(Unshuffled()) ==> Valid() && Unshuffled()
      ensures testCase in testCases && testCase.name == caseName
      ensures testCase !in old(testCases) ==> fresh(testCase) && testCase.tests == []
      ensures forall c :: c in testCases <==> c in old(testCases) || c == testCase
      ensures forall c | c in testCases && c != testCase :: c.name != caseName
    {
      ghost var before, deaths := testCases, lastDeathTestCase + 1;
      testCase := GetTestCase(caseName);
      if testCase !in before {
        InsertedOnce(before, deaths, testCase);
        InsertedAmong(before, deaths, testCase);
      }
      CasesAreDistinct(testCases, lastDeathTestCase + 1);
      OneCaseOfName(testCases, lastDeathTestCase + 1, testCase);
    }

    method AddTo(testCase: TestCase, info: TestInfo)
      requires CasesOk() && testCase in testCases && TestsOnce(testCases) && Distinct(testCases)
      requires forall c | c in testCases :: info !in c.tests
      requires |testCase.tests| < MAX_RANGE
      modifies testCase
      ensures CasesOk() && TestsOnce(testCases)
      ensures testCase.tests == old(testCase.tests) + [info]
    {
      testCase.AddTestInfo(info);
      AddedOnce(testCases, testCase, info);
    }

    method Register(testCase: TestCase, isDeathTest: bool)
      requires Valid() && |testCases| < MAX_RANGE && testCase.Valid()
      requires isDeathTest <==> IsDeathTestCase(testCase.name)
      requires forall i | 0 <= i < |testCases| :: testCases[i].name != testCase.name
      modifies this
      ensures CasesOk() && testCase in testCases
      ensures testCases == WithNew(old(testCases), old(lastDeathTestCase) + 1, testCase)
      ensures testCaseIndices == old(testCaseIndices) + [|old(testCases)|]
      ensures lastDeathTestCase == old(lastDeathTestCase) + if isDeathTest then 1 else 0
      ensures Valid() <==> KeepsBlocks(old(testCaseIndices), old(lastDeathTestCase) + 1, isDeathTest)
      ensures old(Unshuffled()) ==> Valid() && Unshuffled()
    {
      ghost var deaths := lastDeathTestCase + 1;
      Insert(testCase, isDeathTest);
      AppendIndex(deaths, isDeathTest);
    }

    method AppendIndex(ghost deaths: nat, ghost isDeathTest: bool)
      requires |testCases| == |testCaseIndices| + 1 && deaths <= |testCaseIndices|
      requires IsPermutation(testCaseIndices) && DeathTestsFirst(testCaseIndices, deaths)
      requires lastDeathTestCase + 1 == if isDeathTest then deaths + 1 else deaths
      modifies this`testCaseIndices
      ensures testCaseIndices == old(testCaseIndices) + [|old(testCaseIndices)|]
      ensures IndicesOk() <==> KeepsBlocks(old(testCaseIndices), deaths, isDeathTest)
      ensures old(Unshuffled()) ==> IndicesOk() && Unshuffled()
    {
      BlocksAfterIndex(testCaseIndices, deaths, isDeathTest);
      testCaseIndices := testCaseIndices + [|testCaseIndices|];
    }

    method Insert(testCase: TestCase, isDeathTest: bool)
      requires CasesOk() && |testCases| < MAX_RANGE && testCase.Valid()
      requires isDeathTest <==> IsDeathTestCase(testCase.name)
      requires forall i | 0 <= i < |testCases| :: testCases[i].name != testCase.name
      modifies this`testCases, this`lastDeathTestCase
      ensures CasesOk() && testCase in testCases && |testCases| == |old(testCases)| + 1
      ensures lastDeathTestCase == old(lastDeathTestCase) + if isDeathTest then 1 else 0
      ensures testCases == WithNew(old(testCases), old(lastDeathTestCase) + 1, testCase)
    {
      InsertedNamesOk(testCases, lastDeathTestCase + 1, testCase);
      InsertedValid(testCases, lastDeathTestCase + 1, testCase);
      ghost var after := WithNew(testCases, lastDeathTestCase + 1, testCase);
      assert after[if isDeathTest then lastDeathTestCase + 1 else |testCases|] == testCase;
      if isDeathTest {
        lastDeathTestCase := lastDeathTestCase + 1;
        testCases := testCases[..lastDeathTestCase] + [testCase] + testCases[lastDeathTestCase..];
      } else {
        testCases := testCases + [testCase];
      }
      assert testCases == after;
    }

    method FindTestCase(name: string) returns (c: TestCase?)
      ensures c != null ==> c in testCases && c.name == name
      ensures c == null ==> forall k | 0 <= k < |testCases| :: testCases[k].name != name
    {
      var i := 0;
      while i < |testCases|
        invariant 0 <= i <= |testCases|
        invariant forall k | 0 <= k < i :: testCases[k].name != name
      {
        if testCases[i].name == name {
          return testCases[i];
        }
        i := i + 1;
      }
      return null;
    }

    /** Shuffles the death test cases among themselves, the others among themselves, and the tests of each. */
    method ShuffleTests()
      requires Valid()
      modifies this`testCaseIndices, testCases`testIndices, random`state
      ensures Valid() && testCases == old(testCases)
      ensures testCaseIndices == ShuffledBlocks(old(random.state), lastDeathTestCase + 1, old(testCaseIndices))
      ensures forall c | c in testCases :: c.tests == old(c.tests)
      ensures TestsShuffled(StateAfterBlocks(old(random.state), lastDeathTestCase + 1, |testCases|),
                            old(TestOrders(testCases)), testCases)
    {
      ghost var before := TestOrders(testCases);
      ShuffleBlocks(before);
      ShuffleEach(before);
    }

    method ShuffleBlocks(ghost orders: seq<seq<int>>)
      requires Valid() && HaveOrders(testCases, orders)
      modifies this`testCaseIndices, random`state
      ensures Valid() && HaveOrders(testCases, orders)
      ensures testCaseIndices == ShuffledBlocks(old(random.state), lastDeathTestCase + 1, old(testCaseIndices))
      ensures random.state == StateAfterBlocks(old(random.state), lastDeathTestCase + 1, |testCases|)
    {
      testCaseIndices := ShuffleCases(lastDeathTestCase + 1, testCaseIndices);
    }

    /** The index vector with both blocks shuffled. */
    method ShuffleCases(deaths: nat, before: seq<int>) returns (after: seq<int>)
      requires deaths <= |before| <= MAX_RANGE && IsPermutation(before) && DeathTestsFirst(before, deaths)
      modifies random`state
      ensures |after| == |before| && IsPermutation(after) && DeathTestsFirst(after, deaths)
      ensures after == ShuffledBlocks(old(random.state), deaths, before)
      ensures random.state == StateAfterBlocks(old(random.state), deaths, |before|)
    {
      ghost var state := random.state;
      var first := ShuffleRange(random, 0, deaths, before);
      after := ShuffleRange(random, deaths, |before|, first);
      BlocksShuffled(state, before, first, after, deaths);
    }

    /** The tests of every test case in the order drawn for them, one test case after the other. */
    method ShuffleEach(ghost before: seq<seq<int>>)
      requires Valid() && HaveOrders(testCases, before)
      modifies testCases`testIndices, random`state
      ensures Valid() && TestsShuffled(old(random.state), before, testCases)
    {
      CasesDistinct(this);
      ghost var state := random.state;
      var i := 0;
      while i < |testCases|
        invariant 0 <= i <= |testCases| && random.state == StateBefore(state, before, i)
        invariant HaveOrders(testCases, ShuffledUpTo(state, before, i))
        invariant forall c | c in testCases :: c.Valid()
      {
        ShuffleOne(testCases[i], i, state, before);
        i := i + 1;
      }
    }

    method ShuffleOne(c: TestCase, ghost i: nat, ghost state: nat, ghost before: seq<seq<int>>)
      requires i < |testCases| && c == testCases[i] && Distinct(testCases) && forall d | d in testCases :: d.Valid()
      requires |before| == |testCases| && HaveOrders(testCases, ShuffledUpTo(state, before, i))
      requires random.state == StateBefore(state, before, i)
      modifies c`testIndices, random`state
      ensures HaveOrders(testCases, ShuffledUpTo(state, before, i + 1))
      ensures random.state == StateBefore(state, before, i + 1)
      ensures forall d | d in testCases :: d.Valid()
    {
      ghost var orders := ShuffledUpTo(state, before, i);
      ShuffledUpToIs(state, before, i, i);
      NextShuffled(state, before, i);
      c.ShuffleTests(random);
      forall k | 0 <= k < |testCases| && k != i ensures testCases[k].testIndices == orders[k] {
        assert testCases[k] != testCases[i];
      }
    }

    /** Restores the order of registration. */
    method UnshuffleTests()
      requires Valid()
      modifies this`testCaseIndices, testCases`testIndices
      ensures Valid() && Unshuffled() && testCases == old(testCases)
      ensures forall c | c in testCases :: c.Unshuffled() && c.tests == old(c.tests)
    {
      UnshuffleEach();
      IdentityOrderOk(testCaseIndices, lastDeathTestCase + 1);
    }

    method UnshuffleEach()
      requires |testCaseIndices| == |testCases| && forall c | c in testCases :: c.Valid()
      modifies this`testCaseIndices, testCases`testIndices
      ensures |testCaseIndices| == |testCases| && Unshuffled()
      ensures forall c | c in testCases :: c.Valid() && c.Unshuffled() && c.tests == old(c.tests)
    {
      var i := 0;
      while i < |testCases|
        invariant 0 <= i <= |testCases| == |testCaseIndices|
        invariant forall k | 0 <= k < i :: testCaseIndices[k] == k && testCases[k].Unshuffled()
        invariant forall c | c in testCases :: c.Valid() && c.tests == old(c.tests)
      {
        testCases[i].UnshuffleTests();
        testCaseIndices := testCaseIndices[i := i];
        i := i + 1;
      }
    }

    /** The test case that is run in place `i`. */
    method GetMutableTestCase(i: int) returns (c: TestCase?)
      requires Valid()
      ensures if 0 <= i < |testCases| then 0 <= testCaseIndices[i] < |testCases| && c == testCases[testCaseIndices[i]]
              else c == null
    {
      if i < 0 || i >= |testCaseIndices| {
        return null;
      }
      PermutationRange(testCaseIndices, i);
      return testCases[testCaseIndices[i]];
    }

    /** What a listener is given for place `i`: the index vector is looked up, but not used. */
    method GetTestCaseForListeners(i: int) returns (c: TestCase?)
      requires Valid()
      ensures c == if 0 <= i < |testCases| then testCases[i] else null
    {
      if i < 0 || i >= |testCaseIndices| {
        return null;
      }
      PermutationRange(testCaseIndices, i);
      return if testCaseIndices[i] < 0 then null else testCases[i];
    }
  }

  /** What a listener sees that walks the test cases, as the writer of the XML report does: the order of
      registration. It is the order they are run in if and only if the tests are not shuffled. */
  method WalkAsListener(impl: UnitTestImpl) returns (seen: seq<TestCase>)
    requires impl.Valid()
    ensures seen == impl.testCases
    ensures (forall i | 0 <= i < |seen| :: 0 <= impl.testCaseIndices[i] < |seen|)
    ensures (forall i | 0 <= i < |seen| :: seen[i] == impl.testCases[impl.testCaseIndices[i]]) <==> impl.Unshuffled()
  {
    seen := [];
    var i := 0;
    while i < |impl.testCases|
      invariant 0 <= i <= |impl.testCases| && seen == impl.testCases[..i]
    {
      var c := impl.GetTestCaseForListeners(i);
      seen := seen + [c];
      i := i + 1;
    }
    SeesRunOrder(impl.testCases, impl.testCaseIndices);
  }

  lemma BlocksShuffled(state: nat, before: seq<int>, first: seq<int>, after: seq<int>, deaths: nat)
    requires deaths <= |before| == |first| == |after| && IsPermutation(before) && DeathTestsFirst(before, deaths)
    requires first[0..deaths] == Shuffled(state, before[0..deaths]) && first[deaths..] == before[deaths..]
    requires after[..deaths] == first[..deaths]
    requires after[deaths..|before|] == Shuffled(StateAfter(state, deaths - 0), first[deaths..|before|])
    requires multiset(first[0..deaths]) == multiset(before[0..deaths])
    requires multiset(first) == multiset(before) && multiset(after) == multiset(first)
    ensures IsPermutation(after) && DeathTestsFirst(after, deaths) && after == ShuffledBlocks(state, deaths, before)
  {
    assert first[0..deaths] == first[..deaths] && before[0..deaths] == before[..deaths];
    BlocksKeepDeathTestsFirst(before, first, after, deaths);
    assert first[deaths..|before|] == before[deaths..];
    Halves(after, deaths);
  }

  lemma Halves(s: seq<int>, k: nat)
    requires k <= |s|
    ensures s == s[..k] + s[k..|s|]
  {
  }

  lemma BlocksKeepDeathTestsFirst(before: seq<int>, first: seq<int>, second: seq<int>, deaths: nat)
    requires deaths <= |before| == |first| == |second|
    requires IsPermutation(before) && DeathTestsFirst(before, deaths)
    requires multiset(first) == multiset(before) && multiset(second) == multiset(first)
    requires multiset(first[..deaths]) == multiset(before[..deaths]) && second[..deaths] == first[..deaths]
    ensures IsPermutation(second) && DeathTestsFirst(second, deaths)
  {
  }

  /** Whatever the shuffles, the run reaches every test case exactly once, and the death test cases before
      all others. */
  lemma RunOrder(cases: seq<TestCase>, indices: seq<int>, deaths: nat)
    requires deaths <= |cases| == |indices| && IsPermutation(indices) && DeathTestsFirst(indices, deaths)
    requires forall i | 0 <= i < |cases| :: i < deaths <==> IsDeathTestCase(cases[i].name)
    ensures forall i | 0 <= i < |indices| :: 0 <= indices[i] < |cases|
    ensures multiset(Pick(cases, indices)) == multiset(cases)
    ensures forall i | 0 <= i < |cases| :: i < deaths <==> IsDeathTestCase(Pick(cases, indices)[i].name)
  {
    forall i | 0 <= i < |indices| ensures 0 <= indices[i] < |cases| {
      PermutationRange(indices, i);
    }
    EachReachedOnce(cases, indices);
    forall i | 0 <= i < |cases| ensures i < deaths <==> indices[i] < deaths {
      if i < deaths {
        PermutationRange(indices[..deaths], i);
      } else {
        LaterEntries(indices, deaths, i);
      }
    }
  }

  lemma SeesRunOrder(cases: seq<TestCase>, indices: seq<int>)
    requires |cases| == |indices| && IsPermutation(indices)
    requires forall i, j | 0 <= i < j < |cases| :: HaveTwoNames(cases[i], cases[j])
    ensures forall i | 0 <= i < |indices| :: 0 <= indices[i] < |cases|
    ensures (forall i | 0 <= i < |cases| :: cases[i] == cases[indices[i]])
        <==> forall i | 0 <= i < |indices| :: indices[i] == i
  {
    forall i | 0 <= i < |indices| ensures 0 <= indices[i] < |cases| {
      PermutationRange(indices, i);
    }
    if forall i | 0 <= i < |cases| :: cases[i] == cases[indices[i]] {
      forall i | 0 <= i < |cases| ensures indices[i] == i {
        assert !HaveTwoNames(cases[i], cases[indices[i]]) && !HaveTwoNames(cases[indices[i]], cases[i]);
      }
    }
  }
}
