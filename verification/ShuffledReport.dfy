/** What a report says of a shuffled run, and what becomes of a registry that is added to while it is shuffled. */
module ShuffledReport {
  import opened CStrings
  import opened Orders
  import opened Shuffling
  import opened TestFilter
  import opened TestRegistry

  /** A report that is written after a shuffle lists the test cases in the order they were run in if and only if
      each number drawn took the last place there was. */
  method ReportShuffled(impl: UnitTestImpl) returns (seen: seq<TestCase>, ghost ran: seq<TestCase>)
    requires impl.Valid() && impl.Unshuffled()
    modifies impl`testCaseIndices, impl.testCases`testIndices, impl.random`state
    ensures impl.Valid() && impl.testCases == old(impl.testCases) && seen == impl.testCases
    ensures impl.testCaseIndices
         == ShuffledBlocks(old(impl.random.state), impl.lastDeathTestCase + 1, Identity(|impl.testCases|))
    ensures IsRunOrder(impl.testCases, impl.testCaseIndices, ran)
    ensures seen == ran <==> DrawsTakeLast(old(impl.random.state), impl.lastDeathTestCase + 1, |impl.testCases|)
  {
    ghost var state := impl.random.state;
    IdentityOrder(impl);
    impl.ShuffleTests();
    seen := WalkAsListener(impl);
    ran := OrderReported(impl.testCases, impl.lastDeathTestCase + 1, state, impl.testCaseIndices);
  }

  ghost predicate IsRunOrder(cases: seq<TestCase>, indices: seq<int>, ran: seq<TestCase>) {
    |ran| == |indices| && forall i | 0 <= i < |ran| :: 0 <= indices[i] < |cases| && ran[i] == cases[indices[i]]
  }

  lemma IdentityOrder(impl: UnitTestImpl)
    requires impl.Valid() && impl.Unshuffled()
    ensures impl.testCaseIndices == Identity(|impl.testCases|)
  {
  }

  lemma OrderReported(cases: seq<TestCase>, deaths: nat, state: nat, indices: seq<int>) returns (ran: seq<TestCase>)
    requires NamesOk(cases, deaths) && IsPermutation(indices)
    requires |indices| == |cases| && indices == ShuffledBlocks(state, deaths, Identity(|cases|))
    ensures IsRunOrder(cases, indices, ran)
    ensures cases == ran <==> DrawsTakeLast(state, deaths, |cases|)
  {
    SeesRunOrder(cases, indices);
    ran := Pick(cases, indices);
    BlocksStay(state, deaths, Identity(|cases|));
    IdentityIs(indices);
  }

  lemma IdentityIs(indices: seq<int>)
    ensures indices == Identity(|indices|) <==> forall i | 0 <= i < |indices| :: indices[i] == i
  {
  }

  /** A new test case that has no death tests, after those there are. */
  method AddOrdinary(impl: UnitTestImpl, c: char)
    requires impl.Valid() && impl.Unshuffled() && impl.lastDeathTestCase == -1 && |impl.testCases| < MAX_RANGE
    requires c != 'D' && forall i | 0 <= i < |impl.testCases| :: impl.testCases[i].name != [c]
    modifies impl
    ensures impl.Valid() && impl.Unshuffled() && impl.lastDeathTestCase == -1
    ensures |impl.testCases| == |old(impl.testCases)| + 1
    ensures impl.testCases[..|old(impl.testCases)|] == old(impl.testCases)
    ensures var last := impl.testCases[|old(impl.testCases)|]; fresh(last) && last.name == [c]
  {
    ghost var before := impl.testCases;
    Ordinary(c);
    var t := impl.GetTestCase([c]);
    assert impl.testCases == before + [t];
  }

  /** With seed 1 and two test cases the report is in the wrong order, and a death test case that is registered
      then comes to be run after another one. */
  method SeedOneReported() returns (impl: UnitTestImpl, seen: seq<TestCase>, ghost ran: seq<TestCase>)
    ensures |seen| == 2 && seen[0].name == "A" && seen[1].name == "B" && ran == [seen[1], seen[0]] != seen
    ensures impl.CasesOk() && !impl.Valid()
  {
    impl := new UnitTestImpl(1);
    AddOrdinary(impl, 'A');
    AddOrdinary(impl, 'B');
    seen, ran := ReportPair(impl);
    Deadly();
    var _ := impl.GetTestCase("DeathTest");
  }

  method ReportPair(impl: UnitTestImpl) returns (seen: seq<TestCase>, ghost ran: seq<TestCase>)
    requires impl.Valid() && impl.Unshuffled() && impl.random.state == 1
    requires impl.lastDeathTestCase == -1 && |impl.testCases| == 2
    modifies impl`testCaseIndices, impl.testCases`testIndices, impl.random`state
    ensures impl.Valid() && impl.testCases == old(impl.testCases) && impl.testCaseIndices == [1, 0]
    ensures seen == impl.testCases && ran == [seen[1], seen[0]] != seen
  {
    PairSwapped();
    CasesDistinct(impl);
    seen, ran := ReportShuffled(impl);
  }

  lemma PairSwapped()
    ensures ShuffledBlocks(1, 0, Identity(2)) == [1, 0] && !KeepsBlocks([1, 0], 0, true)
  {
    SeedOne();
    PairShuffled(1, [0, 1]);
    assert Identity(2) == [0, 1] && Identity(2)[..0] == [] && Identity(2)[0..] == Identity(2);
  }

  // ---------------------------------------------------------------- sample names

  lemma Ordinary(c: char)
    requires c != 'D'
    ensures !IsDeathTestCase([c])
  {
    DeathTestNames([c]);
    forall k | 0 <= k <= 1 ensures [c][k..] != "DeathTest" && !("DeathTest/" <= [c][k..]) {
      assert |[c][k..]| <= 1;
    }
  }

  lemma Deadly()
    ensures IsDeathTestCase("DeathTest")
  {
    DeathTestNames("DeathTest");
    assert "DeathTest"[0..] == "DeathTest";
  }
}
