/** What a shuffle makes of a range: Fisher-Yates on the numbers that the generator draws. */
module Shuffling {
  import opened CStrings
  import opened Division
  import opened Orders

  const MAX_RANGE: nat := 0x8000_0000

  // ---------------------------------------------------------------- the numbers drawn

  /** `x % d`, by what it is for smaller numbers: proofs about shuffles need no arithmetic of it. */
  function Remainder(x: nat, d: nat): (r: nat)
    requires d > 0
    ensures r < d
    decreases x
  {
    if x < d then x else Remainder(x - d, d)
  }

  lemma {:induction false} RemainderIs(x: nat, d: nat)
    requires d > 0
    ensures Remainder(x, d) == x % d
    decreases x
  {
    if x >= d {
      RemainderIs(x - d, d);
      DivisionUnique(x, d, (x - d) / d + 1, (x - d) % d);
    }
  }

  /** One step of the linear congruential generator on unsigned 32-bit values. */
  function NextState(state: nat): nat {
    Remainder(Remainder(1103515245 * state + 12345, 0x1_0000_0000), MAX_RANGE)
  }

  /** The generator in the usual form. */
  lemma NextStateIs(state: nat)
    ensures NextState(state) == (1103515245 * state + 12345) % 0x8000_0000
  {
    var x := 1103515245 * state + 12345;
    RemainderIs(x, 0x1_0000_0000);
    RemainderIs(x % 0x1_0000_0000, MAX_RANGE);
    var q, r := x / 0x1_0000_0000, x % 0x1_0000_0000;
    DivisionUnique(x, 0x8000_0000, 2 * q + r / 0x8000_0000, r % 0x8000_0000);
  }

  /** No two states have the same successor: the multiplier has an inverse, 1857678181. */
  lemma NextStateInjective(a: nat, b: nat)
    requires a < 0x8000_0000 && b < 0x8000_0000 && NextState(a) == NextState(b)
    ensures a == b
  {
    NextStateIs(a);
    NextStateIs(b);
    var x, y := 1103515245 * a + 12345, 1103515245 * b + 12345;
    var k := x / 0x8000_0000 - y / 0x8000_0000;
    assert 1103515245 * (a - b) == 0x8000_0000 * k;
    assert 1857678181 * 1103515245 == 1 + 0x8000_0000 * 954594553;
    assert a - b == 0x8000_0000 * (1857678181 * k - 954594553 * (a - b));
  }

  /** The numbers drawn for a range of that width, each below the width that is left. */
  function Draws(state: nat, width: nat): (draws: seq<nat>)
    ensures AreDraws(draws, width)
    decreases width
  {
    if width < 2 then [] else [Remainder(NextState(state), width)] + Draws(NextState(state), width - 1)
  }

  /** The generator after them. */
  function StateAfter(state: nat, width: nat): nat
    decreases width
  {
    if width < 2 then state else StateAfter(NextState(state), width - 1)
  }

  lemma DrawsNext(state: nat, width: nat)
    requires width >= 2
    ensures var next := NextState(state);
            && Draws(state, width) == [Remainder(next, width)] + Draws(next, width - 1)
            && StateAfter(state, width) == StateAfter(next, width - 1)
  {
  }

  predicate AreDraws(draws: seq<nat>, width: nat) {
    if width < 2 then draws == [] else draws != [] && draws[0] < width && AreDraws(draws[1..], width - 1)
  }

  // ---------------------------------------------------------------- the order they give

  function Swapped<T>(v: seq<T>, i: nat, j: nat): (r: seq<T>)
    requires i < |v| && j < |v|
    ensures |r| == |v|
  {
    v[i := v[j]][j := v[i]]
  }

  /** The element drawn first comes last, in exchange for the last one; the others are arranged likewise. */
  function Arranged<T>(draws: seq<nat>, v: seq<T>): (r: seq<T>)
    requires AreDraws(draws, |v|)
    ensures |r| == |v|
  {
    if |v| < 2 then v
    else
      var last := |v| - 1;
      var w := Swapped(v, draws[0], last);
      Arranged(draws[1..], w[..last]) + [w[last]]
  }

  /** In the order that the generator draws. */
  function Shuffled<T>(state: nat, v: seq<T>): (r: seq<T>)
    ensures |r| == |v|
  {
    Arranged(Draws(state, |v|), v)
  }

  lemma SwappedFacts<T>(v: seq<T>, o: nat)
    requires o < |v|
    ensures var w := Swapped(v, o, |v| - 1);
            w == w[..|v| - 1] + [v[o]] && multiset(w[..|v| - 1]) + multiset{v[o]} == multiset(v)
  {
    var w := Swapped(v, o, |v| - 1);
    assert w == w[..|v| - 1] + [v[o]];
    assert multiset(w) == multiset(v);
  }

  /** A rearrangement, whatever is drawn. */
  lemma {:induction false} ArrangedKeepsAll<T>(draws: seq<nat>, v: seq<T>)
    requires AreDraws(draws, |v|)
    ensures multiset(Arranged(draws, v)) == multiset(v)
    decreases |v|
  {
    if |v| >= 2 {
      SwappedFacts(v, draws[0]);
      ArrangedKeepsAll(draws[1..], Swapped(v, draws[0], |v| - 1)[..|v| - 1]);
    }
  }

  // ---------------------------------------------------------------- every order, once

  lemma DrawnDistinct<T>(v: seq<T>, o: nat)
    requires Distinct(v) && o < |v|
    ensures Distinct(Swapped(v, o, |v| - 1)[..|v| - 1])
  {
  }

  lemma {:induction false} ArrangedOnce<T>(v: seq<T>, a: seq<nat>, b: seq<nat>)
    requires Distinct(v) && AreDraws(a, |v|) && AreDraws(b, |v|) && Arranged(a, v) == Arranged(b, v)
    ensures a == b
    decreases |v|
  {
    if |v| >= 2 {
      var last := |v| - 1;
      var r := Arranged(a, v);
      assert r[last] == v[a[0]] && r[last] == v[b[0]];
      var w := Swapped(v, a[0], last);
      assert r[..last] == Arranged(a[1..], w[..last]) && r[..last] == Arranged(b[1..], w[..last]);
      DrawnDistinct(v, a[0]);
      ArrangedOnce(w[..last], a[1..], b[1..]);
      assert a == [a[0]] + a[1..] && b == [b[0]] + b[1..];
    }
  }

  lemma {:induction false} ArrangedAny<T>(v: seq<T>, r: seq<T>) returns (draws: seq<nat>)
    requires multiset(r) == multiset(v)
    ensures AreDraws(draws, |v|) && Arranged(draws, v) == r
    decreases |v|
  {
    assert |multiset(r)| == |r| && |multiset(v)| == |v|;
    if |v| < 2 {
      draws := [];
      assert |v| == 1 ==> r[0] in multiset(v) && v == [r[0]];
    } else {
      var last := |v| - 1;
      assert r[last] in multiset(v);
      var o: nat :| o < |v| && v[o] == r[last];
      SwappedFacts(v, o);
      assert r == r[..last] + [r[last]];
      var w := Swapped(v, o, last)[..last];
      Cancel(multiset(r[..last]), multiset(w), r[last]);
      var rest := ArrangedAny(w, r[..last]);
      draws := [o] + rest;
      assert draws[1..] == rest;
    }
  }

  /** The shuffle favours no order: each order of distinct elements comes from exactly one list of draws. */
  lemma EveryOrderOnce<T>(v: seq<T>, r: seq<T>)
    requires Distinct(v) && multiset(r) == multiset(v)
    ensures exists draws :: AreDraws(draws, |v|) && Arranged(draws, v) == r &&
              forall other :: AreDraws(other, |v|) && Arranged(other, v) == r ==> other == draws
  {
    var draws := ArrangedAny(v, r);
    forall other | AreDraws(other, |v|) && Arranged(other, v) == r ensures other == draws {
      ArrangedOnce(v, other, draws);
    }
  }

  /** Each draw takes the last element there is. */
  predicate TakeLast(draws: seq<nat>, width: nat) {
    if width < 2 then true else draws != [] && draws[0] == width - 1 && TakeLast(draws[1..], width - 1)
  }

  /** And nothing moves if and only if each draw does. */
  lemma {:induction false} StaysInOrder<T>(draws: seq<nat>, v: seq<T>)
    requires Distinct(v) && AreDraws(draws, |v|)
    ensures Arranged(draws, v) == v <==> TakeLast(draws, |v|)
    decreases |v|
  {
    if |v| >= 2 {
      var last := |v| - 1;
      var w := Swapped(v, draws[0], last);
      assert v == v[..last] + [v[last]];
      if draws[0] == last {
        assert w == v;
        StaysInOrder(draws[1..], v[..last]);
        assert Arranged(draws, v)[..last] == Arranged(draws[1..], v[..last]);
      } else {
        assert Arranged(draws, v)[last] == v[draws[0]] != v[last];
      }
    }
  }

  // ---------------------------------------------------------------- the loop over a range

  /** What the loop makes of the `width` elements from `begin` on, turn by turn. */
  function RangeArranged<T>(draws: seq<nat>, v: seq<T>, begin: nat, width: nat): (r: seq<T>)
    requires begin + width <= |v| && AreDraws(draws, width)
    ensures |r| == |v|
    decreases width
  {
    if width < 2 then v
    else RangeArranged(draws[1..], Swapped(v, begin + draws[0], begin + width - 1), begin, width - 1)
  }

  lemma TurnTaken<T>(state: nat, begin: nat, width: nat, v: seq<T>)
    requires 2 <= width && begin + width <= |v|
    ensures var next := NextState(state);
            && StateAfter(state, width) == StateAfter(next, width - 1)
            && RangeArranged(Draws(state, width), v, begin, width)
               == RangeArranged(Draws(next, width - 1),
                                Swapped(v, begin + Remainder(next, width), begin + width - 1), begin, width - 1)
  {
    DrawsNext(state, width);
  }

  lemma SwapInRange<T>(v: seq<T>, begin: nat, width: nat, o: nat)
    requires o < width && begin + width <= |v|
    ensures var last := begin + width - 1;
            var r := Swapped(v, begin + o, last);
            var w := Swapped(v[begin..begin + width], o, width - 1);
            && r[..begin] == v[..begin] && r[begin..last] == w[..width - 1]
            && r[last..] == [w[width - 1]] + v[begin + width..]
  {
  }

  lemma {:induction false} RangeIs<T>(draws: seq<nat>, v: seq<T>, begin: nat, width: nat)
    requires begin + width <= |v| && AreDraws(draws, width)
    ensures RangeArranged(draws, v, begin, width)
         == v[..begin] + (Arranged(draws, v[begin..begin + width]) + v[begin + width..])
    decreases width
  {
    if width < 2 {
      Parted(v, begin, width);
    } else {
      var last := begin + width - 1;
      var r := Swapped(v, begin + draws[0], last);
      RangeIs(draws[1..], r, begin, width - 1);
      RangeStep(draws, v, begin, width);
    }
  }

  lemma Parted<T>(v: seq<T>, begin: nat, width: nat)
    requires begin + width <= |v|
    ensures v == v[..begin] + (v[begin..begin + width] + v[begin + width..])
  {
  }

  lemma RangeStep<T>(draws: seq<nat>, v: seq<T>, begin: nat, width: nat)
    requires 2 <= width && begin + width <= |v| && AreDraws(draws, width)
    ensures var last := begin + width - 1;
            var r := Swapped(v, begin + draws[0], last);
            && r[..begin] == v[..begin]
            && Arranged(draws[1..], r[begin..last]) + r[last..]
               == Arranged(draws, v[begin..begin + width]) + v[begin + width..]
  {
    SwapInRange(v, begin, width, draws[0]);
    var w := Swapped(v[begin..begin + width], draws[0], width - 1);
    Associate(Arranged(draws[1..], w[..width - 1]), [w[width - 1]], v[begin + width..]);
  }

  /** That is the order drawn for them, and no other element moves. */
  lemma RangeIsArranged<T>(draws: seq<nat>, v: seq<T>, begin: nat, end: nat, r: seq<T>)
    requires begin <= end <= |v| && AreDraws(draws, end - begin) && r == RangeArranged(draws, v, begin, end - begin)
    ensures r[..begin] == v[..begin] && r[end..] == v[end..] && r[begin..end] == Arranged(draws, v[begin..end])
    ensures multiset(r[begin..end]) == multiset(v[begin..end]) && multiset(r) == multiset(v)
  {
    RangeIs(draws, v, begin, end - begin);
    ArrangedKeepsAll(draws, v[begin..end]);
    Rearranged(v, begin, end, Arranged(draws, v[begin..end]), r);
  }

  lemma Rearranged<T>(v: seq<T>, begin: nat, end: nat, ordered: seq<T>, r: seq<T>)
    requires begin <= end <= |v| && r == v[..begin] + (ordered + v[end..])
    requires |ordered| == end - begin && multiset(ordered) == multiset(v[begin..end])
    ensures r[..begin] == v[..begin] && r[end..] == v[end..] && r[begin..end] == ordered
    ensures multiset(r[begin..end]) == multiset(v[begin..end]) && multiset(r) == multiset(v)
  {
    Parts(v[..begin], ordered, v[end..]);
    SameAround(v, r, begin, end);
  }

  lemma Parts<T>(a: seq<T>, b: seq<T>, c: seq<T>)
    ensures var r := a + (b + c);
            r[..|a|] == a && r[|a|..|a| + |b|] == b && r[|a| + |b|..] == c
  {
  }

  lemma SameAround<T>(v: seq<T>, r: seq<T>, begin: nat, end: nat)
    requires begin <= end <= |v| == |r| && r[..begin] == v[..begin] && r[end..] == v[end..]
    requires multiset(r[begin..end]) == multiset(v[begin..end])
    ensures multiset(r) == multiset(v)
  {
    assert r == r[..begin] + r[begin..end] + r[end..];
    assert v == v[..begin] + v[begin..end] + v[end..];
  }

  // ---------------------------------------------------------------- one range after the other

  /** The generator when the turn of `vs[k]` comes. */
  function StateBefore(state: nat, vs: seq<seq<int>>, k: nat): nat
    requires k <= |vs|
  {
    if k == 0 then state else StateAfter(StateBefore(state, vs, k - 1), |vs[k - 1]|)
  }

  /** What becomes of `vs[k]`. */
  function ShuffledAt(state: nat, vs: seq<seq<int>>, k: nat): seq<int>
    requires k < |vs|
  {
    Shuffled(StateBefore(state, vs, k), vs[k])
  }

  /** The first `k` of them shuffled, each from where the generator stands then. */
  function ShuffledUpTo(state: nat, vs: seq<seq<int>>, k: nat): (r: seq<seq<int>>)
    requires k <= |vs|
    ensures |r| == |vs|
    decreases k
  {
    if k == 0 then vs else ShuffledUpTo(state, vs, k - 1)[k - 1 := ShuffledAt(state, vs, k - 1)]
  }

  lemma {:induction false} ShuffledUpToIs(state: nat, vs: seq<seq<int>>, k: nat, i: nat)
    requires i < |vs| && k <= |vs|
    ensures ShuffledUpTo(state, vs, k)[i] == if i < k then ShuffledAt(state, vs, i) else vs[i]
    decreases k
  {
    if k > 0 {
      ShuffledUpToIs(state, vs, k - 1, i);
    }
  }

  lemma NextShuffled(state: nat, vs: seq<seq<int>>, k: nat)
    requires k < |vs|
    ensures ShuffledUpTo(state, vs, k + 1)
         == ShuffledUpTo(state, vs, k)[k := Shuffled(StateBefore(state, vs, k), vs[k])]
    ensures StateBefore(state, vs, k + 1) == StateAfter(StateBefore(state, vs, k), |vs[k]|)
  {
  }

  function StateAfterBlocks(state: nat, first: nat, n: nat): nat
    requires first <= n
  {
    StateAfter(StateAfter(state, first), n - first)
  }

  /** The first elements in the order drawn for them, then the others. */
  function ShuffledBlocks(state: nat, first: nat, v: seq<int>): (r: seq<int>)
    requires first <= |v|
    ensures |r| == |v|
  {
    Shuffled(state, v[..first]) + Shuffled(StateAfter(state, first), v[first..])
  }

  /** The blocks stay as they are if and only if every draw takes the last element there is. */
  lemma BlocksStay(state: nat, first: nat, v: seq<int>)
    requires first <= |v| && Distinct(v)
    ensures ShuffledBlocks(state, first, v) == v <==> DrawsTakeLast(state, first, |v|)
  {
    StaysInOrder(Draws(state, first), v[..first]);
    StaysInOrder(Draws(StateAfter(state, first), |v| - first), v[first..]);
    SameHalves(Shuffled(state, v[..first]), Shuffled(StateAfter(state, first), v[first..]), v);
  }

  lemma SameHalves<T>(a: seq<T>, b: seq<T>, v: seq<T>)
    requires |a| + |b| == |v|
    ensures a + b == v <==> a == v[..|a|] && b == v[|a|..]
  {
    if a + b == v {
      assert (a + b)[..|a|] == a && (a + b)[|a|..] == b;
    }
  }

  predicate DrawsTakeLast(state: nat, first: nat, n: nat)
    requires first <= n
  {
    && TakeLast(Draws(state, first), first)
    && TakeLast(Draws(StateAfter(state, first), n - first), n - first)
  }

  /** Two elements trade places when the number drawn is even, and stay otherwise. */
  lemma PairShuffled<T>(state: nat, v: seq<T>)
    requires |v| == 2
    ensures Shuffled(state, v) == if NextState(state) % 2 == 0 then [v[1], v[0]] else v
  {
    var o := Remainder(NextState(state), 2);
    RemainderIs(NextState(state), 2);
    assert Draws(state, 2) == [o] + Draws(NextState(state), 1);
    var w := Swapped(v, o, 1);
    assert Arranged([o], v) == w[..1] + [w[1]];
  }

  /** Seed 1 makes them trade places. */
  lemma SeedOne()
    ensures NextState(1) % 2 == 0
  {
    RemainderIs(1103515245 + 12345, 0x1_0000_0000);
    RemainderIs(1103515245 + 12345, MAX_RANGE);
    assert NextState(1) == 1103527590;
  }
}
