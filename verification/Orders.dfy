/** Orders given by index vectors: permutations, and what shuffling a range of them keeps. */
module Orders {
  function Identity(n: nat): (r: seq<int>)
    ensures |r| == n && forall i | 0 <= i < n :: r[i] == i
  {
    seq(n, i => i)
  }

  /** A rearrangement of 0, 1, ..., |s| - 1. */
  ghost predicate IsPermutation(s: seq<int>) { multiset(s) == multiset(Identity(|s|)) }

  ghost predicate Distinct<T>(v: seq<T>) { forall i, j | 0 <= i < j < |v| :: Differ(v[i], v[j]) }

  ghost predicate Differ<T>(a: T, b: T) { a != b }

  /** The items in the order of the indices. */
  ghost function Pick<T>(items: seq<T>, indices: seq<int>): (r: seq<T>)
    requires forall i | 0 <= i < |indices| :: 0 <= indices[i] < |items|
    ensures |r| == |indices| && forall i | 0 <= i < |r| :: r[i] == items[indices[i]]
  {
    seq(|indices|, i requires 0 <= i < |indices| => items[indices[i]])
  }

  lemma PermutationRange(s: seq<int>, i: nat)
    requires IsPermutation(s) && i < |s|
    ensures 0 <= s[i] < |s|
  {
    assert s[i] in multiset(s);
    assert s[i] in Identity(|s|);
  }

  lemma IdentityIsPermutation(s: seq<int>)
    requires forall i | 0 <= i < |s| :: s[i] == i
    ensures IsPermutation(s)
  {
    assert s == Identity(|s|);
  }

  lemma PermutationAppend(s: seq<int>)
    requires IsPermutation(s)
    ensures IsPermutation(s + [|s|])
  {
    assert Identity(|s| + 1) == Identity(|s|) + [|s|];
  }

  /** Index vectors with the same entries pick the same items. */
  lemma {:induction false} SamePicks<T>(items: seq<T>, a: seq<int>, b: seq<int>)
    requires multiset(a) == multiset(b)
    requires forall i | 0 <= i < |a| :: 0 <= a[i] < |items|
    requires forall i | 0 <= i < |b| :: 0 <= b[i] < |items|
    ensures multiset(Pick(items, a)) == multiset(Pick(items, b))
    decreases |a|
  {
    if a == [] {
      assert |multiset(b)| == 0;
      assert b == [];
    } else {
      assert a[0] in multiset(b);
      var j :| 0 <= j < |b| && b[j] == a[0];
      var c := Without(b, j);
      RemoveAt(a, 0);
      RemoveAt(b, j);
      Cancel(multiset(Without(a, 0)), multiset(c), a[0]);
      SamePicks(items, Without(a, 0), c);
      RemoveAt(Pick(items, a), 0);
      RemoveAt(Pick(items, b), j);
      PickWithout(items, a, 0);
      PickWithout(items, b, j);
    }
  }

  lemma PickWithout<T>(items: seq<T>, s: seq<int>, j: nat)
    requires j < |s| && forall i | 0 <= i < |s| :: 0 <= s[i] < |items|
    ensures Without(Pick(items, s), j) == Pick(items, Without(s, j))
  {
  }

  ghost function Without<T>(s: seq<T>, j: nat): (r: seq<T>)
    requires j < |s|
    ensures |r| == |s| - 1 && forall i | 0 <= i < |r| :: r[i] == s[if i < j then i else i + 1]
  {
    s[..j] + s[j + 1..]
  }

  lemma Cancel<T>(a: multiset<T>, b: multiset<T>, x: T)
    requires a + multiset{x} == b + multiset{x}
    ensures a == b
  {
    forall y ensures a[y] == b[y] {
      assert (a + multiset{x})[y] == a[y] + multiset{x}[y];
      assert (b + multiset{x})[y] == b[y] + multiset{x}[y];
    }
  }

  lemma RemoveAt<T>(s: seq<T>, j: nat)
    requires j < |s|
    ensures multiset(s) == multiset(Without(s, j)) + multiset{s[j]}
  {
    assert s == s[..j] + [s[j]] + s[j + 1..];
  }

  /** Through a permutation every item is reached exactly once. */
  lemma EachReachedOnce<T>(items: seq<T>, indices: seq<int>)
    requires IsPermutation(indices) && |indices| == |items|
    requires forall i | 0 <= i < |indices| :: 0 <= indices[i] < |items|
    ensures multiset(Pick(items, indices)) == multiset(items)
  {
    SamePicks(items, indices, Identity(|items|));
    assert Pick(items, Identity(|items|)) == items;
  }

  lemma {:induction false} IdentityHoldsOnce(n: nat, x: int)
    ensures multiset(Identity(n))[x] == if 0 <= x < n then 1 else 0
  {
    if n > 0 {
      IdentityHoldsOnce(n - 1, x);
      assert Identity(n) == Identity(n - 1) + [n - 1];
    }
  }

  /** When the first `k` entries rearrange 0, ..., k - 1, the entries after them are all at least `k`. */
  lemma LaterEntries(s: seq<int>, k: nat, i: nat)
    requires IsPermutation(s) && k <= i < |s| && IsPermutation(s[..k])
    ensures k <= s[i] < |s|
  {
    var x := s[i];
    PermutationRange(s, i);
    IdentityHoldsOnce(|s|, x);
    IdentityHoldsOnce(k, x);
    assert s == s[..k] + s[k..];
    assert s[k..][i - k] == x;
    assert x in multiset(s[k..]);
  }

  // ---------------------------------------------------------------- sums

  /** The sum of what `f` gives for each item. */
  ghost function Total<T(!new), U>(f: T -> multiset<U>, s: seq<T>): multiset<U> {
    if s == [] then multiset{} else Total(f, s[..|s| - 1]) + f(s[|s| - 1])
  }

  lemma {:induction false} TotalWithout<T(!new), U>(f: T -> multiset<U>, s: seq<T>, j: nat)
    requires j < |s|
    ensures Total(f, s) == Total(f, Without(s, j)) + f(s[j])
  {
    var n := |s| - 1;
    if j < n {
      TotalWithout(f, s[..n], j);
      assert Without(s, j)[..n - 1] == Without(s[..n], j);
    } else {
      assert Without(s, j) == s[..n];
    }
  }

  /** The order does not matter. */
  lemma {:induction false} TotalOfPermutation<T(!new), U>(f: T -> multiset<U>, a: seq<T>, b: seq<T>)
    requires multiset(a) == multiset(b)
    ensures Total(f, a) == Total(f, b)
    decreases |a|
  {
    if a == [] {
      assert |multiset(b)| == 0;
      assert b == [];
    } else {
      assert a[0] in multiset(b);
      var j :| 0 <= j < |b| && b[j] == a[0];
      RemoveAt(a, 0);
      RemoveAt(b, j);
      Cancel(multiset(Without(a, 0)), multiset(Without(b, j)), a[0]);
      TotalOfPermutation(f, Without(a, 0), Without(b, j));
      TotalWithout(f, a, 0);
      TotalWithout(f, b, j);
    }
  }

  lemma {:induction false} TotalAgrees<T(!new), U>(f: T -> multiset<U>, a: seq<T>, b: seq<T>)
    requires |a| == |b| && forall i | 0 <= i < |a| :: f(a[i]) == f(b[i])
    ensures Total(f, a) == Total(f, b)
  {
    if a != [] {
      TotalAgrees(f, a[..|a| - 1], b[..|b| - 1]);
    }
  }
}
