/** Prime tables: trial division, the sieve, and the hybrid of the two. Integers are unbounded here. */
module PrimeTables {
  import opened Division

  ghost predicate Divides(m: nat, n: nat)
    requires m > 0
  {
    n % m == 0
  }

  ghost predicate IsPrimeNumber(n: int) {
    n >= 2 && forall m :: 2 <= m < n ==> !Divides(m, n)
  }

  ghost predicate IsLeastPrimeAbove(p: int, q: int) {
    q > p && IsPrimeNumber(q) && forall n :: p < n < q ==> !IsPrimeNumber(n)
  }

  // ---------------------------------------------------------------- divisibility

  lemma MultipleDivides(k: nat, m: nat)
    requires m > 0
    ensures Divides(m, k * m)
  {
    if k > 0 {
      MultipleDivides(k - 1, m);
      assert k * m == (k - 1) * m + m;
      AddKeepsRemainder((k - 1) * m, m);
    } else {
      assert k * m == 0;
    }
  }

  lemma AddKeepsRemainder(a: nat, m: nat)
    requires m > 0
    ensures (a + m) % m == a % m
  {
    assert a == m * (a / m) + a % m;
    var q, r := a / m, a % m;
    assert a + m == m * (q + 1) + r by { assert m * (q + 1) == m * q + m; }
    DivisionUnique(a + m, m, q + 1, r);
  }

  lemma Quotient(m: nat, n: nat) returns (k: nat)
    requires m > 0 && Divides(m, n)
    ensures n == k * m
  {
    k := n / m;
    assert n == m * (n / m) + n % m;
  }

  lemma DividesTransitive(a: nat, b: nat, c: nat)
    requires a > 0 && b > 0 && Divides(a, b) && Divides(b, c)
    ensures Divides(a, c)
  {
    var k := Quotient(a, b);
    var l := Quotient(b, c);
    assert c == l * (k * a) == (l * k) * a;
    MultipleDivides(l * k, a);
  }

  lemma DividesSuccessor(m: nat, n: nat)
    requires m > 1 && Divides(m, n)
    ensures !Divides(m, n + 1)
  {
    var k := Quotient(m, n);
    assert n + 1 == m * k + 1;
    DivisionUnique(n + 1, m, k, 1);
  }

  // ---------------------------------------------------------------- trial division

  /** A factor at or above the square root comes with one below it. */
  lemma SmallFactor(n: nat, m: nat, i: nat)
    requires 2 <= i <= m < n && i * i > n && Divides(m, n)
    ensures exists k :: 2 <= k < i && Divides(k, n)
  {
    var k := Quotient(m, n);
    Cofactor(k, m, i);
    assert n == m * k;
    MultipleDivides(m, k);
  }

  lemma Cofactor(k: nat, m: nat, i: nat)
    requires i <= m
    ensures k >= i ==> k * m >= i * i
    ensures k <= 1 ==> k * m <= m
  {
    if k >= i { MulGrows(i, k, i, m); }
  }

  lemma MulGrows(a: nat, b: nat, c: nat, d: nat)
    requires a <= b && c <= d
    ensures a * c <= b * d
  {
    assert a * c <= b * c by { assert (b - a) * c >= 0; }
    assert b * c <= b * d by { assert b * (d - c) >= 0; }
  }

  lemma TrialDivisionSuffices(n: nat, i: nat)
    requires n >= 2 && i >= 2 && i * i > n
    requires forall m :: 2 <= m < i && m < n ==> !Divides(m, n)
    ensures IsPrimeNumber(n)
  {
    forall m | 2 <= m < n ensures !Divides(m, n) {
      if m >= i && Divides(m, n) {
        SmallFactor(n, m, i);
      }
    }
  }

  class OnTheFlyPrimeTable {
    constructor () {}

    method IsPrime(n: int) returns (r: bool)
      ensures r <==> IsPrimeNumber(n)
    {
      if n <= 1 {
        return false;
      }
      var i := 2;
      while i * i <= n
        invariant i >= 2
        invariant forall m :: 2 <= m < i && m < n ==> !Divides(m, n)
        decreases n - i
      {
        Below(i, n);
        if n % i == 0 {
          assert Divides(i, n);
          return false;
        }
        assert !Divides(i, n);
        i := i + 1;
      }
      TrialDivisionSuffices(n, i);
      return true;
    }

    /** Ends for every argument, since there is always a further prime; finds the least one above `p` if
        and only if `p` is not negative. */
    method GetNextPrime(p: int) returns (r: int)
      ensures p >= 0 ==> IsLeastPrimeAbove(p, r)
      ensures p < 0 ==> r == -1
    {
      var n := p + 1;
      ghost var bound := PrimeAbove(if p < 0 then 0 else p);
      while n > 0
        invariant p >= 0 ==> p < n <= bound
        invariant p < 0 ==> n == p + 1
        invariant forall k :: p < k < n ==> !IsPrimeNumber(k)
        decreases bound - n
      {
        var prime := IsPrime(n);
        if prime {
          return n;
        }
        n := n + 1;
      }
      return -1;
    }
  }

  lemma Below(i: nat, n: nat)
    requires i >= 2 && i * i <= n
    ensures i < n
  {
    assert i * i >= 2 * i by { MulGrows(2, i, i, i); }
  }

  // ---------------------------------------------------------------- odd trial division

  lemma EvenFactor(m: nat, n: nat)
    requires m > 0 && m % 2 == 0 && Divides(m, n)
    ensures n % 2 == 0
  {
    assert Divides(2, m);
    DividesTransitive(2, m, n);
  }

  lemma SquareBound(i: nat, n: nat)
    requires i > 0
    ensures i > n / i <==> i * i > n
  {
    var q, r := n / i, n % i;
    assert n == i * q + r;
    if i > q {
      MulGrows(q + 1, i, i, i);
      assert (q + 1) * i == i * q + i;
    } else {
      MulGrows(i, q, i, i);
    }
  }

  ghost predicate Odd(m: nat) { m % 2 == 1 }

  ghost predicate NoOddFactorBelow(i: nat, n: nat) {
    forall m :: 2 <= m < i && m < n && Odd(m) ==> !Divides(m, n)
  }

  lemma NextOdd(i: nat, n: nat)
    requires Odd(i) && NoOddFactorBelow(i, n) && i >= 3 && !Divides(i, n)
    ensures Odd(i + 2) && NoOddFactorBelow(i + 2, n)
  {
    forall m | 2 <= m < i + 2 && m < n && Odd(m) ensures !Divides(m, n) {
      assert m != i + 1;
    }
  }

  lemma OddTrialDivisionSuffices(n: nat, i: nat)
    requires n >= 3 && Odd(n) && i >= 3 && i * i > n && NoOddFactorBelow(i, n)
    ensures IsPrimeNumber(n)
  {
    forall m | 2 <= m < i && m < n ensures !Divides(m, n) {
      if !Odd(m) && Divides(m, n) {
        EvenFactor(m, n);
      }
    }
    TrialDivisionSuffices(n, i);
  }

  /** Trial division by 2 and the odd numbers up to the square root. */
  method IsPrime(n: int) returns (r: bool)
    ensures r <==> IsPrimeNumber(n)
  {
    if n <= 1 {
      return false;
    }
    if n % 2 == 0 {
      assert Divides(2, n);
      return n == 2;
    }
    var i := 3;
    while true
      invariant i >= 3 && Odd(i) && NoOddFactorBelow(i, n)
      decreases n - i
    {
      SquareBound(i, n);
      if i > n / i {
        break;
      }
      Below(i, n);
      if n % i == 0 {
        assert Divides(i, n);
        return false;
      }
      assert !Divides(i, n);
      NextOdd(i, n);
      i := i + 2;
    }
    OddTrialDivisionSuffices(n, i);
    return true;
  }

  // ---------------------------------------------------------------- there is always a further prime

  function Factorial(n: nat): (f: nat)
    ensures f >= 1
  {
    if n == 0 then 1 else n * Factorial(n - 1)
  }

  lemma FactorialMultiple(n: nat, m: nat)
    requires 1 <= m <= n
    ensures Divides(m, Factorial(n))
  {
    if m == n {
      assert Factorial(n) == Factorial(n - 1) * n;
      MultipleDivides(Factorial(n - 1), n);
    } else {
      FactorialMultiple(n - 1, m);
      MultipleDivides(n, Factorial(n - 1));
      DividesTransitive(m, Factorial(n - 1), Factorial(n));
    }
  }

  lemma PrimeFactor(n: nat) returns (q: nat)
    requires n >= 2
    ensures 2 <= q <= n && IsPrimeNumber(q) && Divides(q, n)
  {
    if IsPrimeNumber(n) {
      q := n;
    } else {
      var m :| 2 <= m < n && Divides(m, n);
      q := PrimeFactor(m);
      DividesTransitive(q, m, n);
    }
  }

  /** Euclid: above every number there is a prime, at most one more than its factorial. */
  lemma PrimeAbove(p: nat) returns (q: nat)
    ensures p < q <= Factorial(p) + 1 && IsPrimeNumber(q)
  {
    q := PrimeFactor(Factorial(p) + 1);
    if q <= p {
      FactorialMultiple(p, q);
      DividesSuccessor(q, Factorial(p));
    }
  }

  // ---------------------------------------------------------------- the sieve

  /** `k` has no divisor from 2 up to `i`, itself left aside. */
  ghost predicate Unmarked(k: nat, i: nat) {
    k >= 2 && forall m :: 2 <= m < i && m < k ==> !Divides(m, k)
  }

  /** The multiples of a number that is marked are marked already. */
  lemma MarkedMultiples(k: nat, i: nat)
    requires 2 <= i && !Unmarked(i, i)
    ensures Unmarked(k, i) <==> Unmarked(k, i + 1)
  {
    if Unmarked(k, i) && i < k && Divides(i, k) {
      var m :| 2 <= m < i && Divides(m, i);
      DividesTransitive(m, i, k);
    }
  }

  /** What is left of the unmarked numbers when the multiples of `i` have been cleared up to `j`. */
  ghost predicate LeftBelow(k: nat, i: nat, j: nat)
    requires i > 0
  {
    Unmarked(k, i) && !(i < k < j && Divides(i, k))
  }

  /** Between two multiples there is none. */
  lemma NextMultiple(i: nat, q: nat, j: nat, k: nat)
    requires i >= 2 && q >= 2 && j == q * i
    ensures LeftBelow(k, i, j + i) <==> LeftBelow(k, i, j) && k != j
  {
    MultipleAtLeast(q, i);
    if k == j {
      MultipleDivides(q, i);
    } else if j < k < j + i {
      DivisionUnique(k, i, q, k - j);
      assert !Divides(i, k);
    }
  }

  lemma FirstMultiple(k: nat, i: nat)
    requires 2 <= i
    ensures LeftBelow(k, i, 2 * i) <==> Unmarked(k, i)
  {
    if i < k < 2 * i {
      DivisionUnique(k, i, 1, k - i);
    }
  }

  lemma AllCleared(k: nat, i: nat, j: nat)
    requires 2 <= i && k < j
    ensures LeftBelow(k, i, j) <==> Unmarked(k, i + 1)
  {
  }

  class PreCalculatedPrimeTable {
    const size: nat
    const isPrime: array<bool>

    /** The table marks exactly the primes it has room for. */
    ghost predicate Valid()
      reads this, isPrime
    {
      isPrime.Length == size && forall k: nat :: k < size ==> (isPrime[k] <==> IsPrimeNumber(k))
    }

    constructor (max: int)
      requires max >= 1
      ensures Valid() && size == max + 1 && fresh(isPrime)
    {
      size := max + 1;
      isPrime := new bool[max + 1];
      new;
      CalculatePrimesUpTo(max);
    }

    method CalculatePrimesUpTo(max: int)
      requires max >= 1 && size == max + 1 == isPrime.Length
      modifies isPrime
      ensures Valid()
    {
      forall k | 0 <= k < size {
        isPrime[k] := true;
      }
      isPrime[0], isPrime[1] := false, false;
      var i := 2;
      while i <= max
        invariant 2 <= i <= max + 1
        invariant forall k: nat :: k < size ==> (isPrime[k] <==> Unmarked(k, i))
      {
        if isPrime[i] {
          MarkMultiples(i, max);
        } else {
          forall k: nat ensures Unmarked(k, i) <==> Unmarked(k, i + 1) {
            MarkedMultiples(k, i);
          }
        }
        i := i + 1;
      }
      forall k: nat | k < size ensures Unmarked(k, i) <==> IsPrimeNumber(k) {
      }
    }

    /** The inner loop: clears the entries of all multiples of `i` except `i` itself. */
    method MarkMultiples(i: int, max: int)
      requires 2 <= i <= max && size == max + 1 == isPrime.Length
      requires forall k: nat :: k < size ==> (isPrime[k] <==> Unmarked(k, i))
      modifies isPrime
      ensures forall k: nat :: k < size ==> (isPrime[k] <==> Unmarked(k, i + 1))
    {
      var j := 2 * i;
      ghost var q := 2;
      forall k: nat ensures LeftBelow(k, i, j) <==> Unmarked(k, i) {
        FirstMultiple(k, i);
      }
      while j <= max
        invariant j == q * i && q >= 2
        invariant forall k: nat :: k < size ==> (isPrime[k] <==> LeftBelow(k, i, j))
        decreases max - j
      {
        forall k: nat ensures LeftBelow(k, i, j + i) <==> LeftBelow(k, i, j) && k != j {
          NextMultiple(i, q, j, k);
        }
        assert (q + 1) * i == q * i + i;
        isPrime[j] := false;
        j := j + i;
        q := q + 1;
      }
      forall k: nat | k < size ensures isPrime[k] <==> Unmarked(k, i + 1) {
        AllCleared(k, i, j);
      }
    }

    method IsPrime(n: int) returns (r: bool)
      requires Valid()
      ensures r <==> n < size && IsPrimeNumber(n)
    {
      return 0 <= n < size && isPrime[n];
    }

    /** The least prime above `p` in the table, or -1. The read at `p + 1` needs that to be an index. */
    method GetNextPrime(p: int) returns (r: int)
      requires Valid() && p >= -1
      ensures r == -1 || (r < size && IsLeastPrimeAbove(p, r))
      ensures r == -1 <==> forall q :: p < q < size ==> !IsPrimeNumber(q)
    {
      var n := p + 1;
      while n < size
        invariant n > p
        invariant forall k :: p < k < n && k < size ==> !IsPrimeNumber(k)
      {
        if isPrime[n] {
          return n;
        }
        n := n + 1;
      }
      return -1;
    }
  }

  // ---------------------------------------------------------------- the hybrid

  class HybridPrimeTable {
    const onTheFly: OnTheFlyPrimeTable
    const precalc: PreCalculatedPrimeTable?
    const maxPrecalculated: int

    ghost predicate Valid()
      reads precalc, if precalc != null then {precalc.isPrime} else {}
    {
      precalc != null ==> precalc.Valid() && precalc.size == maxPrecalculated + 1 >= 2
    }

    constructor (forceOnTheFly: bool, max: int)
      requires forceOnTheFly || max >= 1
      ensures Valid() && maxPrecalculated == max && (precalc == null <==> forceOnTheFly)
    {
      onTheFly := new OnTheFlyPrimeTable();
      maxPrecalculated := max;
      if forceOnTheFly {
        precalc := null;
      } else {
        precalc := new PreCalculatedPrimeTable(max);
      }
    }

    method IsPrime(n: int) returns (r: bool)
      requires Valid()
      ensures r <==> IsPrimeNumber(n)
    {
      if precalc != null && n < maxPrecalculated {
        r := precalc.IsPrime(n);
      } else {
        r := onTheFly.IsPrime(n);
      }
    }

    /** The answer of the on-the-fly table for every `p` from 0 on, with or without the table. At -1 the
        two differ: only the sieve knows the first prime. */
    method GetNextPrime(p: int) returns (r: int)
      requires Valid() && (precalc != null && p < maxPrecalculated ==> p >= -1)
      ensures p >= 0 ==> IsLeastPrimeAbove(p, r)
      ensures p < 0 ==> r == if precalc != null && p < maxPrecalculated && maxPrecalculated >= 2 then 2 else -1
    {
      var nextPrime := -1;
      assert IsPrimeNumber(2);
      if precalc != null && p < maxPrecalculated {
        nextPrime := precalc.GetNextPrime(p);
      }
      if nextPrime != -1 {
        return nextPrime;
      }
      r := onTheFly.GetNextPrime(p);
    }
  }

  /** The least prime above a number is unique, so all tables that find it give the same answer. */
  lemma LeastPrimeUnique(p: int, a: int, b: int)
    requires IsLeastPrimeAbove(p, a) && IsLeastPrimeAbove(p, b)
    ensures a == b
  {
    assert !(p < a < b) && !(p < b < a);
  }
}
