/** Three ways to decide primality, and a table that combines two of them. */
module Primes {

  ghost predicate Divides(d: int, n: int)
    requires d > 0
  {
    n % d == 0
  }

  ghost predicate IsPrimeNumber(n: int) {
    n >= 2 && !HasFactorBelow(n, n)
  }

  /** Some number from 2 to below both `k` and `n` divides `n`. */
  ghost predicate HasFactorBelow(n: int, k: int) {
    exists d :: 2 <= d < k && d < n && Divides(d, n)
  }

  lemma DividesTransitively(d: int, m: int, n: int)
    requires d > 0 && m > 0 && Divides(d, m) && Divides(m, n)
    ensures Divides(d, n)
  {
    assert m == d * (m / d) && n == m * (n / m);
    assert n == d * ((m / d) * (n / m));
    MultipleIsDivided(d, (m / d) * (n / m));
  }

  lemma MoreTimes(a: int, b: int, c: int)
    requires a <= b && c >= 0
    ensures c * a <= c * b
  {
    ProductIsNonNegative(c, b - a);
    assert c * (b - a) == c * b - c * a;
  }

  lemma {:induction false} ProductIsNonNegative(c: nat, n: nat)
    ensures c * n >= 0
  {
    if n > 0 {
      ProductIsNonNegative(c, n - 1);
      assert c * n == c * (n - 1) + c;
    }
  }

  lemma MultipleIsDivided(d: int, k: int)
    requires d > 0
    ensures Divides(d, d * k)
  {
    var q, r := d * k / d, d * k % d;
    assert d * k == d * q + r && 0 <= r < d;
    assert d * (q + 1) == d * q + d && d * (k + 1) == d * k + d;
    if q < k {
      MoreTimes(q + 1, k, d);
    } else if k < q {
      MoreTimes(k + 1, q, d);
    }
  }

  /** Every number from 2 on has a prime factor. */
  lemma {:induction false} HasPrimeFactor(n: int) returns (q: int)
    requires n >= 2
    ensures 2 <= q <= n && IsPrimeNumber(q) && Divides(q, n)
    decreases n
  {
    if IsPrimeNumber(n) {
      q := n;
    } else {
      var d :| 2 <= d < n && Divides(d, n);
      q := HasPrimeFactor(d);
      DividesTransitively(q, d, n);
    }
  }

  lemma SquareGrows(a: int, b: int)
    requires 0 <= a <= b
    ensures a * a <= b * b
  {
    MoreTimes(a, b, a);
    MoreTimes(a, b, b);
  }

  /** Of a pair of factors one has a square that is not beyond their product. */
  lemma SmallFactor(n: int, d: int) returns (e: int)
    requires n >= 2 && 2 <= d < n && Divides(d, n)
    ensures 2 <= e && e * e <= n && Divides(e, n)
  {
    var c := n / d;
    assert n == d * c && d * c == c * d;
    if d * d <= n {
      e := d;
    } else {
      e := c;
      CofactorBounds(d, c);
      MultipleIsDivided(c, d);
    }
  }

  lemma CofactorBounds(d: int, c: int)
    requires 2 <= d < d * c < d * d
    ensures 2 <= c && c * c <= d * c
  {
    if c < 2 {
      MoreTimes(c, 1, d);
    } else if c >= d {
      MoreTimes(d, c, d);
    } else {
      MoreTimes(c, d, c);
    }
  }

  ghost function Factorial(n: nat): nat
    ensures Factorial(n) >= 1
  {
    if n == 0 then 1 else n * Factorial(n - 1)
  }

  lemma {:induction false} FactorialIsDivided(n: nat, d: nat)
    requires 1 <= d <= n
    ensures Divides(d, Factorial(n))
  {
    if d == n {
      MultipleIsDivided(d, Factorial(n - 1));
    } else {
      FactorialIsDivided(n - 1, d);
      var k := Factorial(n - 1) / d;
      assert Factorial(n - 1) == d * k;
      assert Factorial(n) == d * (n * k);
      MultipleIsDivided(d, n * k);
    }
  }

  lemma NextIsNotDivided(q: int, n: int)
    requires q >= 2 && Divides(q, n)
    ensures !Divides(q, n + 1)
  {
    var k, m := n / q, (n + 1) / q;
    assert n == q * k;
    if Divides(q, n + 1) {
      DifferenceOfMultiples(q, m, k);
    }
  }

  lemma DifferenceOfMultiples(q: int, m: int, k: int)
    requires q >= 2
    ensures q * m != q * k + 1
  {
    if m <= k {
      MoreTimes(m, k, q);
    } else {
      MoreTimes(k + 1, m, q);
      assert q * (k + 1) == q * k + q;
    }
  }

  /** There is always a larger prime. */
  lemma PrimesNeverEnd(p: nat) returns (q: int)
    ensures q > p && IsPrimeNumber(q)
  {
    q := HasPrimeFactor(Factorial(p) + 1);
    if q <= p {
      FactorialIsDivided(p, q);
      NextIsNotDivided(q, Factorial(p));
    }
  }

  // ---------- Trial division ----------

  /** Looking for factors up to the square root is enough. */
  lemma RootBoundsSearch(n: int, i: int)
    requires n >= 2 && i >= 2 && !HasFactorBelow(n, i) && i * i > n
    ensures IsPrimeNumber(n)
  {
    if HasFactorBelow(n, n) {
      var d :| 2 <= d < n && Divides(d, n);
      var e := SmallFactor(n, d);
      MoreTimes(2, e, e);
      if e >= i {
        SquareGrows(i, e);
      }
    }
  }

  /** `OnTheFlyPrimeTable::IsPrime` */
  method IsPrimeByTrial(n: int) returns (prime: bool)
    ensures prime <==> IsPrimeNumber(n)
  {
    if n <= 1 {
      return false;
    }
    var i := 2;
    while i * i <= n
      invariant i >= 2 && !HasFactorBelow(n, i)
      decreases n - i
    {
      assert i < i * i;
      if n % i == 0 {
        assert Divides(i, n);
        return false;
      }
      i := i + 1;
    }
    RootBoundsSearch(n, i);
    return true;
  }

  lemma OddHasNoEvenFactor(n: int, d: int)
    requires d > 0 && n % 2 == 1 && d % 2 == 0
    ensures !Divides(d, n)
  {
    if Divides(d, n) {
      DividesTransitively(2, d, n);
    }
  }

  /** `IsPrime` of sample 1: odd numbers only, up to the square root. */
  method IsPrimeByOddTrial(n: int) returns (prime: bool)
    ensures prime <==> IsPrimeNumber(n)
  {
    if n <= 1 {
      return false;
    }
    if n % 2 == 0 {
      assert Divides(2, n);
      return n == 2;
    }
    var i := 3;
    OddHasNoEvenFactor(n, 2);
    while true
      invariant i >= 3 && i % 2 == 1 && i <= n && !HasFactorBelow(n, i)
      decreases n - i
    {
      if i > n / i {
        PastTheRoot(n, i);
        break;
      }
      if n % i == 0 {
        assert Divides(i, n);
        FactorIsProper(n, i);
        return false;
      }
      FactorIsProper(n, i);
      OddHasNoEvenFactor(n, i + 1);
      i := i + 2;
    }
    RootBoundsSearch(n, i);
    return true;
  }

  lemma PastTheRoot(n: int, i: int)
    requires i >= 1 && n >= 0 && i > n / i
    ensures i * i > n
  {
    assert n == i * (n / i) + n % i;
    MoreTimes(n / i, i - 1, i);
    assert i * (i - 1) == i * i - i;
  }

  lemma FactorIsProper(n: int, i: int)
    requires i >= 3 && i <= n / i
    ensures i * 3 <= n && i + 2 <= n && i < n
  {
    assert n >= i * (n / i);
    assert i * (n / i) >= i * i >= i * 3;
  }

  /** `q` is the smallest prime greater than `p`. */
  ghost predicate IsNextPrime(p: int, q: int) {
    q > p && IsPrimeNumber(q) && forall n :: p < n < q ==> !IsPrimeNumber(n)
  }

  /** What the search on the fly answers: its loop does not start below 1. */
  ghost predicate IsFoundOnTheFly(p: int, q: int) {
    if p >= 0 then IsNextPrime(p, q) else q == -1
  }

  /** `OnTheFlyPrimeTable::GetNextPrime` on unbounded integers. */
  method NextPrimeByTrial(p: int) returns (q: int)
    ensures IsFoundOnTheFly(p, q)
  {
    var n := p + 1;
    if n <= 0 {
      return -1;
    }
    ghost var bound := PrimesNeverEnd(p);
    while true
      invariant p < n <= bound
      invariant forall m :: p < m < n ==> !IsPrimeNumber(m)
      decreases bound - n
    {
      var prime := IsPrimeByTrial(n);
      if prime {
        return n;
      }
      n := n + 1;
    }
  }

  // ---------- The sieve ----------

  /** The largest multiple of `i` crossed out so far is below `j`. */
  ghost predicate IsCrossedOut(m: int, i: int, j: int)
    requires i > 0
  {
    i < m < j && Divides(i, m)
  }

  lemma NextMultiple(i: int, j: int, m: int)
    requires i >= 2 && Divides(i, j) && j <= m < j + i && Divides(i, m)
    ensures m == j
  {
    assert j == i * (j / i) && m == i * (m / i);
    if m / i > j / i {
      MoreTimes(j / i + 1, m / i, i);
    } else if m / i < j / i {
      MoreTimes(m / i, j / i, i);
    }
  }

  lemma StepsOfMultiples(i: int, j: int)
    requires i >= 2 && Divides(i, j)
    ensures Divides(i, j + i)
  {
    assert j == i * (j / i);
    assert j + i == i * (j / i + 1);
    MultipleIsDivided(i, j / i + 1);
  }

  /** A number that has a factor `i` has one below `i` if `i` itself does. */
  lemma CompositeFactor(m: int, i: int)
    requires 2 <= i < m && Divides(i, m) && HasFactorBelow(i, i)
    ensures HasFactorBelow(m, i)
  {
    var d :| 2 <= d < i && Divides(d, i);
    DividesTransitively(d, i, m);
  }

  lemma OneMoreFactor(i: int)
    requires i >= 2
    ensures forall m :: HasFactorBelow(m, i + 1) <==> HasFactorBelow(m, i) || (i < m && Divides(i, m))
  {
  }

  class SieveTable {
    const size: int
    const isPrime: array<bool>

    ghost predicate Valid()
      reads isPrime
    {
      && size == isPrime.Length >= 2
      && forall n :: 0 <= n < size ==> (isPrime[n] <==> IsPrimeNumber(n))
    }

    /** The table needs room for 0 and 1. */
    constructor (max: int)
      requires max >= 1
      ensures Valid() && size == max + 1 && fresh(isPrime)
    {
      size := max + 1;
      isPrime := new bool[max + 1](_ => true);
      new;
      CalculatePrimesUpTo(max);
    }

    method CalculatePrimesUpTo(max: int)
      requires 1 <= max == isPrime.Length - 1 && size == max + 1
      requires forall n :: 0 <= n <= max ==> isPrime[n]
      modifies isPrime
      ensures Valid()
    {
      isPrime[0], isPrime[1] := false, false;
      for i := 2 to max + 1
        invariant !isPrime[0] && !isPrime[1]
        invariant forall n :: 2 <= n <= max ==> (isPrime[n] <==> !HasFactorBelow(n, i))
      {
        OneMoreFactor(i);
        if isPrime[i] {
          CrossOut(max, i);
        } else {
          forall m | i < m <= max && Divides(i, m)
            ensures HasFactorBelow(m, i)
          {
            CompositeFactor(m, i);
          }
        }
      }
      forall n | 2 <= n <= max
        ensures HasFactorBelow(n, max + 1) <==> HasFactorBelow(n, n)
      {
        EnoughFactors(n, max + 1);
      }
    }

    /** Marks all multiples of `i` except `i` itself. */
    method CrossOut(max: int, i: int)
      requires 2 <= i <= max == isPrime.Length - 1
      modifies isPrime
      ensures forall n :: 0 <= n <= max ==> (isPrime[n] <==> old(isPrime[n]) && !IsCrossedOut(n, i, max + 1))
    {
      var j := 2 * i;
      MultipleIsDivided(i, 2);
      FirstMultiple(i);
      while j <= max
        invariant 2 * i <= j && Divides(i, j)
        invariant forall n :: 0 <= n <= max ==> (isPrime[n] <==> old(isPrime[n]) && !IsCrossedOut(n, i, j))
      {
        forall n | j <= n < j + i && Divides(i, n)
          ensures n == j
        {
          NextMultiple(i, j, n);
        }
        StepsOfMultiples(i, j);
        isPrime[j] := false;
        j := j + i;
      }
    }

    method IsPrime(n: int) returns (prime: bool)
      requires Valid()
      ensures prime <==> n < size && IsPrimeNumber(n)
    {
      return 0 <= n < size && isPrime[n];
    }

    /** -1 if the next prime is beyond the table. */
    method GetNextPrime(p: int) returns (q: int)
      requires Valid() && p >= -1
      ensures q == -1 || (q < size && IsNextPrime(p, q))
      ensures q == -1 ==> forall n :: p < n < size ==> !IsPrimeNumber(n)
    {
      var n := p + 1;
      while n < size
        invariant p < n
        invariant forall m :: p < m < n && m < size ==> !IsPrimeNumber(m)
      {
        if isPrime[n] {
          return n;
        }
        n := n + 1;
      }
      return -1;
    }
  }

  lemma FirstMultiple(i: int)
    requires i >= 2
    ensures forall n :: !IsCrossedOut(n, i, 2 * i)
  {
    forall n
      ensures !IsCrossedOut(n, i, 2 * i)
    {
      if IsCrossedOut(n, i, 2 * i) {
        MultipleIsDivided(i, 1);
        NextMultiple(i, i, n);
      }
    }
  }

  lemma EnoughFactors(n: int, k: int)
    requires 2 <= n <= k
    ensures HasFactorBelow(n, k) <==> HasFactorBelow(n, n)
  {
  }

  // ---------- The hybrid ----------

  /** Uses the sieve below its limit, if there is one, and trial division elsewhere. */
  class HybridTable {
    const precalculated: SieveTable?
    const maxPrecalculated: int

    ghost predicate Valid()
      reads if precalculated == null then {} else {precalculated.isPrime}
    {
      precalculated != null ==> precalculated.Valid() && precalculated.size == maxPrecalculated + 1
    }

    constructor (forceOnTheFly: bool, maxPrecalculated: int)
      requires !forceOnTheFly ==> maxPrecalculated >= 1
      ensures Valid() && this.maxPrecalculated == maxPrecalculated
      ensures precalculated == null <==> forceOnTheFly
    {
      this.maxPrecalculated := maxPrecalculated;
      if forceOnTheFly {
        precalculated := null;
      } else {
        precalculated := new SieveTable(maxPrecalculated);
      }
    }

    method IsPrime(n: int) returns (prime: bool)
      requires Valid()
      ensures prime <==> IsPrimeNumber(n)
    {
      if precalculated != null && n < maxPrecalculated {
        prime := precalculated.IsPrime(n);
      } else {
        prime := IsPrimeByTrial(n);
      }
    }

    /** Agrees with the search on the fly, except at -1 when a table with room for 2 finds 2 there. */
    method GetNextPrime(p: int) returns (q: int)
      requires Valid() && (precalculated != null ==> p >= -1)
      ensures IsFoundOnTheFly(p, q) <==> p >= 0 || precalculated == null || maxPrecalculated < 2
      ensures !IsFoundOnTheFly(p, q) ==> p == -1 && q == 2
    {
      q := -1;
      if precalculated != null && p < maxPrecalculated {
        q := precalculated.GetNextPrime(p);
        if p == -1 {
          TwoIsFirst(q);
        }
      }
      if q == -1 {
        q := NextPrimeByTrial(p);
      }
    }
  }

  /** The first prime is 2. */
  lemma TwoIsFirst(q: int)
    ensures IsPrimeNumber(2)
    ensures IsNextPrime(-1, q) <==> q == 2
  {
    assert IsPrimeNumber(2);
    assert IsNextPrime(-1, 2);
    if IsNextPrime(-1, q) {
      NextPrimeIsUnique(-1, q, 2);
    }
  }

  /** There is one next prime, so all tables that find it agree. */
  lemma NextPrimeIsUnique(p: int, q: int, r: int)
    requires IsNextPrime(p, q) && IsNextPrime(p, r)
    ensures q == r
  {
  }
}
