/**
 The fixed-base Miller-Rabin test of common.go: 128-bit modular multiplication,
 modular exponentiation, the squaring loop for one base and the test itself.
 */
module Primality {
  import opened Base
  import opened ModArith

  // ---------- math/bits ----------

  /** The 128-bit product of two 64-bit words, as high and low word. */
  function Mul64(a: uint64, b: uint64): (r: (uint64, uint64))
    ensures r.0 * TWO_64 + r.1 == a * b
  {
    ProductFits(a, b);
    (a * b / TWO_64, a * b % TWO_64)
  }

  lemma ProductFits(a: uint64, b: uint64)
    ensures 0 <= a * b / TWO_64 < TWO_64
  {
    assert a * b <= a * (TWO_64 - 1) by { BoundProduct(a, b, TWO_64 - 1); }
    assert 0 <= a * b;
    assert a * (TWO_64 - 1) < TWO_64 * TWO_64;
  }

  lemma BoundProduct(a: nat, b: nat, c: nat)
    requires b <= c
    ensures a * b <= a * c
  {
  }

  /** Quotient and remainder of hi:lo by y. The original panics unless hi < y. */
  function Div64(hi: uint64, lo: uint64, y: uint64): (r: (uint64, uint64))
    requires hi < y
    ensures r.0 * y + r.1 == hi * TWO_64 + lo && r.1 < y
  {
    var x := hi * TWO_64 + lo;
    assert hi * TWO_64 + lo < y * TWO_64;
    QuotientFits(x, y);
    (x / y, x % y)
  }

  lemma QuotientFits(x: nat, y: nat)
    requires 0 < y && x < y * TWO_64
    ensures 0 <= x / y < TWO_64
  {
  }

  // ---------- modular multiplication and exponentiation ----------

  /** The division does not panic exactly when the high word is below the modulus. */
  ghost predicate NoDivPanic(a: uint64, b: uint64, mod: uint64) {
    Mul64(a, b).0 < mod
  }

  function MulMod(a: uint64, b: uint64, mod: uint64): (r: uint64)
    requires NoDivPanic(a, b, mod)
    ensures r == (a * b) % mod
  {
    var (hi, lo) := Mul64(a, b);
    var (q, rem) := Div64(hi, lo, mod);
    assert rem == (a * b) % mod by { ModUnique(a * b, q, rem, mod); }
    rem
  }

  /** Factors up to the modulus, one of them below it, never make the division panic. */
  lemma ReducedFactorsDoNotPanic(a: uint64, b: uint64, mod: uint64)
    requires a <= mod && b < mod
    ensures NoDivPanic(a, b, mod)
  {
    BoundProduct(a, b, TWO_64 - 1);
    assert a * (TWO_64 - 1) < mod * TWO_64;
    var (hi, lo) := Mul64(a, b);
  }

  method ModExp(base: uint64, exp: uint64, mod: uint64) returns (result: uint64)
    requires mod > 0
    ensures result == Pow(base, exp) % mod <==> mod > 1 || exp > 0
    ensures mod == 1 && exp == 0 ==> result == 1
  {
    result := 1;
    var b: uint64 := base % mod;
    var e := exp;
    PowMod(base, exp, mod);
    while e > 0
      invariant 0 <= e <= exp && b < mod
      invariant result < mod || (result == 1 && (e > 0 || exp == 0))
      invariant exp == 0 ==> result == 1
      invariant (result * Pow(b, e)) % mod == Pow(base, exp) % mod
    {
      SquareStep(result, b, e, mod);
      if e % 2 == 1 {
        ReducedFactorsDoNotPanic(result, b, mod);
        result := MulMod(result, b, mod);
      }
      ReducedFactorsDoNotPanic(b, b, mod);
      b := MulMod(b, b, mod);
      e := e / 2;
    }
    if result < mod {
      ModUnique(result, 0, result, mod);
    } else {
      assert mod == 1 && exp == 0 && Pow(base, exp) % mod == 0;
    }
  }

  /** One round of square-and-multiply keeps the value still owed. */
  lemma SquareStep(r: uint64, b: uint64, e: uint64, m: uint64)
    requires e > 0 && m > 0
    ensures ((if e % 2 == 1 then (r * b) % m else r) * Pow((b * b) % m, e / 2)) % m == (r * Pow(b, e)) % m
  {
    var h := e / 2;
    var w := Pow(b * b, h);
    assert w == Pow(b, 2 * h) by {
      PowMul(b, 2, h);
      assert Pow(b, 2) == b * Pow(b, 1) == b * b;
    }
    PowMod(b * b, h, m);
    if e % 2 == 1 {
      assert Pow(b, e) == b * w by { assert e == 2 * h + 1; }
      CongruentProducts((r * b) % m, Pow((b * b) % m, h), r * b, w, m);
      assert (r * b) * w == r * (b * w);
    } else {
      CongruentProducts(r, Pow((b * b) % m, h), r, w, m);
    }
  }

  lemma CongruentProducts(a: int, b: int, c: int, d: int, m: int)
    requires m > 0 && (a % m == c % m || a == c % m) && b % m == d % m
    ensures (a * b) % m == (c * d) % m
  {
    ModUnique(c % m, 0, c % m, m);
    ModMul(a, b, m);
    ModMul(c, d, m);
  }

  // ---------- the test for one base ----------

  ghost function Pow2(i: nat): nat {
    if i == 0 then 1 else 2 * Pow2(i - 1)
  }

  /** n-1 is d * 2^r with d odd. */
  ghost predicate Decomposes(n: int, d: nat, r: nat) {
    d % 2 == 1 && n - 1 == d * Pow2(r)
  }

  /** a^(d * 2^i) modulo n. */
  ghost function Squaring(a: int, d: nat, i: nat, n: int): int
    requires n > 0
  {
    Pow(a, d * Pow2(i)) % n
  }

  lemma SquaringStep(a: int, d: nat, i: nat, n: int)
    requires n > 0
    ensures Squaring(a, d, i + 1, n) == (Squaring(a, d, i, n) * Squaring(a, d, i, n)) % n
  {
    var e := d * Pow2(i);
    assert d * Pow2(i + 1) == e + e;
    PowAdd(a, e, e);
    ModMul(Pow(a, e), Pow(a, e), n);
  }

  /** The condition of appendix C.3.1 of FIPS 186-4 for one base. */
  ghost predicate Passes(a: int, d: nat, n: int, r: nat)
    requires n > 1
  {
    Pow(a, d) % n == 1 || exists i :: 0 <= i < r && Squaring(a, d, i, n) == n - 1
  }

  method Check(a: uint64, d: uint64, n: uint64, r: int) returns (ok: bool)
    requires n > 1 && r >= 1
    ensures ok <==> Passes(a, d, n, r)
  {
    var x := ModExp(a, d, n);
    assert x == Squaring(a, d, 0, n) by { assert d * Pow2(0) == d; }
    if x == 1 || x == n - 1 {
      return true;
    }
    for i := 0 to r - 1
      invariant x == Squaring(a, d, i, n) && x < n
      invariant forall j :: 0 <= j <= i ==> Squaring(a, d, j, n) != n - 1
    {
      SquaringStep(a, d, i, n);
      ReducedFactorsDoNotPanic(x, x, n);
      x := MulMod(x, x, n);
      if x == n - 1 {
        return true;
      }
    }
    return false;
  }

  /** Wherever a square among a^d, a^(2d), a^(4d), ..., a^(n-1) is 1, its root is 1 or n-1. */
  ghost predicate OnlyTrivialRoots(a: int, d: nat, n: int, r: nat)
    requires n > 1
  {
    forall i :: 0 <= i < r && Squaring(a, d, i + 1, n) == 1 ==>
                  Squaring(a, d, i, n) == 1 || Squaring(a, d, i, n) == n - 1
  }

  /** From a power that is 1, walk down the square roots to a power that is 1 or n-1. */
  lemma {:induction false} WalkDown(a: int, d: nat, n: int, r: nat, i: nat)
    requires n > 1 && OnlyTrivialRoots(a, d, n, r) && i <= r && Squaring(a, d, i, n) == 1
    ensures Passes(a, d, n, r)
  {
    if i == 0 {
      assert d * Pow2(0) == d;
    } else {
      assert Squaring(a, d, i - 1, n) == 1 || Squaring(a, d, i - 1, n) == n - 1;
      if Squaring(a, d, i - 1, n) == 1 {
        WalkDown(a, d, n, r, i - 1);
      }
    }
  }

  lemma {:induction false} StaysOne(a: int, d: nat, n: int, i: nat, j: nat)
    requires n > 1 && i <= j && Squaring(a, d, i, n) == 1
    ensures Squaring(a, d, j, n) == 1
  {
    if i == j {
    } else {
      StaysOne(a, d, n, i, j - 1);
      SquaringStep(a, d, j - 1, n);
      ModUnique(1, 0, 1, n);
    }
  }

  /** The square of n-1 is 1. */
  lemma OneAfterMinusOne(a: int, d: nat, n: int, i: nat, j: nat)
    requires n > 1 && i < j && Squaring(a, d, i, n) == n - 1
    ensures Squaring(a, d, j, n) == 1
  {
    SquaringStep(a, d, i, n);
    ModUnique((n - 1) * (n - 1), n - 2, 1, n);
    StaysOne(a, d, n, i + 1, j);
  }

  lemma PassingRoots(a: int, d: nat, n: int, r: nat)
    requires n > 2 && Passes(a, d, n, r)
    ensures Squaring(a, d, r, n) == 1 && OnlyTrivialRoots(a, d, n, r)
  {
    if Pow(a, d) % n == 1 {
      assert d * Pow2(0) == d;
      forall i | 0 <= i <= r ensures Squaring(a, d, i, n) == 1 { StaysOne(a, d, n, 0, i); }
    } else {
      var k :| 0 <= k < r && Squaring(a, d, k, n) == n - 1;
      OneAfterMinusOne(a, d, n, k, r);
      forall i | 0 <= i < r && Squaring(a, d, i + 1, n) == 1
        ensures Squaring(a, d, i, n) == 1 || Squaring(a, d, i, n) == n - 1
      {
        if i < k { StaysOne(a, d, n, i + 1, k); }
        if k < i { OneAfterMinusOne(a, d, n, k, i); }
      }
    }
  }

  /** What the test of one base decides, for n-1 = d * 2^r: Fermat's condition, and no square root
      of 1 other than 1 and n-1 on the way to it. */
  lemma PassesIff(a: int, d: nat, n: int, r: nat)
    requires n > 2 && Decomposes(n, d, r)
    ensures Passes(a, d, n, r) <==> Pow(a, n - 1) % n == 1 && OnlyTrivialRoots(a, d, n, r)
  {
    assert Squaring(a, d, r, n) == Pow(a, n - 1) % n;
    if Passes(a, d, n, r) {
      PassingRoots(a, d, n, r);
    } else if Pow(a, n - 1) % n == 1 && OnlyTrivialRoots(a, d, n, r) {
      WalkDown(a, d, n, r, r);
    }
  }

  lemma PrimeHasTrivialRoots(a: int, d: nat, n: int, r: nat)
    requires Prime(n)
    ensures OnlyTrivialRoots(a, d, n, r)
  {
    forall i | 0 <= i < r && Squaring(a, d, i + 1, n) == 1
      ensures Squaring(a, d, i, n) == 1 || Squaring(a, d, i, n) == n - 1
    {
      SquaringStep(a, d, i, n);
      SquareRootsOfOne(n, Squaring(a, d, i, n));
    }
  }

  /** Every base prime to n passes when n is prime. */
  lemma PrimePasses(a: int, d: nat, n: int, r: nat)
    requires Prime(n) && !Divides(n, a) && Decomposes(n, d, r)
    ensures Passes(a, d, n, r)
  {
    Fermat(n, a);
    PrimeHasTrivialRoots(a, d, n, r);
    WalkDown(a, d, n, r, r);
  }

  // ---------- the test ----------

  const SMALL_PRIMES: seq<uint64> := [2, 3, 5, 7, 11, 13, 17]

  ghost predicate NoSmallDivisor(n: int) {
    forall p :: p in SMALL_PRIMES ==> !Divides(p, n)
  }

  /** n passes with base a. */
  ghost predicate PassesAll(n: int, a: int)
    requires n > 1
  {
    forall d, r :: Decomposes(n, d, r) ==> Passes(a, d, n, r)
  }

  /** What the test computes: membership in the table, or passing with every base of it. */
  ghost predicate Accepts(n: int) {
    n in SMALL_PRIMES
    || (2 <= n && NoSmallDivisor(n)
        && forall a :: a in SMALL_PRIMES ==> PassesAll(n, a))
  }

  lemma {:induction false} DecompositionExists(m: nat) returns (d: nat, r: nat)
    requires m > 0
    ensures d % 2 == 1 && m == d * Pow2(r)
  {
    if m % 2 == 1 {
      d, r := m, 0;
    } else {
      d, r := DecompositionExists(m / 2);
      assert d * Pow2(r + 1) == 2 * (d * Pow2(r));
      r := r + 1;
    }
  }

  /** n meets Fermat's condition for base a, and none of the powers that lead to it is a square
      root of 1 other than 1 and n-1. */
  ghost predicate StronglyProbable(n: int, a: int)
    requires n > 1
  {
    && Pow(a, n - 1) % n == 1
    && forall d, r :: Decomposes(n, d, r) ==> OnlyTrivialRoots(a, d, n, r)
  }

  lemma PassesAllIff(n: int, a: int)
    requires n > 2
    ensures PassesAll(n, a) <==> StronglyProbable(n, a)
  {
    var d, r := DecompositionExists(n - 1);
    assert Decomposes(n, d, r);
    PassesIff(a, d, n, r);
    forall d', r' | Decomposes(n, d', r') ensures d' == d && r' == r { DecompositionUnique(n, d, r, d', r'); }
  }

  /** The accepted numbers in terms of powers alone. */
  lemma AcceptsIff(n: int)
    ensures Accepts(n)
            <==> n in SMALL_PRIMES
                 || (2 <= n && NoSmallDivisor(n) && forall a :: a in SMALL_PRIMES ==> StronglyProbable(n, a))
  {
    if 2 <= n && NoSmallDivisor(n) {
      assert 2 in SMALL_PRIMES;
      forall a | a in SMALL_PRIMES ensures PassesAll(n, a) <==> StronglyProbable(n, a) {
        PassesAllIff(n, a);
      }
    }
  }

  method IsPrime(n: uint64) returns (b: bool)
    ensures b <==> Accepts(n)
    ensures Prime(n) ==> b
    ensures b && n !in SMALL_PRIMES ==> 2 <= n && forall a :: a in SMALL_PRIMES ==> Pow(a, n - 1) % n == 1
    ensures n < 361 ==> (b <==> Prime(n))
  {
    AcceptsIff(n);
    if Prime(n) { AcceptsPrimes(n); }
    if n < 361 && Accepts(n) { ExactBelow361(n); }
    if n < 2 {
      return false;
    }
    var divided := TrialDivision(n);
    if divided.Some? {
      return divided.value;
    }
    var d, r := SplitPowerOfTwo(n);
    b := AllBasesPass(n, d, r);
    forall d', r' | Decomposes(n, d', r') ensures d' == d && r' == r {
      DecompositionUnique(n, d, r, d', r');
    }
  }

  /** The first loop: an answer as soon as a number of the table divides n. */
  method TrialDivision(n: uint64) returns (answer: Option<bool>)
    requires 2 <= n
    ensures answer.None? ==> NoSmallDivisor(n) && n !in SMALL_PRIMES && n >= 19
    ensures answer.Some? ==> !NoSmallDivisor(n) && (answer.value <==> n in SMALL_PRIMES)
  {
    for i := 0 to |SMALL_PRIMES|
      invariant forall k :: 0 <= k < i ==> !Divides(SMALL_PRIMES[k], n)
    {
      if n % SMALL_PRIMES[i] == 0 {
        assert Divides(SMALL_PRIMES[i], n);
        if n in SMALL_PRIMES { SmallPrimesIndependent(SMALL_PRIMES[i], n); }
        return Some(n == SMALL_PRIMES[i]);
      }
    }
    SmallDividesItself(n);
    if n <= 18 { SmallNumbersHaveSmallDivisor(n); }
    return None;
  }

  /** The second loop: n-1 = d * 2^r with d odd. */
  method SplitPowerOfTwo(n: uint64) returns (d: uint64, r: int)
    requires n >= 19 && !Divides(2, n)
    ensures r >= 1 && Decomposes(n, d, r)
  {
    d, r := n - 1, 0;
    while d % 2 == 0
      invariant 0 < d && 0 <= r
      invariant n - 1 == d * Pow2(r)
      invariant r == 0 ==> d % 2 == 0
      decreases d
    {
      HalveAgain(d, r);
      d := d / 2;
      r := r + 1;
    }
  }

  /** The third loop: every base below n has to pass. */
  method AllBasesPass(n: uint64, d: uint64, r: int) returns (ok: bool)
    requires n >= 19 && r >= 1
    ensures ok <==> forall a :: a in SMALL_PRIMES ==> Passes(a, d, n, r)
  {
    for i := 0 to |SMALL_PRIMES|
      invariant forall k :: 0 <= k < i ==> Passes(SMALL_PRIMES[k], d, n, r)
    {
      var a := SMALL_PRIMES[i];
      if a >= n {
        continue;
      }
      var passed := Check(a, d, n, r);
      if !passed {
        return false;
      }
    }
    return true;
  }

  lemma HalveAgain(d: int, r: nat)
    requires d % 2 == 0
    ensures d * Pow2(r) == (d / 2) * Pow2(r + 1)
  {
  }

  /** d and r are determined by n. */
  lemma {:induction false} DecompositionUnique(n: int, d: nat, r: nat, d': nat, r': nat)
    requires Decomposes(n, d, r) && Decomposes(n, d', r')
    ensures d == d' && r == r'
    decreases r
  {
    if r == 0 && r' == 0 {
    } else if r > 0 && r' > 0 {
      HalfExact(d, r, n - 1);
      HalfExact(d', r', n - 1);
      DecompositionUnique((n - 1) / 2 + 1, d, r - 1, d', r' - 1);
    } else {
      if r > 0 { HalfExact(d, r, n - 1); } else { HalfExact(d', r', n - 1); }
      assert false;
    }
  }

  lemma HalfExact(d: int, r: nat, m: int)
    requires r > 0 && m == d * Pow2(r)
    ensures m % 2 == 0 && m / 2 == d * Pow2(r - 1)
  {
    assert d * Pow2(r) == 2 * (d * Pow2(r - 1));
  }

  // ---------- small numbers ----------

  lemma SmallPrimesIndependent(p: int, q: int)
    requires p in SMALL_PRIMES && q in SMALL_PRIMES && Divides(p, q)
    ensures p == q
  {
  }

  lemma SmallDividesItself(n: int)
    requires NoSmallDivisor(n)
    ensures n !in SMALL_PRIMES
  {
  }

  lemma DividesTransitive(p: int, k: int, n: int)
    requires p > 0 && k > 0 && Divides(p, k) && Divides(k, n)
    ensures Divides(p, n)
  {
    var i, j := k / p, n / k;
    assert n == j * k == j * (i * p) == (j * i) * p;
    DividesMultiple(p, j * i);
  }

  /** Every number from 2 to 18 is a multiple of a number in the table. */
  lemma SmallFactor(k: int) returns (p: int)
    requires 2 <= k <= 18
    ensures p in SMALL_PRIMES && Divides(p, k)
  {
    p := if k % 2 == 0 then 2 else if k % 3 == 0 then 3 else if k % 5 == 0 then 5 else k;
    assert p == 2 || p == 3 || p == 5 || p == 7 || p == 11 || p == 13 || p == 17;
    assert p in [2, 3, 5, 7, 11, 13, 17];
    if p == k { ModUnique(k, 1, 0, k); }
  }

  lemma SmallNumbersHaveSmallDivisor(n: int)
    requires 2 <= n <= 18
    ensures !NoSmallDivisor(n)
  {
    var p := SmallFactor(n);
  }

  lemma AcceptsPrimes(n: int)
    requires Prime(n)
    ensures Accepts(n)
  {
    if n !in SMALL_PRIMES {
      forall p | p in SMALL_PRIMES ensures !Divides(p, n) {
        if n <= 18 {
          var q := SmallFactor(n);
        }
      }
      forall d, r, a | Decomposes(n, d, r) && a in SMALL_PRIMES ensures Passes(a, d, n, r) {
        PrimePasses(a, d, n, r);
      }
    }
  }

  lemma SmallPrimesArePrime(p: int)
    requires p in SMALL_PRIMES
    ensures Prime(p)
  {
  }

  lemma FactorSizes(j: int, k: int)
    requires k > 0
    ensures j <= 1 ==> j * k <= k
    ensures j >= 19 && k >= 19 ==> j * k >= 361
  {
  }

  /** Below 19^2 the trial divisions alone decide primality. */
  lemma ExactBelow361(n: int)
    requires n < 361 && Accepts(n)
    ensures Prime(n)
  {
    if n in SMALL_PRIMES {
      SmallPrimesArePrime(n);
    } else {
      forall k | 2 <= k < n ensures !Divides(k, n) {
        if Divides(k, n) {
          var j := n / k;
          assert n == j * k;
          var small := if k <= 18 then k else j;
          FactorSizes(j, k);
          assert Divides(small, n) by { if small == j { assert n == k * j; DividesMultiple(j, k); } }
          var p := SmallFactor(small);
          DividesTransitive(p, small, n);
        }
      }
    }
  }
}
