/**
 Number theory behind the primality test: powers and products modulo m, Euclid's
 lemma, cancellation, Fermat's little theorem and the square roots of 1 modulo a prime.
 */
module ModArith {
  import opened Base

  ghost predicate Divides(d: int, n: int)
    requires d != 0
  {
    n % d == 0
  }

  ghost predicate Prime(p: int) {
    2 <= p && forall d :: 2 <= d < p ==> !Divides(d, p)
  }

  function Pow(b: int, e: nat): int {
    if e == 0 then 1 else b * Pow(b, e - 1)
  }

  // ---------- remainders ----------

  /** A representation r + q*m with 0 <= r < m determines the remainder. */
  lemma ModUnique(x: int, q: int, r: int, m: int)
    requires 0 <= r < m && x == r + q * m
    ensures x % m == r
  {
    var k := x / m - q;
    assert x == (x / m) * m + x % m;
    assert k * m == r - x % m by { assert k * m == (x / m) * m - q * m; }
    MultipleIsFar(k, m);
  }

  lemma MultipleIsFar(k: int, m: int)
    requires m > 0
    ensures k >= 1 ==> k * m >= m
    ensures k <= -1 ==> k * m <= -m
  {
  }

  lemma ModAddMultiple(x: int, k: int, m: int)
    requires m > 0
    ensures (x + k * m) % m == x % m
  {
    var q, r := x / m, x % m;
    assert x == q * m + r;
    assert x + k * m == r + (q + k) * m by { assert (q + k) * m == q * m + k * m; }
    ModUnique(x + k * m, q + k, r, m);
  }

  lemma ModMulLeft(a: int, b: int, m: int)
    requires m > 0
    ensures ((a % m) * b) % m == (a * b) % m
  {
    var q := a / m;
    assert a == q * m + a % m;
    assert a * b == (a % m) * b + (q * b) * m;
    ModAddMultiple((a % m) * b, q * b, m);
  }

  lemma ModMul(a: int, b: int, m: int)
    requires m > 0
    ensures ((a % m) * (b % m)) % m == (a * b) % m
  {
    ModMulLeft(a, b % m, m);
    ModMulLeft(b, a, m);
    assert (b % m) * a == a * (b % m);
    assert b * a == a * b;
  }

  /** Strictly between -m and m only 0 is a multiple of m. */
  lemma SmallMultiple(d: int, m: int)
    requires -m < d < m
    ensures d % m == 0 <==> d == 0
  {
  }

  lemma ModSub(a: int, b: int, m: int)
    requires m > 0
    ensures a % m == b % m <==> Divides(m, a - b)
  {
    var qa, qb := a / m, b / m;
    assert a == qa * m + a % m && b == qb * m + b % m;
    assert a - b == (a % m - b % m) + (qa - qb) * m by { assert (qa - qb) * m == qa * m - qb * m; }
    ModAddMultiple(a % m - b % m, qa - qb, m);
    SmallMultiple(a % m - b % m, m);
  }

  lemma DividesMultiple(m: int, k: int)
    requires m > 0
    ensures Divides(m, k * m)
  {
    ModAddMultiple(0, k, m);
  }

  // ---------- powers ----------

  lemma {:induction false} PowAdd(b: int, e: nat, f: nat)
    ensures Pow(b, e + f) == Pow(b, e) * Pow(b, f)
  {
    if e == 0 {
    } else {
      PowAdd(b, e - 1, f);
      assert Pow(b, e + f) == b * Pow(b, (e - 1) + f);
      assert b * (Pow(b, e - 1) * Pow(b, f)) == (b * Pow(b, e - 1)) * Pow(b, f);
    }
  }

  lemma {:induction false} PowMul(b: int, e: nat, f: nat)
    ensures Pow(Pow(b, e), f) == Pow(b, e * f)
  {
    if f == 0 {
    } else {
      PowMul(b, e, f - 1);
      assert e * f == e + e * (f - 1);
      PowAdd(b, e, e * (f - 1));
    }
  }

  lemma {:induction false} PowMod(b: int, e: nat, m: int)
    requires m > 0
    ensures Pow(b % m, e) % m == Pow(b, e) % m
  {
    if e == 0 {
    } else {
      PowMod(b, e - 1, m);
      ModMul(b, Pow(b, e - 1), m);
      ModMul(b % m, Pow(b % m, e - 1), m);
      assert (b % m) % m == b % m by { ModUnique(b % m, 0, b % m, m); }
    }
  }

  // ---------- primes ----------

  /** Euclid's lemma for a residue, by descent on the residue. */
  lemma {:induction false} EuclidResidue(p: int, a: int, b: int)
    requires Prime(p) && 0 < a < p && Divides(p, a * b)
    ensures Divides(p, b)
    decreases a
  {
    if a <= 1 {
    } else {
      var q, r := p / a, p % a;
      assert p == q * a + r;
      assert !Divides(a, p);
      assert r * b == b * p - q * (a * b) by { assert r == p - q * a; assert (p - q * a) * b == p * b - q * a * b; }
      var k := (a * b) / p;
      assert a * b == k * p;
      assert r * b == (b - q * k) * p by { assert q * (k * p) == (q * k) * p; }
      DividesMultiple(p, b - q * k);
      EuclidResidue(p, r, b);
    }
  }

  lemma Euclid(p: int, a: int, b: int)
    requires Prime(p) && Divides(p, a * b)
    ensures Divides(p, a) || Divides(p, b)
  {
    if !Divides(p, a) {
      ModMulLeft(a, b, p);
      EuclidResidue(p, a % p, b);
    }
  }

  lemma Cancel(p: int, c: int, a: int, b: int)
    requires Prime(p) && !Divides(p, c)
    requires (c * a) % p == (c * b) % p
    ensures a % p == b % p
  {
    ModSub(c * a, c * b, p);
    assert c * a - c * b == c * (a - b);
    Euclid(p, c, a - b);
    ModSub(a, b, p);
  }

  /** Modulo a prime, 1 has only the square roots 1 and -1. */
  lemma SquareRootsOfOne(p: int, x: int)
    requires Prime(p) && 0 <= x < p && (x * x) % p == 1
    ensures x == 1 || x == p - 1
  {
    ModUnique(1, 0, 1, p);
    ModSub(x * x, 1, p);
    assert x * x - 1 == (x - 1) * (x + 1);
    Euclid(p, x - 1, x + 1);
    if Divides(p, x - 1) {
      if x == 0 { ModUnique(-1, -1, p - 1, p); } else { ModUnique(x - 1, 0, x - 1, p); }
    } else if x + 1 < p {
      ModUnique(x + 1, 0, x + 1, p);
    }
  }

  // ---------- products and Fermat's little theorem ----------

  ghost function Product(s: seq<int>): int {
    if s == [] then 1 else s[0] * Product(s[1..])
  }

  lemma WithoutIsMultisetMinus(s: seq<int>, i: nat)
    requires i < |s|
    ensures multiset(Without(s, i)) == multiset(s) - multiset{s[i]}
    ensures s[i] in multiset(s)
  {
    assert s == s[..i] + [s[i]] + s[i + 1..];
  }

  lemma {:induction false} ProductRemove(s: seq<int>, i: nat)
    requires i < |s|
    ensures Product(s) == s[i] * Product(Without(s, i))
  {
    if i == 0 {
      assert Without(s, 0) == s[1..];
    } else {
      ProductRemove(s[1..], i - 1);
      var rest := Without(s, i);
      assert Without(s[1..], i - 1) == rest[1..];
      assert s[0] * (s[i] * Product(rest[1..])) == s[i] * (s[0] * Product(rest[1..]));
    }
  }

  lemma {:induction false} ProductOfPermutation(s: seq<int>, t: seq<int>)
    requires multiset(s) == multiset(t)
    ensures Product(s) == Product(t)
  {
    if s == [] {
      assert |multiset(t)| == 0;
    } else {
      assert s[0] in multiset(t);
      var j :| 0 <= j < |t| && t[j] == s[0];
      assert Without(s, 0) == s[1..];
      WithoutIsMultisetMinus(s, 0);
      WithoutIsMultisetMinus(t, j);
      ProductOfPermutation(s[1..], Without(t, j));
      ProductRemove(t, j);
    }
  }

  /** 1, 2, ..., n */
  ghost function UpTo(n: nat): seq<int> {
    seq(n, i => i + 1)
  }

  /** a*1 mod p, a*2 mod p, ..., a*n mod p */
  ghost function Residues(a: int, n: nat, p: int): seq<int>
    requires p > 0
  {
    seq(n, i => (a * (i + 1)) % p)
  }

  /** The values of s are pairwise distinct and lie in 1..n. */
  ghost predicate DistinctWithin(s: seq<int>, n: nat) {
    && (forall i :: 0 <= i < |s| ==> 1 <= s[i] <= n)
    && NoRepeats(s)
  }

  lemma WithoutDistinct(s: seq<int>, n: nat, j: nat)
    requires 0 < n && DistinctWithin(s, n) && j < |s| && s[j] == n
    ensures DistinctWithin(Without(s, j), n - 1)
  {
  }

  /** Pigeonhole. */
  lemma {:induction false} CountDistinct(s: seq<int>, n: nat)
    requires DistinctWithin(s, n)
    ensures |s| <= n
  {
    if s == [] {
    } else {
      assert 1 <= s[0] <= n;
      if j :| 0 <= j < |s| && s[j] == n {
        WithoutDistinct(s, n, j);
        CountDistinct(Without(s, j), n - 1);
      } else {
        CountDistinct(s, n - 1);
      }
    }
  }

  lemma LargestPresent(s: seq<int>, n: nat) returns (j: nat)
    requires 0 < n == |s| && DistinctWithin(s, n)
    ensures j < n && s[j] == n
  {
    if n !in s { CountDistinct(s, n - 1); }
    j :| 0 <= j < |s| && s[j] == n;
  }

  lemma UpToSnoc(n: nat)
    requires 0 < n
    ensures UpTo(n) == UpTo(n - 1) + [n]
    ensures multiset(UpTo(n)) == multiset(UpTo(n - 1)) + multiset{n}
  {
  }

  lemma AddLargest(s: seq<int>, n: nat, j: nat)
    requires j < |s| && 0 < n == s[j] && multiset(Without(s, j)) == multiset(UpTo(n - 1))
    ensures multiset(s) == multiset(UpTo(n))
  {
    WithoutIsMultisetMinus(s, j);
    UpToSnoc(n);
  }

  /** n distinct values in 1..n are the values 1..n in some order. */
  lemma {:induction false} DistinctIsPermutation(s: seq<int>, n: nat)
    requires |s| == n && DistinctWithin(s, n)
    ensures multiset(s) == multiset(UpTo(n))
  {
    if n == 0 {
      assert s == UpTo(0);
    } else {
      var j := LargestPresent(s, n);
      WithoutDistinct(s, n, j);
      DistinctIsPermutation(Without(s, j), n - 1);
      AddLargest(s, n, j);
    }
  }

  lemma ResiduesArePermutation(a: int, p: int)
    requires Prime(p) && !Divides(p, a)
    ensures multiset(Residues(a, p - 1, p)) == multiset(UpTo(p - 1))
  {
    var s := Residues(a, p - 1, p);
    forall i | 0 <= i < |s| ensures 1 <= s[i] <= p - 1 {
      if s[i] == 0 {
        Euclid(p, a, i + 1);
        ModUnique(i + 1, 0, i + 1, p);
      }
    }
    forall i, j | 0 <= i < j < |s| ensures s[i] != s[j] {
      if s[i] == s[j] {
        Cancel(p, a, i + 1, j + 1);
        ModUnique(i + 1, 0, i + 1, p);
        ModUnique(j + 1, 0, j + 1, p);
      }
    }
    DistinctIsPermutation(s, p - 1);
  }

  lemma {:induction false} ProductSnoc(s: seq<int>, x: int)
    ensures Product(s + [x]) == Product(s) * x
  {
    ProductRemove(s + [x], |s|);
    assert Without(s + [x], |s|) == s;
  }

  lemma CongruentTimes(u: int, v: int, x: int, p: int)
    requires p > 0 && u % p == v % p
    ensures (u * (x % p)) % p == (v * x) % p
  {
    ModMulLeft(u, x % p, p);
    ModMulLeft(v, x % p, p);
    ModMul(v, x, p);
    ModMulLeft(v, x % p, p);
  }

  lemma {:induction false} ResidueProduct(a: int, n: nat, p: int)
    requires p > 0
    ensures Product(Residues(a, n, p)) % p == (Pow(a, n) * Product(UpTo(n))) % p
  {
    if n == 0 {
    } else {
      ResidueProduct(a, n - 1, p);
      var u, f := Product(Residues(a, n - 1, p)), Product(UpTo(n - 1));
      assert Residues(a, n, p) == Residues(a, n - 1, p) + [(a * n) % p];
      ProductSnoc(Residues(a, n - 1, p), (a * n) % p);
      UpToSnoc(n);
      ProductSnoc(UpTo(n - 1), n);
      CongruentTimes(u, Pow(a, n - 1) * f, a * n, p);
      RegroupFactors(a, n, Pow(a, n - 1), f);
    }
  }

  lemma RegroupFactors(a: int, n: int, w: int, f: int)
    ensures (w * f) * (a * n) == (a * w) * (f * n)
  {
  }

  lemma {:induction false} FactorialCoprime(p: int, n: nat)
    requires Prime(p) && n < p
    ensures !Divides(p, Product(UpTo(n)))
  {
    if n == 0 {
      ModUnique(1, 0, 1, p);
    } else {
      FactorialCoprime(p, n - 1);
      UpToSnoc(n);
      ProductSnoc(UpTo(n - 1), n);
      if Divides(p, Product(UpTo(n))) {
        Euclid(p, Product(UpTo(n - 1)), n);
        ModUnique(n, 0, n, p);
      }
    }
  }

  /** Fermat's little theorem. */
  lemma Fermat(p: int, a: int)
    requires Prime(p) && !Divides(p, a)
    ensures Pow(a, p - 1) % p == 1
  {
    var f := Product(UpTo(p - 1));
    ResiduesArePermutation(a, p);
    ProductOfPermutation(Residues(a, p - 1, p), UpTo(p - 1));
    ResidueProduct(a, p - 1, p);
    FactorialCoprime(p, p - 1);
    assert (f * Pow(a, p - 1)) % p == (f * 1) % p by { assert f * Pow(a, p - 1) == Pow(a, p - 1) * f; }
    Cancel(p, f, Pow(a, p - 1), 1);
    ModUnique(1, 0, 1, p);
  }
}
