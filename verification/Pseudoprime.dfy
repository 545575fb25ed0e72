/**
 Two composite numbers that pass the trial divisions of the primality test of common.go:
 341550071728321, which is 10670053 * 32010157, is accepted; 361, which is 19 * 19, is not.
 The odd part of the predecessor of the first is 2667513 * 2000635.
 */
module Pseudoprime {
  import opened ModArith
  import opened Primality

  lemma {:induction false} PowOfOne(f: nat)
    ensures Pow(1, f) == 1
  {
    if f == 0 {
    } else {
      PowOfOne(f - 1);
    }
  }

  lemma TimesMinusOne(x: int, n: int)
    requires n > 1
    ensures x % n == 1 ==> ((n - 1) * x) % n == n - 1
    ensures x % n == n - 1 ==> ((n - 1) * x) % n == 1
  {
    ModMulLeft(x, n - 1, n);
    ModUnique((n - 1) * (n - 1), n - 2, 1, n);
    ModUnique(n - 1, 0, n - 1, n);
    assert x * (n - 1) == (n - 1) * x;
  }

  lemma {:induction false} PowOfMinusOne(f: nat, n: int)
    requires n > 1
    ensures Pow(n - 1, f) % n == if f % 2 == 1 then n - 1 else 1
  {
    if f == 0 {
      ModUnique(1, 0, 1, n);
    } else {
      PowOfMinusOne(f - 1, n);
      TimesMinusOne(Pow(n - 1, f - 1), n);
    }
  }

  /** A base passes if a power of it is 1, for an exponent that divides the odd part. */
  lemma PassesByOne(a: int, e: nat, f: nat, n: int, r: nat)
    requires n > 1 && Pow(a, e) % n == 1
    ensures Passes(a, e * f, n, r)
  {
    PowMul(a, e, f);
    PowMod(Pow(a, e), f, n);
    PowOfOne(f);
    ModUnique(1, 0, 1, n);
  }

  lemma FirstSquaring(a: int, d: nat, n: int)
    requires n > 0
    ensures Squaring(a, d, 1, n) == Pow(a, d * 2) % n
  {
    assert Pow2(1) == 2;
  }

  lemma PowOfSquare(a: int, e: nat, f: nat, n: int)
    requires n > 1 && f % 2 == 1 && Pow(a, e + e) % n == n - 1
    ensures Pow(a, (e * f) * 2) % n == n - 1
  {
    PowMod(Pow(a, e + e), f, n);
    PowOfMinusOne(f, n);
    PowMul(a, e + e, f);
    assert (e + e) * f == (e * f) * 2;
  }

  /** Or if the square of such a power is n - 1 and the cofactor is odd. */
  lemma PassesByMinusOne(a: int, e: nat, f: nat, n: int, r: nat, x: int)
    requires n > 1 && r >= 2 && f % 2 == 1 && Pow(a, e) % n == x && (x * x) % n == n - 1
    ensures Passes(a, e * f, n, r)
  {
    PowAdd(a, e, e);
    ModMul(Pow(a, e), Pow(a, e), n);
    PowOfSquare(a, e, f, n);
    FirstSquaring(a, e * f, n);
  }

  // ---------- powers of the seven bases ----------

  /** P is the power function of a. */
  ghost predicate IsPower(P: nat -> int, a: int) {
    forall e {:trigger Pow(a, e)} :: P(e) == Pow(a, e)
  }

  lemma PowerFunction(a: int, e: nat) returns (P: nat -> int)
    requires e + e == 4
    ensures IsPower(P, a) && P(e) == a * a
  {
    P := (k: nat) => Pow(a, k);
    assert Pow(a, e) == a * Pow(a, e - 1) && Pow(a, e - 1) == a * Pow(a, e - 2);
  }

  lemma Squared(a: int, n: int, e: nat, x: int)
    requires n > 0 && Pow(a, e) % n == x
    ensures Pow(a, 2 * e) % n == (x * x) % n
  {
    PowAdd(a, e, e);
    ModMul(Pow(a, e), Pow(a, e), n);
  }

  lemma SquaredTimes(a: int, n: int, e: nat, x: int)
    requires n > 0 && Pow(a, e) % n == x
    ensures Pow(a, 2 * e + 1) % n == (x * x * a) % n
  {
    Squared(a, n, e, x);
    var y := Pow(a, 2 * e);
    assert Pow(a, 2 * e + 1) == y * a;
    ModMulLeft(y, a, n);
    ModMulLeft(x * x, a, n);
  }

  /** One binary digit of the exponent: a squaring, and a factor a or 1. */
  lemma Bit(P: nat -> int, a: int, n: int, e: nat, x: int, m: int, y: int, e': nat)
    requires n > 0 && IsPower(P, a) && P(e) % n == x && (m == 1 || m == a)
    requires (x * x * m) % n == y && e' == if m == 1 then 2 * e else 2 * e + 1
    ensures P(e') % n == y
  {
    assert P(e) == Pow(a, e) && P(e') == Pow(a, e');
    if m == 1 {
      Squared(a, n, e, x);
    } else {
      SquaredTimes(a, n, e, x);
    }
  }

  /** One hexadecimal digit of the exponent. */
  lemma Digit(P: nat -> int, a: int, e: nat, e': nat, x: int,
              b: int, s: int, c: int, t: int, d: int, u: int, m: int, y: int)
    requires IsPower(P, a) && P(e) % 341550071728321 == x && a != 1
    requires (b == 1 || b == a) && (x * x * b) % 341550071728321 == s
    requires (c == 1 || c == a) && (s * s * c) % 341550071728321 == t
    requires (d == 1 || d == a) && (t * t * d) % 341550071728321 == u
    requires (m == 1 || m == a) && (u * u * m) % 341550071728321 == y
    requires e' == 16 * e + (if b == 1 then 0 else 8) + (if c == 1 then 0 else 4)
                   + (if d == 1 then 0 else 2) + (if m == 1 then 0 else 1)
    ensures P(e') % 341550071728321 == y
  {
    var e1 := if b == 1 then 2 * e else 2 * e + 1;
    var e2 := if c == 1 then 2 * e1 else 2 * e1 + 1;
    var e3 := if d == 1 then 2 * e2 else 2 * e2 + 1;
    Bit(P, a, 341550071728321, e, x, b, s, e1);
    Bit(P, a, 341550071728321, e1, s, c, t, e2);
    Bit(P, a, 341550071728321, e2, t, d, u, e3);
    Bit(P, a, 341550071728321, e3, u, m, y, e');
  }

  /** The leading hexadecimal digits of 2667513. */
  ghost predicate Leading(e0: nat, e1: nat, e2: nat, e3: nat, e4: nat, e5: nat) {
    && e0 + e0 == 4 && e1 == 16 * e0 + 8 && e2 == 16 * e1 + 11
    && e3 == 16 * e2 + 3 && e4 == 16 * e3 + 15 && e5 == 16 * e4 + 9
  }

  lemma LeadingDigits() returns (e0: nat, e1: nat, e2: nat, e3: nat, e4: nat, e5: nat)
    ensures Leading(e0, e1, e2, e3, e4, e5)
  {
    e0 := 2;
    e1 := 16 * e0 + 8;
    e2 := 16 * e1 + 11;
    e3 := 16 * e2 + 3;
    e4 := 16 * e3 + 15;
    e5 := 16 * e4 + 9;
  }

  lemma PowerOf2(P: nat -> int, e0: nat, e1: nat, e2: nat, e3: nat, e4: nat, e5: nat)
    requires IsPower(P, 2) && P(e0) == 4 && Leading(e0, e1, e2, e3, e4, e5)
    ensures P(e5) % 341550071728321 == 314156547885233
  {
    Digit(P, 2, e0, e1, 4, 2, 32, 1, 1024, 1, 1048576, 1, 1099511627776);
    Digit(P, 2, e1, e2, 1099511627776, 2, 41750738166936, 1, 101412229399549, 2, 255238386106580, 2, 288163990167005);
    Digit(P, 2, e2, e3, 288163990167005, 1, 128094534147167, 1, 195281390874850, 2, 40082789009476, 2, 59326112947564);
    Digit(P, 2, e3, e4, 59326112947564, 2, 17021523976017, 2, 262678622324127, 2, 309033976020370, 2, 123630392114690);
    Digit(P, 2, e4, e5, 123630392114690, 2, 233105747374279, 1, 69511032837560, 1, 323471999319050, 2, 314156547885233);
  }

  lemma PowerOf3(P: nat -> int, e0: nat, e1: nat, e2: nat, e3: nat, e4: nat, e5: nat)
    requires IsPower(P, 3) && P(e0) == 9 && Leading(e0, e1, e2, e3, e4, e5)
    ensures P(e5) % 341550071728321 == 1
  {
    Digit(P, 3, e0, e1, 9, 3, 243, 1, 59049, 1, 3486784401, 1, 190655887342806);
    Digit(P, 3, e1, e2, 190655887342806, 3, 190452133600899, 1, 270072100669427, 3, 265776553685495, 3, 14518358493879);
    Digit(P, 3, e2, e3, 14518358493879, 1, 75156519502827, 1, 283513431661468, 3, 250155821723790, 3, 266416271000257);
    Digit(P, 3, e3, e4, 266416271000257,
          3, 329445774070395, 3, 111197108630305, 3, 172182564084432, 3, 213594088099118);
    Digit(P, 3, e4, e5, 213594088099118, 3, 277095156795454, 1, 74548819299699, 1, 189905900077590, 3, 1);
  }

  lemma PowerOf5(P: nat -> int, e0: nat, e1: nat, e2: nat, e3: nat, e4: nat, e5: nat)
    requires IsPower(P, 5) && P(e0) == 25 && Leading(e0, e1, e2, e3, e4, e5)
    ensures P(e5) % 341550071728321 == 27393523843088
  {
    Digit(P, 5, e0, e1, 25, 5, 3125, 1, 9765625, 1, 95367431640625, 1, 261867894728054);
    Digit(P, 5, e1, e2, 261867894728054, 5, 184425935853647, 1, 98531012350524, 5, 14335039090597, 5, 77558827135229);
    Digit(P, 5, e2, e3, 77558827135229, 1, 150320662302694, 1, 123097841399450, 5, 230160642748453, 5, 218653559226170);
    Digit(P, 5, e3, e4, 218653559226170, 5, 96381556653972, 5, 185023611272240, 5, 38763216202458, 5, 200599335443459);
    Digit(P, 5, e4, e5, 200599335443459, 5, 239469165090915, 1, 107912916892600, 1, 170445817255032, 5, 27393523843088);
  }

  lemma PowerOf7(P: nat -> int, e0: nat, e1: nat, e2: nat, e3: nat, e4: nat, e5: nat)
    requires IsPower(P, 7) && P(e0) == 49 && Leading(e0, e1, e2, e3, e4, e5)
    ensures P(e5) % 341550071728321 == 1
  {
    Digit(P, 7, e0, e1, 49, 7, 16807, 1, 282475249, 1, 211099584913208, 1, 188586880825201);
    Digit(P, 7, e1, e2, 188586880825201, 7, 269085437599668, 1, 15844730290302, 7, 93462610582051, 7, 20161244275201);
    Digit(P, 7, e2, e3, 20161244275201, 1, 337722496443717, 1, 131947262581881, 7, 128130912780883, 7, 13863254687730);
    Digit(P, 7, e3, e4, 13863254687730, 7, 22166745610792, 7, 128237556780909, 7, 145153715689536, 7, 326446964513134);
    Digit(P, 7, e4, e5, 326446964513134, 7, 201280488971882, 1, 298962450664054, 1, 304781448319807, 7, 1);
  }

  lemma PowerOf11(P: nat -> int, e0: nat, e1: nat, e2: nat, e3: nat, e4: nat, e5: nat)
    requires IsPower(P, 11) && P(e0) == 121 && Leading(e0, e1, e2, e3, e4, e5)
    ensures P(e5) % 341550071728321 == 1
  {
    Digit(P, 11, e0, e1, 121, 11, 161051, 1, 25937424601, 1, 184849573048785, 1, 225806911472004);
    Digit(P, 11, e1, e2, 225806911472004,
          11, 176435280707453, 1, 63741426459087, 11, 54855401286081, 11, 154389145930438);
    Digit(P, 11, e2, e3, 154389145930438,
          1, 201857583283783, 1, 231779290602810, 11, 32761041270110, 11, 219485249379599);
    Digit(P, 11, e3, e4, 219485249379599,
          11, 238704416531343, 11, 89221121929461, 11, 47183344455642, 11, 335531162548225);
    Digit(P, 11, e4, e5, 335531162548225, 11, 250956027110931, 1, 49059669230741, 1, 235707023651170, 11, 1);
  }

  lemma PowerOf13(P: nat -> int, e0: nat, e1: nat, e2: nat, e3: nat, e4: nat, e5: nat)
    requires IsPower(P, 13) && P(e0) == 169 && Leading(e0, e1, e2, e3, e4, e5)
    ensures P(e5) % 341550071728321 == 1
  {
    Digit(P, 13, e0, e1, 169, 13, 371293, 1, 137858491849, 1, 232082323932489, 1, 183712050502146);
    Digit(P, 13, e1, e2, 183712050502146,
          13, 64095342428215, 1, 172213924573003, 13, 330867715395744, 13, 5808508195443);
    Digit(P, 13, e2, e3, 5808508195443,
          1, 147806275816872, 1, 76429013182982, 13, 316365505048506, 13, 245870316564498);
    Digit(P, 13, e3, e4, 245870316564498,
          13, 138444314431242, 13, 286302442035177, 13, 288488408754517, 13, 211473551076743);
    Digit(P, 13, e4, e5, 211473551076743, 13, 204901278486552, 1, 64991171936554, 1, 294948331383500, 13, 1);
  }

  lemma PowerOf17(P: nat -> int, e0: nat, e1: nat, e2: nat, e3: nat, e4: nat, e5: nat)
    requires IsPower(P, 17) && P(e0) == 289 && Leading(e0, e1, e2, e3, e4, e5)
    ensures P(e5) % 341550071728321 == 36156112808384
  {
    Digit(P, 17, e0, e1, 289, 17, 1419857, 1, 2015993900449, 1, 74788252937945, 1, 244038707198423);
    Digit(P, 17, e1, e2, 244038707198423,
          17, 336533884744281, 1, 278006397130782, 17, 311889857261598, 17, 243574640268026);
    Digit(P, 17, e2, e3, 243574640268026,
          1, 318564769028009, 1, 206729217863392, 17, 200739403093660, 17, 44784906951595);
    Digit(P, 17, e3, e4, 44784906951595,
          17, 80283386454794, 17, 22240138122468, 17, 240902905893116, 17, 5675851587183);
    Digit(P, 17, e4, e5, 5675851587183,
          17, 288096484243458, 1, 121773820984480, 1, 110948172770833, 17, 36156112808384);
  }

  // ---------- the test accepts it ----------

  lemma BasePasses(P: nat -> int, a: int, e: nat, f: nat, r: nat, x: int)
    requires IsPower(P, a) && P(e) % 341550071728321 == x && r >= 2 && f % 2 == 1
    requires x == 1 || (x * x) % 341550071728321 == 341550071728320
    ensures Passes(a, e * f, 341550071728321, r)
  {
    assert P(e) == Pow(a, e);
    if x == 1 {
      PassesByOne(a, e, f, 341550071728321, r);
    } else {
      PassesByMinusOne(a, e, f, 341550071728321, r, x);
    }
  }

  lemma AllBasesPassFor(e0: nat, e1: nat, e2: nat, e3: nat, e4: nat, e5: nat, f: nat, r: nat, a: int)
    requires Leading(e0, e1, e2, e3, e4, e5) && r >= 2 && f % 2 == 1 && a in SMALL_PRIMES
    ensures Passes(a, e5 * f, 341550071728321, r)
  {
    var P := PowerFunction(a, e0);
    if a == 2 {
      PowerOf2(P, e0, e1, e2, e3, e4, e5);
      BasePasses(P, a, e5, f, r, 314156547885233);
    } else if a == 3 {
      PowerOf3(P, e0, e1, e2, e3, e4, e5);
      BasePasses(P, a, e5, f, r, 1);
    } else if a == 5 {
      PowerOf5(P, e0, e1, e2, e3, e4, e5);
      BasePasses(P, a, e5, f, r, 27393523843088);
    } else if a == 7 {
      PowerOf7(P, e0, e1, e2, e3, e4, e5);
      BasePasses(P, a, e5, f, r, 1);
    } else if a == 11 {
      PowerOf11(P, e0, e1, e2, e3, e4, e5);
      BasePasses(P, a, e5, f, r, 1);
    } else if a == 13 {
      PowerOf13(P, e0, e1, e2, e3, e4, e5);
      BasePasses(P, a, e5, f, r, 1);
    } else if a == 17 {
      PowerOf17(P, e0, e1, e2, e3, e4, e5);
      BasePasses(P, a, e5, f, r, 36156112808384);
    }
  }

  lemma OddPart(d: nat, r: nat)
    requires Decomposes(341550071728321, d, r)
    ensures r >= 2 && d + 1 == 5336719870756
  {
    assert Pow2(6) == 64 by { assert Pow2(3) == 8; }
    DecompositionUnique(341550071728321, 5336719870755, 6, d, r);
  }

  lemma Cofactor(e0: nat, e1: nat, e2: nat, e3: nat, e4: nat, e5: nat, d: nat) returns (f: nat)
    requires Leading(e0, e1, e2, e3, e4, e5) && d + 1 == 5336719870756
    ensures f % 2 == 1 && d == e5 * f
  {
    f := 2000635;
  }

  /** Deterministic for 64-bit integers is what the comment claims; this composite is accepted. */
  lemma AcceptsComposite()
    ensures Accepts(341550071728321) && !Prime(341550071728321)
  {
    assert Divides(10670053, 341550071728321);
    var e0, e1, e2, e3, e4, e5 := LeadingDigits();
    forall d, r, a | Decomposes(341550071728321, d, r) && a in SMALL_PRIMES
      ensures Passes(a, d, 341550071728321, r)
    {
      OddPart(d, r);
      var f := Cofactor(e0, e1, e2, e3, e4, e5, d);
      AllBasesPassFor(e0, e1, e2, e3, e4, e5, f, r, a);
    }
  }

  // ---------- a composite that the test rejects ----------

  lemma PowerModulo361(P: nat -> int, e0: nat, e1: nat, e2: nat, e3: nat,
                       e4: nat, e5: nat, e6: nat, e7: nat, e8: nat)
    requires IsPower(P, 2) && P(e0) == 2
    requires e1 == 2 * e0 && e2 == 2 * e1 + 1 && e3 == 2 * e2 + 1 && e4 == 2 * e3
    requires e5 == 2 * e4 + 1 && e6 == 2 * e5 && e7 == 2 * e6 && e8 == 2 * e7
    ensures P(e8) % 361 == 58
  {
    Bit(P, 2, 361, e0, 2, 1, 4, e1);
    Bit(P, 2, 361, e1, 4, 2, 32, e2);
    Bit(P, 2, 361, e2, 32, 2, 243, e3);
    Bit(P, 2, 361, e3, 243, 1, 206, e4);
    Bit(P, 2, 361, e4, 206, 2, 37, e5);
    Bit(P, 2, 361, e5, 37, 1, 286, e6);
    Bit(P, 2, 361, e6, 286, 1, 210, e7);
    Bit(P, 2, 361, e7, 210, 1, 58, e8);
  }

  lemma FermatFails(e: nat)
    requires e + e == 2
    ensures Pow(2, 360 * e) % 361 == 58
  {
    var P := (k: nat) => Pow(2, k);
    assert P(e) == 2 by { assert Pow(2, e) == 2 * Pow(2, e - 1); }
    PowerModulo361(P, e, 2 * e, 5 * e, 11 * e, 22 * e, 45 * e, 90 * e, 180 * e, 360 * e);
  }

  /** The smallest composite that no prime of the table divides is rejected, by base 2. */
  lemma RejectsSquareOf19()
    ensures NoSmallDivisor(361) && !Prime(361) && !Accepts(361)
  {
    assert Divides(19, 361);
    AcceptsIff(361);
    FermatFails(1);
    assert 2 in SMALL_PRIMES;
  }
}
