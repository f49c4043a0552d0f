/**
 Two flipped bits: the checksum (crc16.c) notices them at any distance but the multiples of 32767, the order
 of the register with the polynomial 0xA001.
 */
module CrcDistance {
  import opened ShiftRegister
  import opened ShiftOrbits
  import opened Crc16
  import opened CrcErrors

  const ORDER: nat := 32767

  /** The register with the polynomial of the CRC after `n` steps. */
  function After(n: nat, x: bv16): bv16 {
    ShiftOrbits.After(POLYNOMIAL, n, x)
  }

  lemma Sum(m: nat, n: nat, c: bv16, d: bv16, r: bv16)
    requires After(m, UNIT) == c && After(n, UNIT) == d && Times(POLYNOMIAL, d, c) == r
    ensures After(m + n, UNIT) == r
  {
    AfterSum(POLYNOMIAL, m, n, c, d, r);
  }

  // ----- How far the unit has come ------------------------------------------------------------------------

  lemma Orbit1()
    ensures After(1, UNIT) == 0x4000
  {
    assert Step(POLYNOMIAL)(UNIT) == 0x4000;
  }

  lemma OrbitTo16()
    ensures After(2, UNIT) == 0x2000
    ensures After(4, UNIT) == 0x0800
    ensures After(8, UNIT) == 0x0080
    ensures After(16, UNIT) == 0xA001
  {
    Orbit1();
    Sum(1, 1, 0x4000, 0x4000, 0x2000);
    Sum(2, 2, 0x2000, 0x2000, 0x0800);
    Sum(4, 4, 0x0800, 0x0800, 0x0080);
    Sum(8, 8, 0x0080, 0x0080, 0xA001);
  }

  lemma OrbitTo256()
    ensures After(32, UNIT) == 0xE801
    ensures After(64, UNIT) == 0xC881
    ensures After(128, UNIT) == 0x6080
    ensures After(256, UNIT) == 0x8801
  {
    OrbitTo16();
    Sum(16, 16, 0xA001, 0xA001, 0xE801);
    Sum(32, 32, 0xE801, 0xE801, 0xC881);
    Sum(64, 64, 0xC881, 0xC881, 0x6080);
    Sum(128, 128, 0x6080, 0x6080, 0x8801);
  }

  lemma OrbitTo4096()
    ensures After(512, UNIT) == 0xE081
    ensures After(1024, UNIT) == 0x6800
    ensures After(2048, UNIT) == 0x2880
    ensures After(4096, UNIT) == 0xA881
  {
    OrbitTo256();
    Sum(256, 256, 0x8801, 0x8801, 0xE081);
    Sum(512, 512, 0xE081, 0xE081, 0x6800);
    Sum(1024, 1024, 0x6800, 0x6800, 0x2880);
    Sum(2048, 2048, 0x2880, 0x2880, 0xA881);
  }

  lemma OrbitTo16384()
    ensures After(8192, UNIT) == 0x4880
    ensures After(16384, UNIT) == 0x8081
  {
    OrbitTo4096();
    Sum(4096, 4096, 0xA881, 0xA881, 0x4880);
    Sum(8192, 8192, 0x4880, 0x4880, 0x8081);
  }

  lemma Orbit15()
    ensures After(3, UNIT) == 0x1000
    ensures After(12, UNIT) == 0x0008
    ensures After(15, UNIT) == 0x0001
  {
    Orbit1();
    OrbitTo16();
    Sum(1, 2, 0x4000, 0x2000, 0x1000);
    Sum(4, 8, 0x0800, 0x0080, 0x0008);
    Sum(3, 12, 0x1000, 0x0008, 0x0001);
  }

  lemma Orbit255()
    ensures After(48, UNIT) == 0xDE01
    ensures After(192, UNIT) == 0x6668
    ensures After(240, UNIT) == 0xE000
    ensures After(255, UNIT) == 0x5001
  {
    OrbitTo16();
    OrbitTo256();
    Orbit15();
    Sum(16, 32, 0xA001, 0xE801, 0xDE01);
    Sum(64, 128, 0xC881, 0x6080, 0x6668);
    Sum(48, 192, 0xDE01, 0x6668, 0xE000);
    Sum(15, 240, 0x0001, 0xE000, 0x5001);
  }

  lemma Orbit4095()
    ensures After(768, UNIT) == 0xD249
    ensures After(3072, UNIT) == 0x1CE8
    ensures After(3840, UNIT) == 0xC800
    ensures After(4095, UNIT) == 0x1101
  {
    OrbitTo256();
    OrbitTo4096();
    Orbit255();
    Sum(256, 512, 0x8801, 0xE081, 0xD249);
    Sum(1024, 2048, 0x6800, 0x2880, 0x1CE8);
    Sum(768, 3072, 0xD249, 0x1CE8, 0xC800);
    Sum(255, 3840, 0x5001, 0xC800, 0x1101);
  }

  lemma Orbit32767()
    ensures After(12288, UNIT) == 0x52A0
    ensures After(28672, UNIT) == 0x9103
    ensures After(32767, UNIT) == 0x8000
  {
    OrbitTo4096();
    OrbitTo16384();
    Orbit4095();
    Sum(4096, 8192, 0xA881, 0x4880, 0x52A0);
    Sum(12288, 16384, 0x52A0, 0x8081, 0x9103);
    Sum(4095, 28672, 0x1101, 0x9103, 0x8000);
  }

  lemma Orbit217()
    ensures After(9, UNIT) == 0x0040
    ensures After(25, UNIT) == 0xC031
    ensures After(89, UNIT) == 0xD402
    ensures After(217, UNIT) == 0x3E55
  {
    Orbit1();
    OrbitTo16();
    OrbitTo256();
    Sum(1, 8, 0x4000, 0x0080, 0x0040);
    Sum(9, 16, 0x0040, 0xA001, 0xC031);
    Sum(25, 64, 0xC031, 0xC881, 0xD402);
    Sum(89, 128, 0xD402, 0x6080, 0x3E55);
  }

  lemma Orbit1057()
    ensures After(33, UNIT) == 0xD401
    ensures After(1057, UNIT) == 0xCE41
  {
    Orbit1();
    OrbitTo256();
    OrbitTo4096();
    Sum(1, 32, 0x4000, 0xE801, 0xD401);
    Sum(33, 1024, 0xD401, 0x6800, 0xCE41);
  }

  lemma Orbit4681()
    ensures After(9, UNIT) == 0x0040
    ensures After(73, UNIT) == 0x3004
    ensures After(585, UNIT) == 0x0F31
    ensures After(4681, UNIT) == 0x8C69
  {
    Orbit1();
    OrbitTo16();
    OrbitTo256();
    OrbitTo4096();
    Sum(1, 8, 0x4000, 0x0080, 0x0040);
    Sum(9, 64, 0x0040, 0xC881, 0x3004);
    Sum(73, 512, 0x3004, 0xE081, 0x0F31);
    Sum(585, 4096, 0x0F31, 0xA881, 0x8C69);
  }

  // ----- The order ----------------------------------------------------------------------------------------

  lemma SevenIsPrime()
    ensures Prime(7)
  {
    assert 7 % 2 == 1 && 7 % 3 == 1 && 7 % 4 == 3 && 7 % 5 == 2 && 7 % 6 == 1;
  }

  lemma ThirtyOneIsPrime()
    ensures Prime(31)
  {
    assert 31 % 2 == 1 && 31 % 3 == 1 && 31 % 4 == 3 && 31 % 5 == 1 && 31 % 6 == 1 && 31 % 7 == 3 && 31 % 8 == 7
           && 31 % 9 == 4;
    assert 31 % 10 == 1 && 31 % 11 == 9 && 31 % 12 == 7 && 31 % 13 == 5 && 31 % 14 == 3 && 31 % 15 == 1;
    forall d | 1 < d < 31
      ensures 31 % d != 0
    {
      if d > 15 { assert 31 == d + (31 - d) && 31 - d < d; }
    }
  }

  lemma NoFactorOf151(d: nat, m: nat)
    requires 2 <= d <= 12
    ensures d * m != 151
  {
    if d <= 5 {
      if d == 2 {} else if d == 3 {} else if d == 4 {} else {}
    } else if d <= 9 {
      if d == 6 {} else if d == 7 {} else if d == 8 {} else {}
    } else {
      if d == 10 {} else if d == 11 {} else {}
    }
  }

  /** A proper divisor of 32767 = 7 * 31 * 151 divides one of its three maximal proper divisors. */
  lemma ProperDivisor(a: nat, q: nat) returns (k: nat)
    requires a * q == 32767 && 1 < q
    ensures k * a == 4681 || k * a == 1057 || k * a == 217
  {
    SevenIsPrime();
    ThirtyOneIsPrime();
    var first, b := PrimeDivides(7, a, q, 4681);
    if !first {
      k := b;
      assert 7 * (a * k) == 32767;
      return;
    }
    assert b * q == 4681;
    var second, c := PrimeDivides(31, b, q, 151);
    if !second {
      k := c;
      assert 31 * (a * k) == 32767;
      return;
    }
    assert c * q == 151;
    if c > 1 {
      assert c > 12 && q > 12 ==> c * q > 151;
      if c <= 12 { NoFactorOf151(c, q); } else if q <= 12 { NoFactorOf151(q, c); }
    }
    k := 1;
  }

  /**
   The unit is back for the first time after `full` steps if it is neither earlier at the proper divisors of `full`.
   */
  lemma LeastIsOrder<T(!new)>(f: T -> T, x: T, full: nat) returns (least: nat)
    requires full == 32767 && Injective(f) && Iterate(f, full, x) == x
    requires forall d: nat :: d == 4681 || d == 1057 || d == 217 ==> Iterate(f, d, x) != x
    ensures least == full && forall k :: 0 < k < least ==> Iterate(f, k, x) != x
  {
    least := LeastReturn(f, full, x);
    if least < full {
      var q := LeastReturnDivides(f, least, full, x);
      var k := ProperDivisor(least, q);
      ReturnMultiple(f, least, k, x);
    }
  }

  lemma ReturnIff<T(!new)>(f: T -> T, x: T, full: nat, n: nat)
    requires full == 32767 && Injective(f) && Iterate(f, full, x) == x
    requires forall d: nat :: d == 4681 || d == 1057 || d == 217 ==> Iterate(f, d, x) != x
    ensures Iterate(f, n, x) == x <==> n % full == 0
  {
    hide Iterate;
    var least := LeastIsOrder(f, x, full);
    if Iterate(f, n, x) == x {
      var q := LeastReturnDivides(f, least, n, x);
      Multiple(n, q);
    }
    if n % full == 0 {
      ReturnMultiple(f, full, n / full, x);
      assert n == n / full * full;
    }
  }

  lemma Multiple(n: nat, q: nat)
    requires n == 32767 * q
    ensures n % 32767 == 0
  {}

  lemma HighPolynomial()
    ensures POLYNOMIAL & 0x8000 != 0
  {}

  /** The unit is back after `n` steps exactly if 32767 divides `n`. */
  lemma UnitReturns(n: nat, full: nat)
    requires full == 32767
    ensures After(n, UNIT) == UNIT <==> n % full == 0
  {
    HighPolynomial();
    StepInjective(POLYNOMIAL);
    forall d: nat | d == full || d == 4681 || d == 1057 || d == 217
      ensures Iterate(Step(POLYNOMIAL), d, UNIT) == UNIT <==> d == full
    {
      if d == full {
        Orbit32767();
      } else if d == 4681 {
        Orbit4681();
      } else if d == 1057 {
        Orbit1057();
      } else {
        Orbit217();
      }
    }
    ReturnIff(Step(POLYNOMIAL), UNIT, full, n);
  }

  lemma {:induction false} SameIterates<T(!new)>(f: T -> T, g: T -> T, n: nat, x: T)
    requires forall y :: f(y) == g(y)
    ensures Iterate(f, n, x) == Iterate(g, n, x)
  {
    if n > 0 { SameIterates(f, g, n - 1, f(x)); }
  }

  lemma BitStepsAre(n: nat, x: bv16)
    ensures Iterate(BitStep, n, x) == After(n, x)
  {
    forall y: bv16
      ensures BitStep(y) == Step(POLYNOMIAL)(y)
    {
      BitStepIsShift(y);
    }
    SameIterates(BitStep, Step(POLYNOMIAL), n, x);
  }

  /** A single bit is back in its place exactly if the unit is. */
  lemma BitReturns(n: nat, full: nat)
    requires full == 32767
    ensures Iterate(BitStep, n, 1) == 1 <==> n % full == 0
  {
    hide Iterate;
    var f, k := Step(POLYNOMIAL), 15;
    Orbit15();
    BitStepsAre(n, 1);
    UnitReturns(n, full);
    IterateAdd(f, k, n, UNIT);
    IterateAdd(f, n, k, UNIT);
    HighPolynomial();
    StepInjective(POLYNOMIAL);
    if After(n, 1) == 1 { IterateInjective(f, k, After(n, UNIT), UNIT); }
  }

  // ----- Two flipped bits ---------------------------------------------------------------------------------

  /** Exactly the bits `i` and `j` are set. */
  ghost predicate OnlyAt(d: seq<bool>, i: nat, j: nat) {
    i < j < |d| && forall k :: 0 <= k < |d| ==> (d[k] <==> k == i || k == j)
  }

  /** The register between the two bits and behind them. */
  lemma PairStream(gap: seq<bool>, after: seq<bool>)
    requires forall k :: 0 <= k < |gap| ==> !gap[k]
    requires forall k :: 0 <= k < |after| ==> !after[k]
    ensures Stream(0, [true] + gap + ([true] + after)) == 0 <==> Iterate(BitStep, |gap| + 1, 1) == 1
  {
    hide Iterate;
    var c := Iterate(BitStep, |gap| + 1, 1);
    FirstBit(gap);
    FeedAppend(Xor, BitStep, Bit, 0, [true] + gap, [true] + after);
    FeedAppend(Xor, BitStep, Bit, c, [true], after);
    OneBit(c);
    var e := BitStep(Xor(c, 1));
    QuietStream(e, after);
    XorEqual(c, 1);
    ZeroStays(|after|, e);
    ZeroStays(1, Xor(c, 1));
    OneStep(Xor(c, 1));
  }

  lemma OneStep(x: bv16)
    ensures Iterate(BitStep, 1, x) == BitStep(x)
  {
    IterateAdd(BitStep, 0, 1, x);
  }

  lemma OneBit(c: bv16)
    ensures Stream(c, [true]) == BitStep(Xor(c, 1))
  {}

  /** The first bit, and quiet after it. */
  lemma FirstBit(gap: seq<bool>)
    requires forall k :: 0 <= k < |gap| ==> !gap[k]
    ensures Stream(0, [true] + gap) == Iterate(BitStep, |gap| + 1, 1)
  {
    FeedAppend(Xor, BitStep, Bit, 0, [true], gap);
    OneBit(0);
    XorZero(1);
    QuietStream(BitStep(1), gap);
  }

  /** Only zero steps to zero. */
  lemma ZeroStays(n: nat, x: bv16)
    ensures Iterate(BitStep, n, x) == 0 <==> x == 0
  {
    BitStepInjective();
    IterateFixed(BitStep, n, 0);
    if Iterate(BitStep, n, x) == 0 { IterateInjective(BitStep, n, x, 0); }
  }

  lemma PairShows(d: seq<bool>, i: nat, j: nat, full: nat)
    requires OnlyAt(d, i, j) && full == 32767
    ensures Stream(0, d) == 0 <==> (j - i) % full == 0
  {
    hide Iterate, FeedBits;
    var gap, after := d[i + 1..j], d[j + 1..];
    assert d == d[..i] + ([true] + gap + ([true] + after));
    QuietPrefix(d[..i], [true] + gap + ([true] + after));
    PairStream(gap, after);
    BitReturns(j - i, full);
  }

  lemma PairWithin(d: seq<bool>, i: nat, j: nat)
    requires OnlyAt(d, i, j)
    ensures i < j && (|d| <= ORDER ==> (j - i) % ORDER != 0)
  {}

  /**
   Messages of equal length that differ in exactly two bits have different checksums, exactly if the distance of the
   two bits is not a multiple of 32767. So in messages of up to 4095 bytes two flipped bits are always noticed.
   */
  lemma TwoFlipsDetectedIff(s: seq<octet>, t: seq<octet>, i: nat, j: nat)
    requires |s| == |t| && OnlyAt(Flips(Bits(s), Bits(t)), i, j)
    ensures Crc(s) != Crc(t) <==> (j - i) % ORDER != 0
    ensures |s| <= 4095 ==> Crc(s) != Crc(t)
  {
    hide Stream, Flips, Bits, Crc, Xor, OnlyAt;
    var full := ORDER;
    PairWithin(Flips(Bits(s), Bits(t)), i, j);
    ChecksumDifference(s, t);
    PairShows(Flips(Bits(s), Bits(t)), i, j, full);
    XorEqual(Crc(s), Crc(t));
  }
}
