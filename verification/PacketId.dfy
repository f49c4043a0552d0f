/**
 The packet-id generator of the MQTT client (libs/mqtt.c, __mqtt_next_pid): a 16-bit Galois
 shift register with taps 0xB400. The register steps through every non-zero word before it
 repeats one, so the search for an unused id takes at most one step more than there are
 queued messages.
 */
module PacketId {
  import opened ShiftRegister
  import Orbits = ShiftOrbits

  const TAPS: bv16 := 0xB400
  const SEED: bv16 := 163
  const UNIT := Orbits.UNIT

  /** One step of the register: shift right, and fold the taps in when a set bit falls out. */
  function Step(x: bv16): bv16 {
    Shift(TAPS, x)
  }

  /** The register after `n` steps. */
  function After(n: nat, x: bv16): bv16 {
    Orbits.After(TAPS, n, x)
  }

  lemma AfterSum(m: nat, n: nat, c: bv16, d: bv16, r: bv16)
    requires After(m, UNIT) == c && After(n, UNIT) == d && Orbits.Times(TAPS, d, c) == r
    ensures After(m + n, UNIT) == r
  {
    Orbits.AfterSum(TAPS, m, n, c, d, r);
  }

  // ----- How far the unit has come after some numbers of steps ----------------------------------

  lemma Orbit1()
    ensures After(1, UNIT) == 0x4000
  {
    assert Step(UNIT) == 0x4000;
  }

  lemma OrbitTo16()
    ensures After(2, UNIT) == 0x2000
    ensures After(4, UNIT) == 0x0800
    ensures After(8, UNIT) == 0x0080
    ensures After(16, UNIT) == 0xB400
  {
    Orbit1();
    AfterSum(1, 1, 0x4000, 0x4000, 0x2000);
    AfterSum(2, 2, 0x2000, 0x2000, 0x0800);
    AfterSum(4, 4, 0x0800, 0x0800, 0x0080);
    AfterSum(8, 8, 0x0080, 0x0080, 0xB400);
  }

  lemma OrbitTo256()
    ensures After(32, UNIT) == 0x8A20
    ensures After(64, UNIT) == 0x8BC8
    ensures After(128, UNIT) == 0x193E
    ensures After(0x100, UNIT) == 0x5180
  {
    OrbitTo16();
    AfterSum(16, 16, 0xB400, 0xB400, 0x8A20);
    AfterSum(32, 32, 0x8A20, 0x8A20, 0x8BC8);
    AfterSum(64, 64, 0x8BC8, 0x8BC8, 0x193E);
    AfterSum(128, 128, 0x193E, 0x193E, 0x5180);
  }

  lemma OrbitTo4096()
    ensures After(0x200, UNIT) == 0x9602
    ensures After(0x400, UNIT) == 0xD823
    ensures After(0x800, UNIT) == 0x0B49
    ensures After(0x1000, UNIT) == 0xD5BC
  {
    OrbitTo256();
    AfterSum(256, 256, 0x5180, 0x5180, 0x9602);
    AfterSum(512, 512, 0x9602, 0x9602, 0xD823);
    AfterSum(1024, 1024, 0xD823, 0xD823, 0x0B49);
    AfterSum(2048, 2048, 0x0B49, 0x0B49, 0xD5BC);
  }

  lemma OrbitTo32768()
    ensures After(0x2000, UNIT) == 0x1F2B
    ensures After(0x4000, UNIT) == 0xABD7
    ensures After(0x8000, UNIT) == 0xB1FE
  {
    OrbitTo4096();
    AfterSum(4096, 4096, 0xD5BC, 0xD5BC, 0x1F2B);
    AfterSum(8192, 8192, 0x1F2B, 0x1F2B, 0xABD7);
    AfterSum(16384, 16384, 0xABD7, 0xABD7, 0xB1FE);
  }

  lemma Orbit5555Low()
    ensures After(5, UNIT) == 0x0400
    ensures After(80, UNIT) == 0xE61D
    ensures After(85, UNIT) == 0xCF70
  {
    Orbit1();
    OrbitTo16();
    OrbitTo256();
    AfterSum(1, 4, 0x4000, 0x0800, 0x0400);
    AfterSum(16, 64, 0xB400, 0x8BC8, 0xE61D);
    AfterSum(5, 80, 0x0400, 0xE61D, 0xCF70);
  }

  lemma Orbit5555()
    ensures After(0x500, UNIT) == 0xC6B5
    ensures After(0x5000, UNIT) == 0x5494
    ensures After(0x5500, UNIT) == 0xD3DA
    ensures After(0x5555, UNIT) == 0x5335
  {
    Orbit5555Low();
    OrbitTo256();
    OrbitTo4096();
    OrbitTo32768();
    AfterSum(256, 1024, 0x5180, 0xD823, 0xC6B5);
    AfterSum(4096, 16384, 0xD5BC, 0xABD7, 0x5494);
    AfterSum(1280, 20480, 0xC6B5, 0x5494, 0xD3DA);
    AfterSum(85, 21760, 0xCF70, 0xD3DA, 0x5335);
  }

  lemma Orbit3333Low()
    ensures After(3, UNIT) == 0x1000
    ensures After(48, UNIT) == 0xBDBD
    ensures After(51, UNIT) == 0x8EB7
  {
    Orbit1();
    OrbitTo16();
    OrbitTo256();
    AfterSum(1, 2, 0x4000, 0x2000, 0x1000);
    AfterSum(16, 32, 0xB400, 0x8A20, 0xBDBD);
    AfterSum(3, 48, 0x1000, 0xBDBD, 0x8EB7);
  }

  lemma Orbit3333High()
    ensures After(0x300, UNIT) == 0x050B
    ensures After(0x3000, UNIT) == 0x8BBF
    ensures After(0x3300, UNIT) == 0x4C02
  {
    OrbitTo256();
    OrbitTo4096();
    OrbitTo32768();
    AfterSum(256, 512, 0x5180, 0x9602, 0x050B);
    AfterSum(4096, 8192, 0xD5BC, 0x1F2B, 0x8BBF);
    AfterSum(768, 12288, 0x050B, 0x8BBF, 0x4C02);
  }

  lemma Orbit3333()
    ensures After(0x3333, UNIT) == 0x5F61
  {
    Orbit3333Low();
    Orbit3333High();
    AfterSum(51, 13056, 0x8EB7, 0x4C02, 0x5F61);
  }

  lemma Orbit00F0()
    ensures After(12, UNIT) == 0x0008 && After(240, UNIT) == 0xF0E3
  {
    OrbitTo16();
    OrbitTo256();
    Orbit3333Low();
    AfterSum(4, 8, 0x0800, 0x0080, 0x0008);
    AfterSum(64, 128, 0x8BC8, 0x193E, 0x53DC);
    AfterSum(48, 192, 0xBDBD, 0x53DC, 0xF0E3);
  }

  lemma Orbit00FF()
    ensures After(15, UNIT) == 0x0001 && After(255, UNIT) == 0xA300
  {
    Orbit3333Low();
    Orbit00F0();
    AfterSum(3, 12, 0x1000, 0x0008, 0x0001);
    AfterSum(15, 240, 0x0001, 0xF0E3, 0xA300);
  }

  lemma OrbitFF00()
    ensures After(0xc00, UNIT) == 0x28C8
    ensures After(0xc000, UNIT) == 0xD815
    ensures After(0xf00, UNIT) == 0x201E
    ensures After(0xf000, UNIT) == 0x20C0
    ensures After(0xff00, UNIT) == 0xABDF
  {
    Orbit3333High();
    OrbitTo4096();
    OrbitTo32768();
    AfterSum(1024, 2048, 0xD823, 0x0B49, 0x28C8);
    AfterSum(16384, 32768, 0xABD7, 0xB1FE, 0xD815);
    AfterSum(768, 3072, 0x050B, 0x28C8, 0x201E);
    AfterSum(12288, 49152, 0x8BBF, 0xD815, 0x20C0);
    AfterSum(3840, 61440, 0x201E, 0x20C0, 0xABDF);
  }

  lemma Orbit0F0F()
    ensures After(0xf0f, UNIT) == 0x2D35
  {
    Orbit00FF();
    OrbitFF00();
    AfterSum(15, 3840, 0x0001, 0x201E, 0x2D35);
  }

  lemma OrbitFFFF()
    ensures After(0xffff, UNIT) == 0x8000
  {
    Orbit00FF();
    OrbitFF00();
    AfterSum(255, 65280, 0xA300, 0xABDF, 0x8000);
  }

  // ----- The period -----------------------------------------------------------------------------

  lemma Difference5555(n: nat)
    requires n == 0x5555
    ensures Xor(Iterate(Orbits.Step(TAPS), n, UNIT), UNIT) == 0xD335
  {
    Orbit5555();
  }

  lemma NoReturn5555(n: nat, x: bv16)
    requires x != 0 && n == 0x5555
    ensures After(n, x) != x
  {
    Difference5555(n);
    var q := Orbits.Inverse(TAPS, 0xD335, 0x5335);
    Orbits.NoReturnAfter(TAPS, n, 0xD335, q, x);
  }

  lemma Difference3333(n: nat)
    requires n == 0x3333
    ensures Xor(Iterate(Orbits.Step(TAPS), n, UNIT), UNIT) == 0xDF61
  {
    Orbit3333();
  }

  lemma NoReturn3333(n: nat, x: bv16)
    requires x != 0 && n == 0x3333
    ensures After(n, x) != x
  {
    Difference3333(n);
    var q := Orbits.Inverse(TAPS, 0xDF61, 0xF03C);
    Orbits.NoReturnAfter(TAPS, n, 0xDF61, q, x);
  }

  lemma Difference0F0F(n: nat)
    requires n == 0x0F0F
    ensures Xor(Iterate(Orbits.Step(TAPS), n, UNIT), UNIT) == 0xAD35
  {
    Orbit0F0F();
  }

  lemma NoReturn0F0F(n: nat, x: bv16)
    requires x != 0 && n == 0x0F0F
    ensures After(n, x) != x
  {
    Difference0F0F(n);
    var q := Orbits.Inverse(TAPS, 0xAD35, 0xEEFE);
    Orbits.NoReturnAfter(TAPS, n, 0xAD35, q, x);
  }

  lemma Difference00FF(n: nat)
    requires n == 0x00FF
    ensures Xor(Iterate(Orbits.Step(TAPS), n, UNIT), UNIT) == 0x2300
  {
    Orbit00FF();
  }

  lemma NoReturn00FF(n: nat, x: bv16)
    requires x != 0 && n == 0x00FF
    ensures After(n, x) != x
  {
    Difference00FF(n);
    var q := Orbits.Inverse(TAPS, 0x2300, 0x0E55);
    Orbits.NoReturnAfter(TAPS, n, 0x2300, q, x);
  }

  /** After 65535 steps every word is back. */
  lemma FullReturn(n: nat, x: bv16)
    requires n == 0xFFFF
    ensures After(n, x) == x
  {
    OrbitFFFF();
    Orbits.AfterIsProduct(TAPS, n, x);
    Orbits.TimesIsProduct(TAPS, UNIT, x);
    Orbits.UnitTimes(TAPS, x);
  }

  lemma SmallPrimes()
    ensures Orbits.Prime(3) && Orbits.Prime(5) && Orbits.Prime(17)
  {
    assert 17 % 2 == 1 && 17 % 3 == 2 && 17 % 4 == 1 && 17 % 5 == 2 && 17 % 6 == 5 && 17 % 7 == 3 && 17 % 8 == 1;
    forall d | 1 < d < 17
      ensures 17 % d != 0
    {
      if d > 8 { assert 17 == d + (17 - d) && 17 - d < d; }
    }
    assert 5 % 2 == 1 && 5 % 3 == 2 && 5 % 4 == 1 && 3 % 2 == 1;
  }

  lemma NoFactorOf257(d: nat, m: nat)
    requires 2 <= d <= 16
    ensures d * m != 257
  {
    if d <= 4 {
      if d == 2 {} else if d == 3 {} else {}
    } else if d <= 8 {
      if d == 5 {} else if d == 6 {} else if d == 7 {} else {}
    } else if d <= 12 {
      if d == 9 {} else if d == 10 {} else if d == 11 {} else {}
    } else {
      if d == 13 {} else if d == 14 {} else if d == 15 {} else {}
    }
  }

  /** A proper divisor of 65535 = 3 * 5 * 17 * 257 divides one of its four maximal proper divisors. */
  lemma ProperDivisor(a: nat, q: nat) returns (k: nat)
    requires a * q == 65535 && 1 < q
    ensures k * a == 21845 || k * a == 13107 || k * a == 3855 || k * a == 255
  {
    SmallPrimes();
    var first, b := Orbits.PrimeDivides(3, a, q, 21845);
    if !first {
      k := b;
      assert 3 * (a * k) == 65535;
      return;
    }
    assert b * q == 21845;
    var second, c := Orbits.PrimeDivides(5, b, q, 4369);
    if !second {
      k := c;
      assert 5 * (a * k) == 65535;
      return;
    }
    assert c * q == 4369;
    var third, d := Orbits.PrimeDivides(17, c, q, 257);
    if !third {
      k := d;
      assert 17 * (a * k) == 65535;
      return;
    }
    assert d * q == 257;
    if d > 1 {
      assert d > 16 && q > 16 ==> d * q > 257;
      if d <= 16 { NoFactorOf257(d, q); } else if q <= 16 { NoFactorOf257(q, d); }
    }
    k := 1;
  }

  lemma PeriodFromDivisors<T(!new)>(f: T -> T, x: T, n: nat, full: nat)
    requires full == 0xFFFF && Injective(f) && Iterate(f, full, x) == x
    requires forall d: nat :: d == 0x5555 || d == 0x3333 || d == 0x0F0F || d == 0x00FF ==> Iterate(f, d, x) != x
    ensures 0 < n < full ==> Iterate(f, n, x) != x
  {
    if 0 < n < full && Iterate(f, n, x) == x {
      var least := LeastReturn(f, n, x);
      var q := LeastReturnDivides(f, least, full, x);
      var k := ProperDivisor(least, q);
      ReturnMultiple(f, least, k, x);
    }
  }

  /** The register visits every non-zero word: a word is back for the first time after 65535 steps. */
  lemma Period(x: bv16, n: nat, full: nat)
    requires x != 0 && full == 0xFFFF
    ensures After(full, x) == x
    ensures 0 < n < full ==> After(n, x) != x
  {
    FullReturn(full, x);
    Orbits.StepInjective(TAPS);
    forall d: nat | d == 0x5555 || d == 0x3333 || d == 0x0F0F || d == 0x00FF
      ensures Iterate(Orbits.Step(TAPS), d, x) != x
    {
      if d == 0x5555 { NoReturn5555(d, x); }
      else if d == 0x3333 { NoReturn3333(d, x); }
      else if d == 0x0F0F { NoReturn0F0F(d, x); }
      else { NoReturn00FF(d, x); }
    }
    PeriodFromDivisors(Orbits.Step(TAPS), x, n, full);
  }

  function Without<T>(s: seq<T>, k: nat): seq<T>
    requires k < |s|
  {
    s[..k] + s[k + 1..]
  }

  lemma WithoutKeeps<T>(s: seq<T>, k: nat, i: nat)
    requires k < |s| && i < |s| && s[i] != s[k]
    ensures s[i] in Without(s, k)
  {
    assert s[i] == if i < k then Without(s, k)[i] else Without(s, k)[i - 1];
  }

  function NonZero(): (s: seq<bv16>)
    ensures |s| == 65535
  {
    seq(65535, i requires 0 <= i < 65535 => (i + 1) as bv16)
  }

  lemma WordOfNumber(v: bv16) returns (n: nat)
    ensures n < 65536 && n as bv16 == v
  {
    n := v as nat;
  }

  lemma NumberNotZero(n: nat, v: bv16)
    requires n < 65536 && n as bv16 == v && v != 0
    ensures n > 0
  {}

  lemma Place(v: bv16) returns (k: nat)
    requires v != 0
    ensures k < 65535 && NonZero()[k] == v
  {
    var n := WordOfNumber(v);
    NumberNotZero(n, v);
    PlaceOf(n);
    k := n - 1;
  }

  lemma PlaceOf(n: nat)
    requires 0 < n < 65536
    ensures NonZero()[n - 1] == n as bv16
  {}

  /** One cycle: from any non-zero word the register comes to any other. */
  lemma OneCycle(x: bv16, y: bv16, full: nat) returns (n: nat)
    requires x != 0 && y != 0 && full == 0xFFFF
    ensures 1 <= n <= full && After(n, x) == y
  {
    if j :| 1 <= j <= full && After(j, x) == y {
      n := j;
    } else {
      var at := Place(y);
      forall j | 1 <= j <= full
        ensures Iterate(Orbits.Step(TAPS), j, x) in Without(NonZero(), at)
      {
        Orbits.AfterNotZero(TAPS, x, j);
        assert After(j, x) != y;
        var i := Place(After(j, x));
        WithoutKeeps(NonZero(), at, i);
      }
      forall j | 0 < j < full
        ensures Iterate(Orbits.Step(TAPS), j, x) != x
      {
        Period(x, j, full);
      }
      Orbits.StepInjective(TAPS);
      VisitedAmong(Orbits.Step(TAPS), full, x, full, Without(NonZero(), at));
      assert false;
    }
  }

  // ----- The search for an unused id ------------------------------------------------------------

  const FULL: nat := 65535

  /** The register is seeded on first use. */
  function Seeded(lfsr: bv16): bv16 {
    if lfsr == 0 then SEED else lfsr
  }

  lemma UsedUp(used: seq<bv16>, lfsr: bv16, k: nat, full: nat)
    requires full == 0xFFFF && k <= full
    requires forall j :: 1 <= j <= k ==> After(j, Seeded(lfsr)) in used
    ensures k <= |used|
  {
    var x := Seeded(lfsr);
    forall n | 0 < n < full
      ensures Iterate(Orbits.Step(TAPS), n, x) != x
    {
      Period(x, n, full);
    }
    Orbits.StepInjective(TAPS);
    forall j | 1 <= j <= k
      ensures Iterate(Orbits.Step(TAPS), j, x) in used
    {
      assert After(j, Seeded(lfsr)) in used;
    }
    VisitedAmong(Orbits.Step(TAPS), k, x, full, used);
  }

  /** The first word after the k-th step on that is not in use. */
  function Search(used: seq<bv16>, lfsr: bv16, k: nat, full: nat): bv16
    requires full == 0xFFFF && |used| < full && 1 <= k <= |used| + 1
    requires forall j :: 1 <= j < k ==> After(j, Seeded(lfsr)) in used
    decreases |used| + 1 - k
  {
    var id := After(k, Seeded(lfsr));
    if id !in used then id
    else
      assert forall j :: 1 <= j < k + 1 ==> After(j, Seeded(lfsr)) in used;
      UsedUp(used, lfsr, k, full);
      Search(used, lfsr, k + 1, full)
  }

  function NextId(used: seq<bv16>, lfsr: bv16): bv16
    requires |used| < FULL
  {
    var full := FULL;
    Search(used, lfsr, 1, full)
  }

  /** `id` is the first unused word after the register's current one, `n` steps on. */
  predicate FirstUnused(used: seq<bv16>, lfsr: bv16, id: bv16, n: nat) {
    && n >= 1 && id == After(n, Seeded(lfsr)) && id !in used
    && forall j :: 1 <= j < n ==> After(j, Seeded(lfsr)) in used
  }

  lemma {:induction false} SearchFinds(used: seq<bv16>, lfsr: bv16, k: nat, full: nat) returns (n: nat)
    requires full == 0xFFFF && |used| < full && 1 <= k <= |used| + 1
    requires forall j :: 1 <= j < k ==> After(j, Seeded(lfsr)) in used
    ensures n <= |used| + 1 && FirstUnused(used, lfsr, Search(used, lfsr, k, full), n)
    decreases |used| + 1 - k
  {
    if After(k, Seeded(lfsr)) !in used {
      n := k;
    } else {
      UsedUp(used, lfsr, k, full);
      n := SearchFinds(used, lfsr, k + 1, full);
    }
  }

  /** The search ends after at most one step more than there are ids in use, at an unused non-zero id. */
  lemma NextIdFresh(used: seq<bv16>, lfsr: bv16) returns (n: nat)
    requires |used| < FULL
    ensures n <= |used| + 1 && FirstUnused(used, lfsr, NextId(used, lfsr), n)
    ensures NextId(used, lfsr) !in used && NextId(used, lfsr) != 0
  {
    var full := FULL;
    n := SearchFinds(used, lfsr, 1, full);
    Orbits.AfterNotZero(TAPS, Seeded(lfsr), n);
  }

  lemma FirstIs(used: seq<bv16>, lfsr: bv16, id: bv16)
    requires |used| < FULL && id !in used && Step(Seeded(lfsr)) == id
    ensures NextId(used, lfsr) == id
  {
    hide Step;
    OneStep(Seeded(lfsr));
    FirstIsNext(used, lfsr, id, 1);
  }

  lemma SecondIs(used: seq<bv16>, lfsr: bv16, id: bv16, id': bv16)
    requires |used| < FULL && id in used && id' !in used && Step(Seeded(lfsr)) == id && Step(id) == id'
    ensures NextId(used, lfsr) == id'
  {
    hide Step;
    OneStep(Seeded(lfsr));
    OneMoreStep(Seeded(lfsr), 1);
    FirstIsNext(used, lfsr, id', 2);
  }

  lemma OneStep(x: bv16)
    ensures After(1, x) == Step(x)
  {
    NoStep(x);
    OneMoreStep(x, 0);
  }

  /** The first ids are B451 and EE28, then 7714; an id in use is passed over. */
  lemma FirstIds(used: seq<bv16>)
    requires |used| < 65535
    ensures NextId([], 0) == 0xB451 && NextId([], 0xB451) == 0xEE28 && NextId([], 0xEE28) == 0x7714
    ensures 0xB451 in used && 0xEE28 !in used ==> NextId(used, 0) == 0xEE28
  {
    hide NextId;
    assert Step(163) == 0xB451 && Step(0xB451) == 0xEE28 && Step(0xEE28) == 0x7714;
    FirstIs([], 0, 0xB451);
    FirstIs([], 0xB451, 0xEE28);
    FirstIs([], 0xEE28, 0x7714);
    if 0xB451 in used && 0xEE28 !in used { SecondIs(used, 0, 0xB451, 0xEE28); }
  }

  // ----- The loop of __mqtt_next_pid ------------------------------------------------------------

  lemma NoStep(x: bv16)
    ensures After(0, x) == x
  {}

  lemma OneMoreStep(x: bv16, k: nat)
    ensures After(k + 1, x) == Step(After(k, x))
  {
    Orbits.AfterStep(TAPS, k, x);
  }

  /** While every word so far is in use, there are more messages than words. */
  lemma StillUnused(used: seq<bv16>, lfsr: bv16, k: nat)
    requires |used| < FULL && k <= |used| + 1
    requires forall j :: 1 <= j <= k ==> After(j, Seeded(lfsr)) in used
    ensures k <= |used|
  {
    var full := FULL;
    UsedUp(used, lfsr, k, full);
  }

  lemma NotEarlier(used: seq<bv16>, lfsr: bv16, id: bv16, k: nat, id': bv16, n: nat)
    requires FirstUnused(used, lfsr, id, k) && FirstUnused(used, lfsr, id', n)
    ensures k <= n
  {}

  lemma FirstIsNext(used: seq<bv16>, lfsr: bv16, id: bv16, k: nat)
    requires |used| < FULL && FirstUnused(used, lfsr, id, k)
    ensures id == NextId(used, lfsr)
  {
    var n := NextIdFresh(used, lfsr);
    NotEarlier(used, lfsr, id, k, NextId(used, lfsr), n);
    NotEarlier(used, lfsr, NextId(used, lfsr), n, id, k);
  }
}
