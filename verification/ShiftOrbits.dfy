/**
 The orbits of 16-bit right shift registers, whatever their taps: a word is a polynomial over GF(2), a step
 multiplies it by the indeterminate, and many steps at once are one multiplication.
 */
module ShiftOrbits {
  import opened ShiftRegister

  /** One step of the register with these taps, as a map. */
  function Step(taps: bv16): bv16 -> bv16 {
    x => Shift(taps, x)
  }

  lemma StepAdditive(taps: bv16)
    ensures Additive(Xor, Step(taps)) && Step(taps)(0) == 0
  {
    forall x: bv16, y: bv16
      ensures Step(taps)(Xor(x, y)) == Xor(Step(taps)(x), Step(taps)(y))
    {
      ShiftAdditive(taps, x, y);
    }
    ShiftOfZero(taps);
  }

  lemma ShiftOfZero(taps: bv16)
    ensures Shift(taps, 0) == 0
  {}

  lemma StepInjective(taps: bv16)
    requires taps & 0x8000 != 0
    ensures Injective(Step(taps))
  {
    forall x: bv16, y: bv16
      ensures Step(taps)(x) == Step(taps)(y) ==> x == y
    {
      if Step(taps)(x) == Step(taps)(y) { ShiftInjective(taps, x, y); }
    }
  }

  /** The register after `n` steps. */
  function After(taps: bv16, n: nat, x: bv16): bv16 {
    Iterate(Step(taps), n, x)
  }

  // ----- A step as multiplication -------------------------------------------------------------
  // With the top bit as the unit, a word stands for a polynomial over GF(2) and a step
  // multiplies by the indeterminate. Every additive map that commutes with a step is then
  // multiplication by its value at the unit.

  const UNIT: bv16 := 0x8000

  predicate Top(x: bv16) {
    x & 0x8000 != 0
  }

  function Double(x: bv16): bv16 {
    x << 1
  }

  /** The bits of a word, top bit first. */
  function WordBits(x: bv16): seq<bool> {
    Bits16(Top, Double, x)
  }

  /** The product of `v` and `x`: the sum of the i-th step of `v` over the bits of `x`. */
  function Product(taps: bv16, v: bv16, x: bv16, i: nat): bv16
    requires i <= 16
  {
    Poly(Xor, 0, Step(taps), WordBits(x), i, v)
  }

  /** One round of the product, in a form that evaluates quickly. */
  function Stage(taps: bv16, bit: bool, v: bv16, r: bv16): bv16 {
    if bit then if r & 1 == 1 then v ^ ((r >> 1) ^ taps) else v ^ (r >> 1)
    else if r & 1 == 1 then (r >> 1) ^ taps else r >> 1
  }

  function Staged(taps: bv16): (bool, bv16, bv16) -> bv16 {
    (bit, v, r) => Stage(taps, bit, v, r)
  }

  /** The product written out, so that it can be evaluated. */
  function Times(taps: bv16, v: bv16, x: bv16): bv16 {
    var x1 := x << 1;
    var x2 := x1 << 1;
    var x3 := x2 << 1;
    var x4 := x3 << 1;
    var x5 := x4 << 1;
    var x6 := x5 << 1;
    var x7 := x6 << 1;
    var x8 := x7 << 1;
    var x9 := x8 << 1;
    var x10 := x9 << 1;
    var x11 := x10 << 1;
    var x12 := x11 << 1;
    var x13 := x12 << 1;
    var x14 := x13 << 1;
    var x15 := x14 << 1;
    Stage(taps, x & 0x8000 != 0, v, Stage(taps, x1 & 0x8000 != 0, v,
        Stage(taps, x2 & 0x8000 != 0, v, Stage(taps, x3 & 0x8000 != 0, v,
    Stage(taps, x4 & 0x8000 != 0, v, Stage(taps, x5 & 0x8000 != 0, v,
        Stage(taps, x6 & 0x8000 != 0, v, Stage(taps, x7 & 0x8000 != 0, v,
    Stage(taps, x8 & 0x8000 != 0, v, Stage(taps, x9 & 0x8000 != 0, v,
        Stage(taps, x10 & 0x8000 != 0, v, Stage(taps, x11 & 0x8000 != 0, v,
    Stage(taps, x12 & 0x8000 != 0, v, Stage(taps, x13 & 0x8000 != 0, v,
        Stage(taps, x14 & 0x8000 != 0, v, Stage(taps, x15 & 0x8000 != 0, v, 0))))))))))))))))
  }

  lemma ShiftOdd(taps: bv16, r: bv16)
    requires Odd(r)
    ensures Shift(taps, r) == (r >> 1) ^ taps
  {}

  lemma ShiftEven(taps: bv16, r: bv16)
    requires !Odd(r)
    ensures Shift(taps, r) == r >> 1
  {}

  lemma StageWhenOdd(taps: bv16, v: bv16, r: bv16)
    requires r & 1 == 1
    ensures Stage(taps, true, v, r) == v ^ ((r >> 1) ^ taps) && Stage(taps, false, v, r) == (r >> 1) ^ taps
  {}

  lemma StageOdd(taps: bv16, v: bv16, r: bv16)
    requires Odd(r)
    ensures Stage(taps, true, v, r) == Xor(v, Step(taps)(r)) && Stage(taps, false, v, r) == Step(taps)(r)
  {
    StageWhenOdd(taps, v, r);
    hide Shift, Stage;
    ShiftOdd(taps, r);
  }

  lemma StageEven(taps: bv16, v: bv16, r: bv16)
    requires !Odd(r)
    ensures Stage(taps, true, v, r) == Xor(v, Step(taps)(r)) && Stage(taps, false, v, r) == Step(taps)(r)
  {
    hide Shift;
    ShiftEven(taps, r);
  }

  lemma StageIsRound(taps: bv16, bit: bool, v: bv16, r: bv16)
    ensures Stage(taps, bit, v, r) == if bit then Xor(v, Step(taps)(r)) else Step(taps)(r)
  {
    if Odd(r) { StageOdd(taps, v, r); } else { StageEven(taps, v, r); }
  }

  lemma TimesIsPoly16(taps: bv16, v: bv16, x: bv16)
    ensures Times(taps, v, x) == Poly16(Staged(taps), Top, Double, 0, v, x)
  {}

  lemma TimesIsProduct(taps: bv16, v: bv16, x: bv16)
    ensures Times(taps, v, x) == Product(taps, v, x, 0)
  {
    forall b: bool, r: bv16
      ensures Stage(taps, b, v, r) == if b then Xor(v, Step(taps)(r)) else Step(taps)(r)
    {
      StageIsRound(taps, b, v, r);
    }
    Poly16IsPoly(Xor, 0, Step(taps), Staged(taps), Top, Double, v, x);
    TimesIsPoly16(taps, v, x);
  }

  lemma RestoreTop(y: bv16)
    requires y & 0x8000 != 0
    ensures 0x8000 ^ ((y << 1) >> 1) == y && (y << 1) & 1 == 0
  {}

  lemma UnitRoundTop(taps: bv16, y: bv16)
    requires Top(y)
    ensures Stage(taps, true, UNIT, y << 1) == y
  {
    RestoreTop(y);
    assert Stage(taps, true, UNIT, y << 1) == UNIT ^ ((y << 1) >> 1);
  }

  lemma UnitRoundLow(taps: bv16, y: bv16)
    requires !Top(y)
    ensures Stage(taps, false, UNIT, y << 1) == y
  {}

  lemma DoublesToZero(x: bv16)
    ensures Iterate(Double, 16, x) == 0
  {
    var x1 := Double(x);
    var x2 := Double(x1);
    var x3 := Double(x2);
    var x4 := Double(x3);
    var x5 := Double(x4);
    var x6 := Double(x5);
    var x7 := Double(x6);
    var x8 := Double(x7);
    var x9 := Double(x8);
    var x10 := Double(x9);
    var x11 := Double(x10);
    var x12 := Double(x11);
    var x13 := Double(x12);
    var x14 := Double(x13);
    var x15 := Double(x14);
    var x16 := Double(x15);
    assert x16 == 0;
    assert Iterate(Double, 4, x12) == x16;
    assert Iterate(Double, 8, x8) == x16;
    assert Iterate(Double, 12, x4) == x16;
  }

  lemma UnitTimes(taps: bv16, x: bv16)
    ensures Product(taps, UNIT, x, 0) == x
  {
    forall y: bv16
      ensures Stage(taps, Top(y), UNIT, Double(y)) == y
    {
      if Top(y) { UnitRoundTop(taps, y); } else { UnitRoundLow(taps, y); }
    }
    DoublesToZero(x);
    Poly16Restores(Staged(taps), Top, Double, 0, UNIT, x);
    TimesIsPoly16(taps, UNIT, x);
    TimesIsProduct(taps, UNIT, x);
  }

  /** A map that respects addition and stepping is multiplication by its value at the unit. */
  lemma MapIsProduct(taps: bv16, f: bv16 -> bv16, x: bv16)
    requires Additive(Xor, f) && f(0) == 0 && forall y :: f(Step(taps)(y)) == Step(taps)(f(y))
    ensures f(x) == Product(taps, f(UNIT), x, 0)
  {
    hide WordBits, Poly;
    UnitTimes(taps, x);
    PolyMapped(Xor, 0, Step(taps), f, WordBits(x), 0, UNIT);
  }

  lemma AfterXor(taps: bv16, n: nat, x: bv16, y: bv16)
    ensures After(taps, n, Xor(x, y)) == Xor(After(taps, n, x), After(taps, n, y))
  {
    StepAdditive(taps);
    IterateAdditive(Xor, Step(taps), n, x, y);
  }

  lemma AfterStep(taps: bv16, n: nat, x: bv16)
    ensures After(taps, n, Step(taps)(x)) == Step(taps)(After(taps, n, x))
  {
    IterateAdd(Step(taps), 1, n, x);
    IterateAdd(Step(taps), n, 1, x);
  }

  lemma AfterFacts(taps: bv16, n: nat)
    ensures Additive(Xor, y => After(taps, n, y)) && After(taps, n, 0) == 0
    ensures forall y :: After(taps, n, Step(taps)(y)) == Step(taps)(After(taps, n, y))
  {
    StepAdditive(taps);
    var f := (y: bv16) => After(taps, n, y);
    forall x, y
      ensures f(Xor(x, y)) == Xor(f(x), f(y))
    {
      AfterXor(taps, n, x, y);
    }
    forall y
      ensures After(taps, n, Step(taps)(y)) == Step(taps)(After(taps, n, y))
    {
      AfterStep(taps, n, y);
    }
    IterateFixed(Step(taps), n, 0);
  }

  lemma AfterIsProduct(taps: bv16, n: nat, x: bv16)
    ensures After(taps, n, x) == Times(taps, After(taps, n, UNIT), x)
  {
    AfterFacts(taps, n);
    MapIsProduct(taps, y => After(taps, n, y), x);
    TimesIsProduct(taps, After(taps, n, UNIT), x);
  }

  /** Exponents add: the orbit of the unit composes by multiplication. */
  lemma AfterSum(taps: bv16, m: nat, n: nat, c: bv16, d: bv16, r: bv16)
    requires After(taps, m, UNIT) == c && After(taps, n, UNIT) == d && Times(taps, d, c) == r
    ensures After(taps, m + n, UNIT) == r
  {
    IterateAdd(Step(taps), m, n, UNIT);
    AfterIsProduct(taps, n, c);
  }

  // ----- Words that do not come back --------------------------------------------------------------

  lemma XorFacts()
    ensures Exchanges(Xor) && forall y :: Xor(y, y) == 0
  {
    XorExchanges();
    forall y: bv16 ensures Xor(y, y) == 0 { XorZero(y); }
  }

  /** Every word is a polynomial of the unit. */
  lemma Coefficients(taps: bv16, x: bv16) returns (bits: seq<bool>)
    ensures Poly(Xor, 0, Step(taps), bits, 0, UNIT) == x
  {
    bits := WordBits(x);
    UnitTimes(taps, x);
  }

  lemma Inverse(taps: bv16, c: bv16, inverse: bv16) returns (q: seq<bool>)
    requires Times(taps, c, inverse) == UNIT
    ensures Poly(Xor, 0, Step(taps), q, 0, c) == UNIT
  {
    q := WordBits(inverse);
    TimesIsProduct(taps, c, inverse);
  }

  lemma NoReturnAfter(taps: bv16, n: nat, c: bv16, q: seq<bool>, x: bv16)
    requires x != 0
    requires Xor(Iterate(Step(taps), n, UNIT), UNIT) == c && Poly(Xor, 0, Step(taps), q, 0, c) == UNIT
    ensures Iterate(Step(taps), n, x) != x
  {
    StepAdditive(taps);
    XorFacts();
    var bits := Coefficients(taps, x);
    if Iterate(Step(taps), n, x) == x {
      NoReturn(Xor, 0, Step(taps), n, q, UNIT, bits, x);
    }
  }

  lemma AfterNotZero(taps: bv16, x: bv16, n: nat)
    requires taps & 0x8000 != 0 && x != 0
    ensures After(taps, n, x) != 0
  {
    if After(taps, n, x) == 0 {
      StepAdditive(taps);
      StepInjective(taps);
      IterateFixed(Step(taps), n, 0);
      IterateInjective(Step(taps), n, x, 0);
    }
  }

  // ----- Divisors -----------------------------------------------------------------------------------

  predicate Prime(p: nat) {
    1 < p && forall d :: 1 < d < p ==> p % d != 0
  }

  lemma {:induction false} Euclid(p: nat, r: nat, s: int, t: int) returns (u: int)
    requires Prime(p) && 0 < r < p && r * s == p * t
    ensures s == p * u
    decreases r
  {
    if r == 1 {
      u := t;
    } else {
      var k, r' := p / r, p % r;
      assert r' * s == p * (s - k * t) by {
        assert p == k * r + r';
        assert r' * s == p * s - k * (r * s);
      }
      u := Euclid(p, r', s, s - k * t);
    }
  }

  /** A prime that divides a product divides one of its factors. */
  lemma PrimeDivides(p: nat, a: nat, b: nat, rest: nat) returns (first: bool, u: int)
    requires Prime(p) && a * b == p * rest
    ensures if first then a == p * u else b == p * u
  {
    var k, r := a / p, a % p;
    if r == 0 {
      first, u := true, k;
    } else {
      assert r * b == p * (rest - k * b) by {
        assert a == k * p + r;
      }
      first := false;
      u := Euclid(p, r, b, rest - k * b);
    }
  }
}
