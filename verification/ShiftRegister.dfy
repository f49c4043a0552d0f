/**
 Additive maps, and exclusive-or on 16-bit words as the addition they respect: the algebra
 behind the CRC and the packet-id generator. The maps are kept abstract (`plus` is a parameter)
 so that the solver reasons about them by equality alone.
 */
module ShiftRegister {

  function Xor(a: bv16, b: bv16): bv16 {
    a ^ b
  }

  lemma XorZero(a: bv16)
    ensures Xor(a, a) == 0 && Xor(a, 0) == a && Xor(0, a) == a
  {}

  lemma XorIsZero(a: bv16, b: bv16)
    requires Xor(a, b) == 0
    ensures a == b
  {
    assert a ^ b == 0;
  }

  lemma XorEqual(a: bv16, b: bv16)
    ensures Xor(a, b) == 0 <==> a == b
  {
    if a == b { XorZero(a); }
    if Xor(a, b) == 0 { XorIsZero(a, b); }
  }

  lemma XorExchange(a: bv16, b: bv16, c: bv16, d: bv16)
    ensures Xor(Xor(a, b), Xor(c, d)) == Xor(Xor(a, c), Xor(b, d))
  {
    calc {
      Xor(Xor(a, b), Xor(c, d));
      Xor(a ^ b, c ^ d);
      (a ^ b) ^ (c ^ d);
      (a ^ c) ^ (b ^ d);
      Xor(a ^ c, b ^ d);
      Xor(Xor(a, c), Xor(b, d));
    }
  }

  function Iterate<T>(f: T -> T, n: nat, x: T): T {
    if n == 0 then x else Iterate(f, n - 1, f(x))
  }

  lemma {:induction false} IterateAdd<T>(f: T -> T, m: nat, n: nat, x: T)
    ensures Iterate(f, m + n, x) == Iterate(f, n, Iterate(f, m, x))
  {
    if m > 0 {
      IterateAdd(f, m - 1, n, f(x));
    }
  }

  lemma {:induction false} IterateFixed<T>(f: T -> T, n: nat, x: T)
    requires f(x) == x
    ensures Iterate(f, n, x) == x
  {
    if n > 0 {
      IterateFixed(f, n - 1, x);
    }
  }

  ghost predicate Injective<T(!new)>(f: T -> T) {
    forall x, y :: f(x) == f(y) ==> x == y
  }

  lemma {:induction false} IterateInjective<T(!new)>(f: T -> T, n: nat, x: T, y: T)
    requires Injective(f)
    requires Iterate(f, n, x) == Iterate(f, n, y)
    ensures x == y
  {
    if n > 0 {
      IterateInjective(f, n - 1, f(x), f(y));
    }
  }

  ghost predicate Additive<T(!new)>(plus: (T, T) -> T, f: T -> T) {
    forall x, y :: f(plus(x, y)) == plus(f(x), f(y))
  }

  lemma {:induction false} IterateAdditive<T(!new)>(plus: (T, T) -> T, f: T -> T, n: nat, x: T, y: T)
    requires Additive(plus, f)
    ensures Iterate(f, n, plus(x, y)) == plus(Iterate(f, n, x), Iterate(f, n, y))
  {
    if n > 0 {
      IterateAdditive(plus, f, n - 1, f(x), f(y));
    }
  }

  // ----- Right shift registers ----------------------------------------------------------------

  predicate Odd(x: bv16) {
    x & 1 == 1
  }

  /** One shift to the right; a set bit that falls out folds the taps in. */
  function Shift(taps: bv16, x: bv16): bv16 {
    Xor(x >> 1, Feedback(Odd(x), taps))
  }

  function Feedback(odd: bool, taps: bv16): bv16 {
    if odd then taps else 0
  }

  lemma ShiftAdditive(taps: bv16, x: bv16, y: bv16)
    ensures Shift(taps, Xor(x, y)) == Xor(Shift(taps, x), Shift(taps, y))
  {
    var fx, fy := Feedback(Odd(x), taps), Feedback(Odd(y), taps);
    assert Xor(x, y) >> 1 == Xor(x >> 1, y >> 1) && Odd(Xor(x, y)) == (Odd(x) != Odd(y));
    assert Feedback(Odd(x) != Odd(y), taps) == Xor(fx, fy) by {
      XorZero(0);
      XorZero(taps);
      if Odd(x) { if Odd(y) {} else {} } else { if Odd(y) {} else {} }
    }
    XorExchange(x >> 1, y >> 1, fx, fy);
  }

  /** A shift loses nothing when the taps include the top bit. */
  lemma ShiftInjective(taps: bv16, x: bv16, y: bv16)
    requires taps & 0x8000 != 0
    requires Shift(taps, x) == Shift(taps, y)
    ensures x == y
  {}

  // ----- Polynomials in a map -------------------------------------------------------------------

  ghost predicate Exchange<T>(plus: (T, T) -> T, a: T, b: T, c: T, d: T) {
    plus(plus(a, b), plus(c, d)) == plus(plus(a, c), plus(b, d))
  }

  ghost predicate Exchanges<T(!new)>(plus: (T, T) -> T) {
    forall a, b, c, d :: Exchange(plus, a, b, c, d)
  }

  lemma XorExchanges()
    ensures Exchanges(Xor)
  {
    forall a: bv16, b: bv16, c: bv16, d: bv16
      ensures Exchange(Xor, a, b, c, d)
    {
      XorExchange(a, b, c, d);
    }
  }

  /** The sum of step^i(v) over the chosen i, by Horner's rule. */
  function Poly<T>(plus: (T, T) -> T, zero: T, step: T -> T, chosen: seq<bool>, i: nat, v: T): T
    requires i <= |chosen|
    decreases |chosen| - i
  {
    if i == |chosen| then zero
    else
      var rest := step(Poly(plus, zero, step, chosen, i + 1, v));
      if chosen[i] then plus(v, rest) else rest
  }

  /** An additive map that commutes with the step passes through such a sum. */
  lemma {:induction false} PolyMapped<T(!new)>(plus: (T, T) -> T, zero: T, step: T -> T, f: T -> T, chosen: seq<bool>,
                                        i: nat, v: T)
    requires i <= |chosen|
    requires Additive(plus, f) && f(zero) == zero && forall x :: f(step(x)) == step(f(x))
    ensures f(Poly(plus, zero, step, chosen, i, v)) == Poly(plus, zero, step, chosen, i, f(v))
    decreases |chosen| - i
  {
    if i < |chosen| {
      PolyMapped(plus, zero, step, f, chosen, i + 1, v);
    }
  }

  lemma {:induction false} PolyAdditive<T(!new)>(plus: (T, T) -> T, zero: T, step: T -> T, chosen: seq<bool>, i: nat,
                                          v: T, w: T)
    requires i <= |chosen|
    requires plus(zero, zero) == zero && Exchanges(plus) && Additive(plus, step)
    ensures Poly(plus, zero, step, chosen, i, plus(v, w))
         == plus(Poly(plus, zero, step, chosen, i, v), Poly(plus, zero, step, chosen, i, w))
    decreases |chosen| - i
  {
    if i < |chosen| {
      PolyAdditive(plus, zero, step, chosen, i + 1, v, w);
      var p, q := Poly(plus, zero, step, chosen, i + 1, v), Poly(plus, zero, step, chosen, i + 1, w);
      assert Exchange(plus, v, w, step(p), step(q));
    }
  }

  lemma {:induction false} PolyZero<T(!new)>(plus: (T, T) -> T, zero: T, step: T -> T, chosen: seq<bool>, i: nat)
    requires i <= |chosen|
    requires plus(zero, zero) == zero && step(zero) == zero
    ensures Poly(plus, zero, step, chosen, i, zero) == zero
    decreases |chosen| - i
  {
    if i < |chosen| {
      PolyZero(plus, zero, step, chosen, i + 1);
    }
  }

  lemma {:induction false} IterateCommutes<T>(f: T -> T, n: nat, x: T)
    ensures Iterate(f, n, f(x)) == f(Iterate(f, n, x))
  {
    if n > 0 {
      IterateCommutes(f, n - 1, f(x));
    }
  }

  /**
   If a polynomial `q` in the step undoes "n steps, plus the word itself" on the unit, it does so
   on every polynomial x of the unit; so x cannot be back after n steps unless it is zero.
   */
  lemma NoReturn<T(!new)>(plus: (T, T) -> T, zero: T, step: T -> T, n: nat, q: seq<bool>, unit: T, bits: seq<bool>,
                   x: T)
    requires Exchanges(plus) && forall y :: plus(y, y) == zero
    requires Additive(plus, step) && step(zero) == zero
    requires Poly(plus, zero, step, q, 0, plus(Iterate(step, n, unit), unit)) == unit
    requires Poly(plus, zero, step, bits, 0, unit) == x
    requires Iterate(step, n, x) == x
    ensures x == zero
  {
    var f := y => Poly(plus, zero, step, q, 0, plus(Iterate(step, n, y), y));
    forall y, z
      ensures f(plus(y, z)) == plus(f(y), f(z))
    {
      var g, h := Iterate(step, n, y), Iterate(step, n, z);
      IterateAdditive(plus, step, n, y, z);
      PolyAdditive(plus, zero, step, q, 0, plus(g, y), plus(h, z));
      assert Exchange(plus, g, h, y, z);
    }
    forall y
      ensures f(step(y)) == step(f(y))
    {
      IterateCommutes(step, n, y);
      PolyMapped(plus, zero, step, step, q, 0, plus(Iterate(step, n, y), y));
    }
    PolyZero(plus, zero, step, q, 0);
    IterateFixed(step, n, zero);
    PolyMapped(plus, zero, step, f, bits, 0, unit);
  }

  // ----- Periods ----------------------------------------------------------------------------------

  lemma {:induction false} ReturnMultiple<T>(f: T -> T, n: nat, k: nat, x: T)
    requires Iterate(f, n, x) == x
    ensures Iterate(f, k * n, x) == x
  {
    if k > 0 {
      ReturnMultiple(f, n, k - 1, x);
      IterateAdd(f, (k - 1) * n, n, x);
      assert k * n == (k - 1) * n + n;
    }
  }

  /** The least number of steps after which `x` is back divides every such number. */
  lemma {:induction false} LeastReturnDivides<T(!new)>(f: T -> T, least: nat, n: nat, x: T) returns (q: nat)
    requires Injective(f)
    requires 0 < least && Iterate(f, least, x) == x && Iterate(f, n, x) == x
    requires forall k :: 0 < k < least ==> Iterate(f, k, x) != x
    ensures n == least * q
    decreases n
  {
    if n == 0 {
      q := 0;
    } else {
      IterateAdd(f, n - least, least, x);
      IterateInjective(f, least, Iterate(f, n - least, x), x);
      q := LeastReturnDivides(f, least, n - least, x);
      q := q + 1;
    }
  }

  lemma LeastReturn<T>(f: T -> T, n: nat, x: T) returns (least: nat)
    requires 0 < n && Iterate(f, n, x) == x
    ensures 0 < least <= n && Iterate(f, least, x) == x
    ensures forall k :: 0 < k < least ==> Iterate(f, k, x) != x
  {
    least := 1;
    while Iterate(f, least, x) != x
      invariant 0 < least <= n
      invariant forall k :: 0 < k < least ==> Iterate(f, k, x) != x
      decreases n - least
    {
      least := least + 1;
    }
  }

  ghost function Visited<T>(f: T -> T, k: nat, x: T): set<T> {
    set j | 1 <= j <= k :: Iterate(f, j, x)
  }

  lemma {:induction false} VisitedCount<T(!new)>(f: T -> T, k: nat, x: T, full: nat)
    requires Injective(f) && k <= full && forall n :: 0 < n < full ==> Iterate(f, n, x) != x
    ensures |Visited(f, k, x)| == k
  {
    hide Iterate;
    if k > 0 {
      VisitedCount(f, k - 1, x, full);
      assert Visited(f, k, x) == Visited(f, k - 1, x) + {Iterate(f, k, x)};
      if Iterate(f, k, x) in Visited(f, k - 1, x) {
        var j :| 1 <= j <= k - 1 && Iterate(f, j, x) == Iterate(f, k, x);
        IterateAdd(f, k - j, j, x);
        IterateInjective(f, j, Iterate(f, k - j, x), x);
      }
    }
  }

  lemma {:induction false} ElementCount<T(!new)>(xs: seq<T>)
    ensures |set x | x in xs| <= |xs|
  {
    if xs != [] {
      ElementCount(xs[1..]);
      assert (set x | x in xs) == (set x | x in xs[1..]) + {xs[0]};
    }
  }

  /** As long as every word visited so far is among `used`, no more words were visited than `used` holds. */
  lemma VisitedAmong<T(!new)>(f: T -> T, k: nat, x: T, full: nat, used: seq<T>)
    requires Injective(f) && k <= full && forall n :: 0 < n < full ==> Iterate(f, n, x) != x
    requires forall j :: 1 <= j <= k ==> Iterate(f, j, x) in used
    ensures k <= |used|
  {
    VisitedCount(f, k, x, full);
    ElementCount(used);
    var s := set y | y in used;
    assert Visited(f, k, x) <= s;
    SubsetCount(Visited(f, k, x), s);
  }

  lemma {:induction false} SubsetCount<T>(a: set<T>, b: set<T>)
    requires a <= b
    ensures |a| <= |b|
    decreases a
  {
    if a != {} {
      var x :| x in a;
      SubsetCount(a - {x}, b - {x});
    }
  }

  // ----- Sixteen bits -----------------------------------------------------------------------------

  /** The top bits of x, 2x, 4x, ...: sixteen of them. */
  function Bits16<T>(top: T -> bool, shl: T -> T, x: T): (bits: seq<bool>)
    ensures |bits| == 16
  {
    var x1 := shl(x);
    var x2 := shl(x1);
    var x3 := shl(x2);
    var x4 := shl(x3);
    var x5 := shl(x4);
    var x6 := shl(x5);
    var x7 := shl(x6);
    var x8 := shl(x7);
    var x9 := shl(x8);
    var x10 := shl(x9);
    var x11 := shl(x10);
    var x12 := shl(x11);
    var x13 := shl(x12);
    var x14 := shl(x13);
    var x15 := shl(x14);
    [top(x), top(x1), top(x2), top(x3), top(x4), top(x5), top(x6), top(x7),
     top(x8), top(x9), top(x10), top(x11), top(x12), top(x13), top(x14), top(x15)]
  }

  /** `Poly` over those sixteen bits, written out. */
  function Poly16<T>(round: (bool, T, T) -> T, top: T -> bool, shl: T -> T, zero: T, v: T, x: T): T {
    var x1 := shl(x);
    var x2 := shl(x1);
    var x3 := shl(x2);
    var x4 := shl(x3);
    var x5 := shl(x4);
    var x6 := shl(x5);
    var x7 := shl(x6);
    var x8 := shl(x7);
    var x9 := shl(x8);
    var x10 := shl(x9);
    var x11 := shl(x10);
    var x12 := shl(x11);
    var x13 := shl(x12);
    var x14 := shl(x13);
    var x15 := shl(x14);
    round(top(x), v, round(top(x1), v, round(top(x2), v, round(top(x3), v,
    round(top(x4), v, round(top(x5), v, round(top(x6), v, round(top(x7), v,
    round(top(x8), v, round(top(x9), v, round(top(x10), v, round(top(x11), v,
    round(top(x12), v, round(top(x13), v, round(top(x14), v, round(top(x15), v, zero))))))))))))))))
  }

  lemma Poly16IsPoly<T(!new)>(plus: (T, T) -> T, zero: T, step: T -> T, round: (bool, T, T) -> T, top: T -> bool,
                       shl: T -> T, v: T, x: T)
    requires forall b, r :: round(b, v, r) == if b then plus(v, step(r)) else step(r)
    ensures Poly16(round, top, shl, zero, v, x) == Poly(plus, zero, step, Bits16(top, shl, x), 0, v)
  {
    var bits := Bits16(top, shl, x);
    var r15 := round(bits[15], v, zero);
    assert Poly(plus, zero, step, bits, 15, v) == r15;
    var r14 := round(bits[14], v, r15);
    assert Poly(plus, zero, step, bits, 14, v) == r14;
    var r13 := round(bits[13], v, r14);
    assert Poly(plus, zero, step, bits, 13, v) == r13;
    var r12 := round(bits[12], v, r13);
    assert Poly(plus, zero, step, bits, 12, v) == r12;
    var r11 := round(bits[11], v, r12);
    assert Poly(plus, zero, step, bits, 11, v) == r11;
    var r10 := round(bits[10], v, r11);
    assert Poly(plus, zero, step, bits, 10, v) == r10;
    var r9 := round(bits[9], v, r10);
    assert Poly(plus, zero, step, bits, 9, v) == r9;
    var r8 := round(bits[8], v, r9);
    assert Poly(plus, zero, step, bits, 8, v) == r8;
    var r7 := round(bits[7], v, r8);
    assert Poly(plus, zero, step, bits, 7, v) == r7;
    var r6 := round(bits[6], v, r7);
    assert Poly(plus, zero, step, bits, 6, v) == r6;
    var r5 := round(bits[5], v, r6);
    assert Poly(plus, zero, step, bits, 5, v) == r5;
    var r4 := round(bits[4], v, r5);
    assert Poly(plus, zero, step, bits, 4, v) == r4;
    var r3 := round(bits[3], v, r4);
    assert Poly(plus, zero, step, bits, 3, v) == r3;
    var r2 := round(bits[2], v, r3);
    assert Poly(plus, zero, step, bits, 2, v) == r2;
    var r1 := round(bits[1], v, r2);
    assert Poly(plus, zero, step, bits, 1, v) == r1;
    var r0 := round(bits[0], v, r1);
    assert Poly(plus, zero, step, bits, 0, v) == r0;
  }

  /** If a round restores a word from its double and its top bit, sixteen rounds restore it from its bits. */
  lemma Poly16Restores<T(!new)>(round: (bool, T, T) -> T, top: T -> bool, shl: T -> T, zero: T, v: T, x: T)
    requires forall y :: round(top(y), v, shl(y)) == y
    requires Iterate(shl, 16, x) == zero
    ensures Poly16(round, top, shl, zero, v, x) == x
  {
    var x1 := shl(x);
    var x2 := shl(x1);
    var x3 := shl(x2);
    var x4 := shl(x3);
    var x5 := shl(x4);
    var x6 := shl(x5);
    var x7 := shl(x6);
    var x8 := shl(x7);
    var x9 := shl(x8);
    var x10 := shl(x9);
    var x11 := shl(x10);
    var x12 := shl(x11);
    var x13 := shl(x12);
    var x14 := shl(x13);
    var x15 := shl(x14);
    assert shl(x15) == zero by {
      assert Iterate(shl, 12, x4) == zero;
      assert Iterate(shl, 8, x8) == zero;
      assert Iterate(shl, 4, x12) == zero;
    }
    assert round(top(x12), v, round(top(x13), v, round(top(x14), v, round(top(x15), v, zero)))) == x12;
    assert round(top(x8), v, round(top(x9), v, round(top(x10), v, round(top(x11), v, x12)))) == x8;
    assert round(top(x4), v, round(top(x5), v, round(top(x6), v, round(top(x7), v, x8)))) == x4;
  }
}
