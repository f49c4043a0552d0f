/**
 What the checksum notices. A message is read as the stream of its bits, least significant bit of
 each byte first; the checksum is linear in that stream. So whether an error is noticed depends on
 the pattern of flipped bits alone: every burst of at most sixteen bits and every odd number of
 flipped bits changes the checksum.
 */
module CrcErrors {
  import opened ShiftRegister
  import opened Crc16

  // ----- The checksum of a byte string -----------------------------------------------------------

  /** The register after the bytes of `s`, starting from `crc`. */
  function FeedBytes(crc: bv16, s: seq<octet>): bv16
    decreases |s|
  {
    if s == [] then crc else FeedBytes(UpdateBitwise(crc, s[0]), s[1..])
  }

  /** The bitwise CRC with initial value 0xFFFF: the reference for crc16_calculate. */
  function Crc(s: seq<octet>): bv16 {
    FeedBytes(INITIAL_VALUE, s)
  }

  lemma {:induction false} FeedBytesAppend(crc: bv16, s: seq<octet>, t: seq<octet>)
    ensures FeedBytes(crc, s + t) == FeedBytes(FeedBytes(crc, s), t)
    decreases |s|
  {
    if s == [] {
      assert s + t == t;
    } else {
      assert (s + t)[0] == s[0] && (s + t)[1..] == s[1..] + t;
      FeedBytesAppend(UpdateBitwise(crc, s[0]), s[1..], t);
    }
  }

  /** crc16_calculate: the loop over the table computes the bitwise CRC. */
  method Calculate(ptr: array<octet>, len: nat) returns (crc: bv16)
    requires len <= ptr.Length
    ensures crc == Crc(ptr[..len])
  {
    crc := INITIAL_VALUE;
    var i := 0;
    while i < len
      invariant i <= len
      invariant crc == FeedBytes(INITIAL_VALUE, ptr[..i])
    {
      UpdateIsBitwise(crc, ptr[i]);
      assert ptr[..i + 1] == ptr[..i] + [ptr[i]];
      FeedBytesAppend(INITIAL_VALUE, ptr[..i], [ptr[i]]);
      assert FeedBytes(crc, [ptr[i]]) == FeedBytes(UpdateBitwise(crc, ptr[i]), []);
      crc := Update(crc, ptr[i]);
      i := i + 1;
    }
    assert ptr[..len] == ptr[..i];
  }

  // ----- Streams of bits --------------------------------------------------------------------------

  function FeedBits<T>(plus: (T, T) -> T, step: T -> T, word: bool -> T, c: T, bits: seq<bool>): T
    decreases |bits|
  {
    if bits == [] then c else FeedBits(plus, step, word, step(plus(c, word(bits[0]))), bits[1..])
  }

  /** The n low bits of a word, lowest first. */
  function BitsOf<T>(bit: T -> bool, shr: T -> T, n: nat, w: T): (bits: seq<bool>)
    ensures |bits| == n
  {
    if n == 0 then [] else [bit(w)] + BitsOf(bit, shr, n - 1, shr(w))
  }

  function Flips(u: seq<bool>, v: seq<bool>): (d: seq<bool>)
    requires |u| == |v|
    ensures |d| == |u| && forall i :: 0 <= i < |u| ==> d[i] == (u[i] != v[i])
  {
    seq(|u|, i requires 0 <= i < |u| => u[i] != v[i])
  }

  lemma {:induction false} FeedAppend<T>(plus: (T, T) -> T, step: T -> T, word: bool -> T, c: T, u: seq<bool>,
                                         v: seq<bool>)
    ensures FeedBits(plus, step, word, c, u + v) == FeedBits(plus, step, word, FeedBits(plus, step, word, c, u), v)
    decreases |u|
  {
    if u == [] {
      assert u + v == v;
    } else {
      assert (u + v)[0] == u[0] && (u + v)[1..] == u[1..] + v;
      FeedAppend(plus, step, word, step(plus(c, word(u[0]))), u[1..], v);
    }
  }

  /** Adding a word and stepping n times is the same as feeding its n low bits, up to what is left of it. */
  lemma {:induction false} FeedWord<T(!new)>(plus: (T, T) -> T, step: T -> T, word: bool -> T, bit: T -> bool,
                                      shr: T -> T, n: nat, c: T, w: T)
    requires forall x, y :: step(plus(x, y)) == plus(step(plus(x, word(bit(y)))), shr(y))
    ensures Iterate(step, n, plus(c, w)) == plus(FeedBits(plus, step, word, c, BitsOf(bit, shr, n, w)),
            Iterate(shr, n, w))
  {
    if n > 0 {
      FeedWord(plus, step, word, bit, shr, n - 1, step(plus(c, word(bit(w)))), shr(w));
    }
  }

  /** Two streams of equal length leave a difference that depends on the flipped bits only. */
  lemma {:induction false} FeedFlips<T(!new)>(plus: (T, T) -> T, step: T -> T, word: bool -> T, c: T, d: T,
                                       u: seq<bool>, v: seq<bool>)
    requires |u| == |v|
    requires Additive(plus, step) && Exchanges(plus)
    requires forall a, b :: plus(word(a), word(b)) == word(a != b)
    ensures plus(FeedBits(plus, step, word, c, u), FeedBits(plus, step, word, d, v))
         == FeedBits(plus, step, word, plus(c, d), Flips(u, v))
    decreases |u|
  {
    if u != [] {
      FeedFlips(plus, step, word, step(plus(c, word(u[0]))), step(plus(d, word(v[0]))), u[1..], v[1..]);
      assert Exchange(plus, c, word(u[0]), d, word(v[0]));
      assert Flips(u, v)[1..] == Flips(u[1..], v[1..]);
    }
  }

  /** A parity that a step keeps and a fed bit flips counts the bits fed. */
  lemma {:induction false} FeedParity<T(!new)>(plus: (T, T) -> T, step: T -> T, word: bool -> T, parity: T -> bool,
                                        c: T, bits: seq<bool>)
    requires forall x, b :: parity(step(plus(x, word(b)))) == (parity(x) != b)
    ensures parity(FeedBits(plus, step, word, c, bits)) == (parity(c) != OddCount(bits))
    decreases |bits|
  {
    if bits != [] {
      FeedParity(plus, step, word, parity, step(plus(c, word(bits[0]))), bits[1..]);
    }
  }

  /** Whether an odd number of the bits is set. */
  predicate OddCount(bits: seq<bool>) {
    bits != [] && bits[0] != OddCount(bits[1..])
  }

  // ----- Sixteen-bit words ------------------------------------------------------------------------

  function Bit(b: bool): bv16 {
    if b then 1 else 0
  }

  function Halve(x: bv16): bv16 {
    x >> 1
  }

  function Stream(c: bv16, bits: seq<bool>): bv16 {
    FeedBits(Xor, BitStep, Bit, c, bits)
  }

  function ByteBits(b: octet): seq<bool> {
    BitsOf(Odd, Halve, 8, b as bv16)
  }

  function Bits(s: seq<octet>): (bits: seq<bool>)
    ensures |bits| == 8 * |s|
  {
    if s == [] then [] else ByteBits(s[0]) + Bits(s[1..])
  }

  lemma BitSums()
    ensures forall a, b :: Xor(Bit(a), Bit(b)) == Bit(a != b)
  {}

  lemma XorAssociates(x: bv16, a: bv16, b: bv16)
    ensures Xor(Xor(x, a), b) == Xor(x, Xor(a, b))
  {}

  lemma LowestAndRest(y: bv16)
    ensures Xor(y & 1, y & 0xFFFE) == y
  {}

  lemma SplitLowest(x: bv16, y: bv16)
    ensures Xor(x, y) == Xor(Xor(x, y & 1), y & 0xFFFE)
  {
    hide Xor;
    LowestAndRest(y);
    XorAssociates(x, y & 1, y & 0xFFFE);
  }

  lemma LowestBit(y: bv16)
    ensures Bit(Odd(y)) == y & 1 && !Odd(y & 0xFFFE) && (y & 0xFFFE) >> 1 == y >> 1
  {
    assert y & 1 == 0 || y & 1 == 1;
  }

  lemma StepOfSum(x: bv16, y: bv16)
    ensures BitStep(Xor(x, y)) == Xor(BitStep(Xor(x, Bit(Odd(y)))), Halve(y))
  {
    SplitLowest(x, y);
    LowestBit(y);
    BitStepAdditive();
    BitStepEven(y & 0xFFFE);
  }

  lemma StepSums()
    ensures forall x, y :: BitStep(Xor(x, y)) == Xor(BitStep(Xor(x, Bit(Odd(y)))), Halve(y))
  {
    forall x: bv16, y: bv16
      ensures BitStep(Xor(x, y)) == Xor(BitStep(Xor(x, Bit(Odd(y)))), Halve(y))
    {
      StepOfSum(x, y);
    }
  }

  lemma ByteIsExhausted(b: octet)
    ensures Iterate(Halve, 8, b as bv16) == 0
  {
    var w := b as bv16;
    var w1 := Halve(w); var w2 := Halve(w1); var w3 := Halve(w2); var w4 := Halve(w3);
    var w5 := Halve(w4); var w6 := Halve(w5); var w7 := Halve(w6); var w8 := Halve(w7);
    assert w8 == 0;
    assert Iterate(Halve, 4, w4) == w8;
  }

  /** A byte fed at once is the same as its eight bits fed one after the other. */
  lemma ByteIsStream(c: bv16, b: octet)
    ensures UpdateBitwise(c, b) == Stream(c, ByteBits(b))
  {
    StepSums();
    ByteIsExhausted(b);
    FeedWord(Xor, BitStep, Bit, Odd, Halve, 8, c, b as bv16);
    XorZero(Stream(c, ByteBits(b)));
  }

  lemma {:induction false} BytesAreStream(c: bv16, s: seq<octet>)
    ensures FeedBytes(c, s) == Stream(c, Bits(s))
    decreases |s|
  {
    if s != [] {
      ByteIsStream(c, s[0]);
      BytesAreStream(UpdateBitwise(c, s[0]), s[1..]);
      FeedAppend(Xor, BitStep, Bit, c, ByteBits(s[0]), Bits(s[1..]));
    }
  }

  /** The difference of two checksums is a function of the flipped bits. */
  lemma ChecksumDifference(s: seq<octet>, t: seq<octet>)
    requires |s| == |t|
    ensures Xor(Crc(s), Crc(t)) == Stream(0, Flips(Bits(s), Bits(t)))
  {
    BytesAreStream(INITIAL_VALUE, s);
    BytesAreStream(INITIAL_VALUE, t);
    BitStepAdditive();
    XorExchanges();
    BitSums();
    XorZero(INITIAL_VALUE);
    FeedFlips(Xor, BitStep, Bit, INITIAL_VALUE, INITIAL_VALUE, Bits(s), Bits(t));
  }

  // ----- Bursts -------------------------------------------------------------------------------------

  lemma {:induction false} QuietStream(c: bv16, bits: seq<bool>)
    requires forall i :: 0 <= i < |bits| ==> !bits[i]
    ensures Stream(c, bits) == Iterate(BitStep, |bits|, c)
    decreases |bits|
  {
    if bits != [] {
      XorZero(c);
      QuietStream(BitStep(c), bits[1..]);
    }
  }

  lemma TopBitClear(w: bv16, n: nat)
    requires n <= 15 && Iterate(Halve, n, w) == 0
    ensures (w << 1) >> 1 == w
  {
    IterateAdd(Halve, n, 15 - n, w);
    IterateFixed(Halve, 15 - n, 0);
    FifteenHalves(w);
  }

  lemma FifteenHalves(w: bv16)
    requires Iterate(Halve, 15, w) == 0
    ensures (w << 1) >> 1 == w
  {
    var w1 := Halve(w); var w2 := Halve(w1); var w3 := Halve(w2); var w4 := Halve(w3);
    var w5 := Halve(w4); var w6 := Halve(w5); var w7 := Halve(w6); var w8 := Halve(w7);
    var w9 := Halve(w8); var w10 := Halve(w9); var w11 := Halve(w10); var w12 := Halve(w11);
    var w13 := Halve(w12); var w14 := Halve(w13); var w15 := Halve(w14);
    assert Iterate(Halve, 15, w) == Iterate(Halve, 11, w4);
    assert Iterate(Halve, 11, w4) == Iterate(Halve, 7, w8);
    assert Iterate(Halve, 7, w8) == Iterate(Halve, 3, w12);
  }

  lemma Prepend(b: bool, w: bv16)
    requires (w << 1) >> 1 == w
    ensures Odd(Xor(Bit(b), w << 1)) == b && Halve(Xor(Bit(b), w << 1)) == w
  {}

  /** Up to sixteen bits are the low bits of a word that has no others. */
  lemma {:induction false} WordOf(bits: seq<bool>) returns (w: bv16)
    requires |bits| <= 16
    ensures BitsOf(Odd, Halve, |bits|, w) == bits && Iterate(Halve, |bits|, w) == 0
    decreases |bits|
  {
    if bits == [] {
      w := 0;
    } else {
      var v := WordOf(bits[1..]);
      TopBitClear(v, |bits| - 1);
      Prepend(bits[0], v);
      w := Xor(Bit(bits[0]), v << 1);
      assert bits == [bits[0]] + bits[1..];
    }
  }

  lemma {:induction false} ZeroHasNoBits(n: nat)
    ensures forall i :: 0 <= i < n ==> !BitsOf(Odd, Halve, n, 0)[i]
  {
    if n > 0 {
      ZeroHasNoBits(n - 1);
    }
  }

  /** Sixteen or fewer bits, not all clear, leave a trace in the register. */
  lemma ShortPatternShows(bits: seq<bool>, i: nat)
    requires |bits| <= 16 && i < |bits| && bits[i]
    ensures Stream(0, bits) != 0
  {
    var w := WordOf(bits);
    StepSums();
    FeedWord(Xor, BitStep, Bit, Odd, Halve, |bits|, 0, w);
    XorZero(Stream(0, bits));
    XorZero(w);
    if Stream(0, bits) == 0 {
      IterateFixed(BitStep, |bits|, 0);
      BitStepInjective();
      IterateInjective(BitStep, |bits|, w, 0);
      ZeroHasNoBits(|bits|);
    }
  }

  ghost predicate DifferOnlyWithin(u: seq<bool>, v: seq<bool>, from: nat, length: nat)
    requires |u| == |v|
  {
    forall i :: 0 <= i < |u| && !(from <= i < from + length) ==> u[i] == v[i]
  }

  lemma QuietPrefix(before: seq<bool>, rest: seq<bool>)
    requires forall i :: 0 <= i < |before| ==> !before[i]
    ensures Stream(0, before + rest) == Stream(0, rest)
  {
    FeedAppend(Xor, BitStep, Bit, 0, before, rest);
    QuietStream(0, before);
    IterateFixed(BitStep, |before|, 0);
  }

  lemma QuietSuffix(burst: seq<bool>, after: seq<bool>)
    requires Stream(0, burst) != 0
    requires forall i :: 0 <= i < |after| ==> !after[i]
    ensures Stream(0, burst + after) != 0
  {
    FeedAppend(Xor, BitStep, Bit, 0, burst, after);
    var c := Stream(0, burst);
    QuietStream(c, after);
    BitStepInjective();
    IterateFixed(BitStep, |after|, 0);
    if Iterate(BitStep, |after|, c) == 0 {
      IterateInjective(BitStep, |after|, c, 0);
    }
  }

  lemma BurstShows(d: seq<bool>, from: nat, i: nat)
    requires i < |d| && d[i]
    requires forall k :: 0 <= k < |d| && !(from <= k < from + 16) ==> !d[k]
    ensures Stream(0, d) != 0
  {
    var end := if from + 16 <= |d| then from + 16 else |d|;
    assert d == d[..from] + (d[from..end] + d[end..]);
    QuietPrefix(d[..from], d[from..end] + d[end..]);
    ShortPatternShows(d[from..end], i - from);
    QuietSuffix(d[from..end], d[end..]);
  }

  /** Every burst of at most sixteen flipped bits changes the checksum, in messages of any length. */
  lemma BurstDetected(s: seq<octet>, t: seq<octet>, from: nat, i: nat)
    requires |s| == |t| && i < 8 * |s| && Bits(s)[i] != Bits(t)[i]
    requires DifferOnlyWithin(Bits(s), Bits(t), from, 16)
    ensures Crc(s) != Crc(t)
  {
    ChecksumDifference(s, t);
    BurstShows(Flips(Bits(s), Bits(t)), from, i);
    XorEqual(Crc(s), Crc(t));
  }

  lemma BitsDetermineByte(a: octet, b: octet)
    requires ByteBits(a) == ByteBits(b)
    ensures a == b
  {
    ByteIsStream(0, a);
    ByteIsStream(0, b);
    BitStepInjective();
    IterateInjective(BitStep, 8, Xor(0, a as bv16), Xor(0, b as bv16));
    XorZero(a as bv16);
    XorZero(b as bv16);
  }

  lemma {:induction false} BitsAppend(s: seq<octet>, t: seq<octet>)
    ensures Bits(s + t) == Bits(s) + Bits(t)
    decreases |s|
  {
    if s == [] {
      assert s + t == t;
    } else {
      assert (s + t)[0] == s[0] && (s + t)[1..] == s[1..] + t;
      BitsAppend(s[1..], t);
    }
  }

  lemma {:induction false} BitsDetermineBytes(x: seq<octet>, y: seq<octet>)
    requires |x| == |y| && Bits(x) == Bits(y)
    ensures x == y
    decreases |x|
  {
    if x != [] {
      assert ByteBits(x[0]) == Bits(x)[..8] && ByteBits(y[0]) == Bits(y)[..8];
      assert Bits(x[1..]) == Bits(x)[8..] && Bits(y[1..]) == Bits(y)[8..];
      BitsDetermineByte(x[0], y[0]);
      BitsDetermineBytes(x[1..], y[1..]);
      assert x == [x[0]] + x[1..] && y == [y[0]] + y[1..];
    }
  }

  lemma Window(before: seq<bool>, u: seq<bool>, v: seq<bool>, after: seq<bool>) returns (i: nat)
    requires |u| == |v| <= 16 && u != v
    ensures i < |before + u + after| && (before + u + after)[i] != (before + v + after)[i]
    ensures DifferOnlyWithin(before + u + after, before + v + after, |before|, 16)
  {
    var j :| 0 <= j < |u| && u[j] != v[j];
    i := |before| + j;
  }

  lemma WindowBits(prefix: seq<octet>, x: seq<octet>, suffix: seq<octet>)
    ensures Bits(prefix + x + suffix) == Bits(prefix) + Bits(x) + Bits(suffix)
  {
    BitsAppend(prefix + x, suffix);
    BitsAppend(prefix, x);
  }

  /** Two byte strings that differ only within two adjacent bytes have different checksums. */
  lemma AdjacentBytesDetected(prefix: seq<octet>, x: seq<octet>, y: seq<octet>, suffix: seq<octet>)
    requires |x| == |y| <= 2 && x != y
    ensures Crc(prefix + x + suffix) != Crc(prefix + y + suffix)
  {
    WindowBits(prefix, x, suffix);
    WindowBits(prefix, y, suffix);
    if Bits(x) == Bits(y) {
      BitsDetermineBytes(x, y);
      assert false;
    }
    var i := Window(Bits(prefix), Bits(x), Bits(y), Bits(suffix));
    BurstDetected(prefix + x + suffix, prefix + y + suffix, 8 * |prefix|, i);
  }

  // ----- Odd numbers of flipped bits ------------------------------------------------------------------

  /** Whether an odd number of the n low bits of a word is set. */
  predicate OddBits<T(!new)>(bit: T -> bool, shr: T -> T, n: nat, x: T) {
    n > 0 && bit(x) != OddBits(bit, shr, n - 1, shr(x))
  }

  ghost predicate Halves<T(!new)>(plus: (T, T) -> T, bit: T -> bool, shr: T -> T) {
    forall a, b :: bit(plus(a, b)) == (bit(a) != bit(b)) && shr(plus(a, b)) == plus(shr(a), shr(b))
  }

  lemma {:induction false} OddBitsAdditive<T(!new)>(plus: (T, T) -> T, bit: T -> bool, shr: T -> T, n: nat, x: T, y: T)
    requires Halves(plus, bit, shr)
    ensures OddBits(bit, shr, n, plus(x, y)) == (OddBits(bit, shr, n, x) != OddBits(bit, shr, n, y))
  {
    if n > 0 {
      OddBitsAdditive(plus, bit, shr, n - 1, shr(x), shr(y));
    }
  }

  lemma {:induction false} OddBitsExtra<T(!new)>(bit: T -> bool, shr: T -> T, n: nat, x: T)
    requires !bit(Iterate(shr, n, x))
    ensures OddBits(bit, shr, n + 1, x) == OddBits(bit, shr, n, x)
  {
    if n > 0 {
      OddBitsExtra(bit, shr, n - 1, shr(x));
    }
  }

  lemma HalveAdds(a: bv16, b: bv16)
    ensures Odd(Xor(a, b)) == (Odd(a) != Odd(b)) && Halve(Xor(a, b)) == Xor(Halve(a), Halve(b))
  {}

  lemma HalvesAdd()
    ensures Halves(Xor, Odd, Halve)
  {
    hide Odd, Halve, Xor;
    forall a: bv16, b: bv16
      ensures Odd(Xor(a, b)) == (Odd(a) != Odd(b)) && Halve(Xor(a, b)) == Xor(Halve(a), Halve(b))
    {
      HalveAdds(a, b);
    }
  }

  lemma HalfHasNoTopBit(x: bv16)
    ensures !Odd(Iterate(Halve, 15, Halve(x)))
  {
    var w1 := Halve(x); var w2 := Halve(w1); var w3 := Halve(w2); var w4 := Halve(w3);
    var w5 := Halve(w4); var w6 := Halve(w5); var w7 := Halve(w6); var w8 := Halve(w7);
    var w9 := Halve(w8); var w10 := Halve(w9); var w11 := Halve(w10); var w12 := Halve(w11);
    var w13 := Halve(w12); var w14 := Halve(w13); var w15 := Halve(w14); var w16 := Halve(w15);
    assert w16 == 0;
    assert Iterate(Halve, 15, w1) == Iterate(Halve, 12, w4);
    assert Iterate(Halve, 12, w4) == Iterate(Halve, 8, w8);
    assert Iterate(Halve, 8, w8) == Iterate(Halve, 4, w12);
  }

  lemma {:induction false} ZeroIsEven(n: nat)
    ensures !OddBits(Odd, Halve, n, 0)
  {
    if n > 0 {
      ZeroIsEven(n - 1);
    }
  }

  /** The polynomial has three terms: folding it in flips the parity. */
  lemma PolynomialIsOdd(n: nat)
    requires n == 16
    ensures OddBits(Odd, Halve, n, POLYNOMIAL)
  {
    assert OddBits(Odd, Halve, 1, 0x1);
    assert OddBits(Odd, Halve, 2, 0x2);
    assert !OddBits(Odd, Halve, 3, 0x5);
    assert !OddBits(Odd, Halve, 4, 0xA);
    assert !OddBits(Odd, Halve, 5, 0x14);
    assert !OddBits(Odd, Halve, 6, 0x28);
    assert !OddBits(Odd, Halve, 7, 0x50);
    assert !OddBits(Odd, Halve, 8, 0xA0);
    assert !OddBits(Odd, Halve, 9, 0x140);
    assert !OddBits(Odd, Halve, 10, 0x280);
    assert !OddBits(Odd, Halve, 11, 0x500);
    assert !OddBits(Odd, Halve, 12, 0xA00);
    assert !OddBits(Odd, Halve, 13, 0x1400);
    assert !OddBits(Odd, Halve, 14, 0x2800);
    assert !OddBits(Odd, Halve, 15, 0x5000);
    assert OddBits(Odd, Halve, 16, 0xA001);
  }

  lemma InitialValueIsEven(n: nat)
    requires n == 16
    ensures !OddBits(Odd, Halve, n, INITIAL_VALUE)
  {
    assert OddBits(Odd, Halve, 1, 0x1);
    assert !OddBits(Odd, Halve, 2, 0x3);
    assert OddBits(Odd, Halve, 3, 0x7);
    assert !OddBits(Odd, Halve, 4, 0xF);
    assert OddBits(Odd, Halve, 5, 0x1F);
    assert !OddBits(Odd, Halve, 6, 0x3F);
    assert OddBits(Odd, Halve, 7, 0x7F);
    assert !OddBits(Odd, Halve, 8, 0xFF);
    assert OddBits(Odd, Halve, 9, 0x1FF);
    assert !OddBits(Odd, Halve, 10, 0x3FF);
    assert OddBits(Odd, Halve, 11, 0x7FF);
    assert !OddBits(Odd, Halve, 12, 0xFFF);
    assert OddBits(Odd, Halve, 13, 0x1FFF);
    assert !OddBits(Odd, Halve, 14, 0x3FFF);
    assert OddBits(Odd, Halve, 15, 0x7FFF);
    assert !OddBits(Odd, Halve, 16, 0xFFFF);
  }

  lemma BitIsItself(n: nat, b: bool)
    requires n > 0
    ensures OddBits(Odd, Halve, n, Bit(b)) == b
  {
    ZeroIsEven(n - 1);
    assert Halve(Bit(b)) == 0;
  }

  /** One step from y to z keeps the parity when what is folded in has the parity of the bit shifted out. */
  lemma ParityKept<T(!new)>(plus: (T, T) -> T, bit: T -> bool, shr: T -> T, n: nat, y: T, fed: T, z: T)
    requires n > 0 && Halves(plus, bit, shr)
    requires z == plus(shr(y), fed) && OddBits(bit, shr, n, fed) == bit(y)
    requires !bit(Iterate(shr, n - 1, shr(y)))
    ensures OddBits(bit, shr, n, z) == OddBits(bit, shr, n, y)
  {
    OddBitsAdditive(plus, bit, shr, n, shr(y), fed);
    OddBitsExtra(bit, shr, n - 1, shr(y));
  }

  lemma FeedbackParity(n: nat, b: bool)
    requires n == 16
    ensures OddBits(Odd, Halve, n, Feedback(b, POLYNOMIAL)) == b
  {
    if b { PolynomialIsOdd(n); } else { ZeroIsEven(n); }
  }

  lemma StepKeepsParity(n: nat, y: bv16)
    requires n == 16
    ensures OddBits(Odd, Halve, n, BitStep(y)) == OddBits(Odd, Halve, n, y)
  {
    HalvesAdd();
    BitStepIsShift(y);
    FeedbackParity(n, Odd(y));
    HalfHasNoTopBit(y);
    ParityKept(Xor, Odd, Halve, n, y, Feedback(Odd(y), POLYNOMIAL), BitStep(y));
  }

  lemma ParityOfSum(n: nat, x: bv16, y: bv16)
    ensures OddBits(Odd, Halve, n, Xor(x, y)) == (OddBits(Odd, Halve, n, x) != OddBits(Odd, Halve, n, y))
  {
    HalvesAdd();
    OddBitsAdditive(Xor, Odd, Halve, n, x, y);
  }

  lemma FedBitFlipsParity(n: nat, x: bv16, b: bool)
    requires n == 16
    ensures OddBits(Odd, Halve, n, BitStep(Xor(x, Bit(b)))) == (OddBits(Odd, Halve, n, x) != b)
  {
    StepKeepsParity(n, Xor(x, Bit(b)));
    ParityOfSum(n, x, Bit(b));
    BitIsItself(n, b);
  }

  /** The parity of the checksum is the parity of the message. */
  lemma ChecksumParity(n: nat, s: seq<octet>)
    requires n == 16
    ensures OddBits(Odd, Halve, n, Crc(s)) == OddCount(Bits(s))
  {
    var parity := x => OddBits(Odd, Halve, n, x);
    forall x: bv16, b: bool
      ensures parity(BitStep(Xor(x, Bit(b)))) == (parity(x) != b)
    {
      FedBitFlipsParity(n, x, b);
    }
    BytesAreStream(INITIAL_VALUE, s);
    InitialValueIsEven(n);
    FeedParity(Xor, BitStep, Bit, parity, INITIAL_VALUE, Bits(s));
  }

  lemma {:induction false} FlipsParity(u: seq<bool>, v: seq<bool>)
    requires |u| == |v|
    ensures OddCount(Flips(u, v)) == (OddCount(u) != OddCount(v))
    decreases |u|
  {
    if u != [] {
      FlipsParity(u[1..], v[1..]);
      assert Flips(u, v)[1..] == Flips(u[1..], v[1..]);
    }
  }

  /** An odd number of flipped bits always changes the checksum. */
  lemma OddFlipsDetected(s: seq<octet>, t: seq<octet>)
    requires |s| == |t| && OddCount(Flips(Bits(s), Bits(t)))
    ensures Crc(s) != Crc(t)
  {
    ChecksumParity(16, s);
    ChecksumParity(16, t);
    FlipsParity(Bits(s), Bits(t));
  }
}
