/**
 A byte as a number and as a bit vector. The bits are taken one by one, since a conversion between
 the two kinds of number in one step is costly to reason about.
 */
module Octets {
  import opened Bytes

  function Put(bit: bool, w: bv8): bv8 {
    if bit then w else 0
  }

  function Join(b0: bool, b1: bool, b2: bool, b3: bool, b4: bool, b5: bool, b6: bool, b7: bool): bv8 {
    Put(b0, 1) | Put(b1, 2) | Put(b2, 4) | Put(b3, 8) | Put(b4, 16) | Put(b5, 32) | Put(b6, 64) | Put(b7, 128)
  }

  predicate Set(w: bv8, mask: bv8) {
    w & mask != 0
  }

  lemma JoinSets(b0: bool, b1: bool, b2: bool, b3: bool, b4: bool, b5: bool, b6: bool, b7: bool, w: bv8)
    requires w == Join(b0, b1, b2, b3, b4, b5, b6, b7)
    ensures (Set(w, 1) <==> b0) && (Set(w, 2) <==> b1) && (Set(w, 4) <==> b2) && (Set(w, 8) <==> b3)
    ensures (Set(w, 16) <==> b4) && (Set(w, 32) <==> b5) && (Set(w, 64) <==> b6) && (Set(w, 128) <==> b7)
  {}

  /** The lowest n binary digits of a number, and the number they make up. */
  function Digits(a: nat, n: nat): (bits: seq<bool>)
    ensures |bits| == n
  {
    if n == 0 then [] else [a % 2 == 1] + Digits(a / 2, n - 1)
  }

  function Weigh(bits: seq<bool>): nat {
    if bits == [] then 0 else (if bits[0] then 1 else 0) + 2 * Weigh(bits[1..])
  }

  function Power(n: nat): nat {
    if n == 0 then 1 else 2 * Power(n - 1)
  }

  lemma {:induction false} DigitsWeigh(a: nat, n: nat)
    requires a < Power(n)
    ensures Weigh(Digits(a, n)) == a
  {
    if n > 0 { DigitsWeigh(a / 2, n - 1); }
  }

  lemma WeighBelow(bits: seq<bool>)
    ensures Weigh(bits) < Power(|bits|)
  {}

  lemma PowerEight()
    ensures Power(8) == 256
  {
    assert Power(4) == 16;
  }

  /** A number as a bit vector. */
  function Octet(a: byte): bv8 {
    var b := Digits(a, 8);
    Join(b[0], b[1], b[2], b[3], b[4], b[5], b[6], b[7])
  }

  function Bits(w: bv8): seq<bool> {
    [Set(w, 1), Set(w, 2), Set(w, 4), Set(w, 8), Set(w, 16), Set(w, 32), Set(w, 64), Set(w, 128)]
  }

  /** A bit vector as a number. */
  function Number(w: bv8): byte {
    WeighBelow(Bits(w));
    PowerEight();
    Weigh(Bits(w))
  }

  lemma BitsOfJoin(b0: bool, b1: bool, b2: bool, b3: bool, b4: bool, b5: bool, b6: bool, b7: bool)
    ensures Bits(Join(b0, b1, b2, b3, b4, b5, b6, b7)) == [b0, b1, b2, b3, b4, b5, b6, b7]
  {
    hide Join, Set;
    JoinSets(b0, b1, b2, b3, b4, b5, b6, b7, Join(b0, b1, b2, b3, b4, b5, b6, b7));
  }

  lemma EightOf(b: seq<bool>)
    requires |b| == 8
    ensures [b[0], b[1], b[2], b[3], b[4], b[5], b[6], b[7]] == b
  {}

  lemma BitsOfOctet(a: byte)
    ensures Bits(Octet(a)) == Digits(a, 8)
  {
    hide Digits, Join, Bits;
    var b := Digits(a, 8);
    BitsOfJoin(b[0], b[1], b[2], b[3], b[4], b[5], b[6], b[7]);
    EightOf(b);
  }

  lemma NumberOfOctet(a: byte)
    ensures Number(Octet(a)) == a
  {
    hide Bits, Octet, Weigh, Digits;
    BitsOfOctet(a);
    PowerEight();
    DigitsWeigh(a, 8);
  }

  function Digit(bit: bool): nat {
    if bit then 1 else 0
  }

  lemma WeighMore(bit: bool, rest: seq<bool>)
    ensures Weigh([bit] + rest) == Digit(bit) + 2 * Weigh(rest)
  {
    assert ([bit] + rest)[1..] == rest;
  }

  lemma WeighFour(b0: bool, b1: bool, b2: bool, b3: bool, rest: seq<bool>)
    ensures Weigh([b0, b1, b2, b3] + rest)
         == Digit(b0) + 2 * Digit(b1) + 4 * Digit(b2) + 8 * Digit(b3) + 16 * Weigh(rest)
  {
    hide Weigh;
    var r3 := [b3] + rest;
    var r2 := [b2] + r3;
    var r1 := [b1] + r2;
    WeighMore(b3, rest);
    WeighMore(b2, r3);
    WeighMore(b1, r2);
    WeighMore(b0, r1);
    assert [b0] + r1 == [b0, b1, b2, b3] + rest;
  }

  lemma WeighEight(b0: bool, b1: bool, b2: bool, b3: bool, b4: bool, b5: bool, b6: bool, b7: bool)
    ensures Weigh([b0, b1, b2, b3, b4, b5, b6, b7])
         == Digit(b0) + 2 * Digit(b1) + 4 * Digit(b2) + 8 * Digit(b3) + 16 * Digit(b4) + 32 * Digit(b5)
            + 64 * Digit(b6) + 128 * Digit(b7)
  {
    NoWeight();
    hide Weigh;
    var rest := [b4, b5, b6, b7];
    WeighFour(b4, b5, b6, b7, []);
    WeighFour(b0, b1, b2, b3, rest);
    assert rest + [] == rest;
    assert [b0, b1, b2, b3] + rest == [b0, b1, b2, b3, b4, b5, b6, b7];
  }

  lemma NoWeight()
    ensures Weigh([]) == 0
  {}

  /** The number by the bits of the vector, each with its weight. */
  lemma NumberByBits(w: bv8)
    ensures Number(w) == Digit(w & 1 != 0) + 2 * Digit(w & 2 != 0) + 4 * Digit(w & 4 != 0) + 8 * Digit(w & 8 != 0)
                         + 16 * Digit(w & 16 != 0) + 32 * Digit(w & 32 != 0) + 64 * Digit(w & 64 != 0)
                         + 128 * Digit(w & 128 != 0)
  {
    hide Weigh;
    WeighEight(Set(w, 1), Set(w, 2), Set(w, 4), Set(w, 8), Set(w, 16), Set(w, 32), Set(w, 64), Set(w, 128));
  }
}
