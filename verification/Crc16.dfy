/**
 The checksum of the RS-485 bus (crc16.c): the table-driven CRC-16, what it computes bit by bit,
 and which transmission errors it is bound to notice.
 */
module Crc16 {
  import opened ShiftRegister

  type octet = bv8

  const INITIAL_VALUE: bv16 := 0xFFFF
  const POLYNOMIAL: bv16 := 0xA001

  // The lookup table, in the rows of eight of the source.

  const ROW00: seq<bv16> := [0x0000, 0xC0C1, 0xC181, 0x0140, 0xC301, 0x03C0, 0x0280, 0xC241]
  const ROW01: seq<bv16> := [0xC601, 0x06C0, 0x0780, 0xC741, 0x0500, 0xC5C1, 0xC481, 0x0440]
  const ROW02: seq<bv16> := [0xCC01, 0x0CC0, 0x0D80, 0xCD41, 0x0F00, 0xCFC1, 0xCE81, 0x0E40]
  const ROW03: seq<bv16> := [0x0A00, 0xCAC1, 0xCB81, 0x0B40, 0xC901, 0x09C0, 0x0880, 0xC841]
  const ROW04: seq<bv16> := [0xD801, 0x18C0, 0x1980, 0xD941, 0x1B00, 0xDBC1, 0xDA81, 0x1A40]
  const ROW05: seq<bv16> := [0x1E00, 0xDEC1, 0xDF81, 0x1F40, 0xDD01, 0x1DC0, 0x1C80, 0xDC41]
  const ROW06: seq<bv16> := [0x1400, 0xD4C1, 0xD581, 0x1540, 0xD701, 0x17C0, 0x1680, 0xD641]
  const ROW07: seq<bv16> := [0xD201, 0x12C0, 0x1380, 0xD341, 0x1100, 0xD1C1, 0xD081, 0x1040]
  const ROW08: seq<bv16> := [0xF001, 0x30C0, 0x3180, 0xF141, 0x3300, 0xF3C1, 0xF281, 0x3240]
  const ROW09: seq<bv16> := [0x3600, 0xF6C1, 0xF781, 0x3740, 0xF501, 0x35C0, 0x3480, 0xF441]
  const ROW10: seq<bv16> := [0x3C00, 0xFCC1, 0xFD81, 0x3D40, 0xFF01, 0x3FC0, 0x3E80, 0xFE41]
  const ROW11: seq<bv16> := [0xFA01, 0x3AC0, 0x3B80, 0xFB41, 0x3900, 0xF9C1, 0xF881, 0x3840]
  const ROW12: seq<bv16> := [0x2800, 0xE8C1, 0xE981, 0x2940, 0xEB01, 0x2BC0, 0x2A80, 0xEA41]
  const ROW13: seq<bv16> := [0xEE01, 0x2EC0, 0x2F80, 0xEF41, 0x2D00, 0xEDC1, 0xEC81, 0x2C40]
  const ROW14: seq<bv16> := [0xE401, 0x24C0, 0x2580, 0xE541, 0x2700, 0xE7C1, 0xE681, 0x2640]
  const ROW15: seq<bv16> := [0x2200, 0xE2C1, 0xE381, 0x2340, 0xE101, 0x21C0, 0x2080, 0xE041]
  const ROW16: seq<bv16> := [0xA001, 0x60C0, 0x6180, 0xA141, 0x6300, 0xA3C1, 0xA281, 0x6240]
  const ROW17: seq<bv16> := [0x6600, 0xA6C1, 0xA781, 0x6740, 0xA501, 0x65C0, 0x6480, 0xA441]
  const ROW18: seq<bv16> := [0x6C00, 0xACC1, 0xAD81, 0x6D40, 0xAF01, 0x6FC0, 0x6E80, 0xAE41]
  const ROW19: seq<bv16> := [0xAA01, 0x6AC0, 0x6B80, 0xAB41, 0x6900, 0xA9C1, 0xA881, 0x6840]
  const ROW20: seq<bv16> := [0x7800, 0xB8C1, 0xB981, 0x7940, 0xBB01, 0x7BC0, 0x7A80, 0xBA41]
  const ROW21: seq<bv16> := [0xBE01, 0x7EC0, 0x7F80, 0xBF41, 0x7D00, 0xBDC1, 0xBC81, 0x7C40]
  const ROW22: seq<bv16> := [0xB401, 0x74C0, 0x7580, 0xB541, 0x7700, 0xB7C1, 0xB681, 0x7640]
  const ROW23: seq<bv16> := [0x7200, 0xB2C1, 0xB381, 0x7340, 0xB101, 0x71C0, 0x7080, 0xB041]
  const ROW24: seq<bv16> := [0x5000, 0x90C1, 0x9181, 0x5140, 0x9301, 0x53C0, 0x5280, 0x9241]
  const ROW25: seq<bv16> := [0x9601, 0x56C0, 0x5780, 0x9741, 0x5500, 0x95C1, 0x9481, 0x5440]
  const ROW26: seq<bv16> := [0x9C01, 0x5CC0, 0x5D80, 0x9D41, 0x5F00, 0x9FC1, 0x9E81, 0x5E40]
  const ROW27: seq<bv16> := [0x5A00, 0x9AC1, 0x9B81, 0x5B40, 0x9901, 0x59C0, 0x5880, 0x9841]
  const ROW28: seq<bv16> := [0x8801, 0x48C0, 0x4980, 0x8941, 0x4B00, 0x8BC1, 0x8A81, 0x4A40]
  const ROW29: seq<bv16> := [0x4E00, 0x8EC1, 0x8F81, 0x4F40, 0x8D01, 0x4DC0, 0x4C80, 0x8C41]
  const ROW30: seq<bv16> := [0x4400, 0x84C1, 0x8581, 0x4540, 0x8701, 0x47C0, 0x4680, 0x8641]
  const ROW31: seq<bv16> := [0x8201, 0x42C0, 0x4380, 0x8341, 0x4100, 0x81C1, 0x8081, 0x4040]

  const TABLE: seq<seq<bv16>> := [
    ROW00, ROW01, ROW02, ROW03, ROW04, ROW05, ROW06, ROW07,
    ROW08, ROW09, ROW10, ROW11, ROW12, ROW13, ROW14, ROW15,
    ROW16, ROW17, ROW18, ROW19, ROW20, ROW21, ROW22, ROW23,
    ROW24, ROW25, ROW26, ROW27, ROW28, ROW29, ROW30, ROW31
  ]

  /** Whether the row holds the CRCs of `first` and of the seven words after it. */
  predicate RowIs(row: seq<bv16>, first: bv16) {
    && |row| == 8
    && row[0] == Eight(first) && row[1] == Eight(first + 1) && row[2] == Eight(first + 2)
    && row[3] == Eight(first + 3) && row[4] == Eight(first + 4) && row[5] == Eight(first + 5)
    && row[6] == Eight(first + 6) && row[7] == Eight(first + 7)
  }

  /** One bit of the reflected CRC: shift right and fold the polynomial in. */
  function BitStep(x: bv16): bv16 {
    if x & 1 == 1 then (x >> 1) ^ POLYNOMIAL else x >> 1
  }

  /** Two bit steps at once, in a form that evaluates quickly. */
  function Two(x: bv16): bv16 {
    var y := if x & 1 == 1 then (x >> 1) ^ POLYNOMIAL else x >> 1;
    if y & 1 == 1 then (y >> 1) ^ POLYNOMIAL else y >> 1
  }

  function Eight(x: bv16): bv16 {
    Two(Two(Two(Two(x))))
  }

  lemma TwoOdd(x: bv16)
    requires x & 1 == 1
    ensures Two(x) == BitStep(BitStep(x))
  {
    assert BitStep(x) == (x >> 1) ^ POLYNOMIAL;
  }

  lemma TwoEven(x: bv16)
    requires x & 1 != 1
    ensures Two(x) == BitStep(BitStep(x))
  {
    assert BitStep(x) == x >> 1;
  }

  lemma {:induction false} IteratePairs<T(!new)>(f: T -> T, g: T -> T, n: nat, x: T)
    requires forall y :: g(y) == f(f(y))
    ensures Iterate(g, n, x) == Iterate(f, 2 * n, x)
  {
    if n > 0 {
      IteratePairs(f, g, n - 1, f(f(x)));
    }
  }

  lemma EightTwos(x: bv16)
    ensures Eight(x) == Iterate(Two, 4, x)
  {}

  lemma EightSteps(x: bv16)
    ensures Eight(x) == Iterate(BitStep, 8, x)
  {
    forall y: bv16
      ensures Two(y) == BitStep(BitStep(y))
    {
      if y & 1 == 1 { TwoOdd(y); } else { TwoEven(y); }
    }
    EightTwos(x);
    IteratePairs(BitStep, Two, 4, x);
  }

  /** The entry the source finds at crc16ansi_table[i]. */
  function Lookup(i: bv16): bv16
    requires i < 256
  {
    TABLE[(i >> 3) as nat][(i & 7) as nat]
  }

  lemma RowEntry(i: bv16, row: seq<bv16>, first: bv16)
    requires i < 256 && i & 0xF8 == first && RowIs(row, first)
    ensures row[(i & 7) as nat] == Eight(i)
  {
    var k := i & 7;
    assert i == first + k && k <= 7;
    if k == 0 {} else if k == 1 {} else if k == 2 {} else if k == 3 {}
    else if k == 4 {} else if k == 5 {} else if k == 6 {} else { assert k == 7; }
  }

  // The rows of the table, two at a time.

  lemma Pair00()
    ensures RowIs(ROW00, 0x00) && RowIs(ROW01, 0x08)
  {}

  lemma Pair02()
    ensures RowIs(ROW02, 0x10) && RowIs(ROW03, 0x18)
  {}

  lemma Pair04()
    ensures RowIs(ROW04, 0x20) && RowIs(ROW05, 0x28)
  {}

  lemma Pair06()
    ensures RowIs(ROW06, 0x30) && RowIs(ROW07, 0x38)
  {}

  lemma Pair08()
    ensures RowIs(ROW08, 0x40) && RowIs(ROW09, 0x48)
  {}

  lemma Pair10()
    ensures RowIs(ROW10, 0x50) && RowIs(ROW11, 0x58)
  {}

  lemma Pair12()
    ensures RowIs(ROW12, 0x60) && RowIs(ROW13, 0x68)
  {}

  lemma Pair14()
    ensures RowIs(ROW14, 0x70) && RowIs(ROW15, 0x78)
  {}

  lemma Pair16()
    ensures RowIs(ROW16, 0x80) && RowIs(ROW17, 0x88)
  {}

  lemma Pair18()
    ensures RowIs(ROW18, 0x90) && RowIs(ROW19, 0x98)
  {}

  lemma Pair20()
    ensures RowIs(ROW20, 0xA0) && RowIs(ROW21, 0xA8)
  {}

  lemma Pair22()
    ensures RowIs(ROW22, 0xB0) && RowIs(ROW23, 0xB8)
  {}

  lemma Pair24()
    ensures RowIs(ROW24, 0xC0) && RowIs(ROW25, 0xC8)
  {}

  lemma Pair26()
    ensures RowIs(ROW26, 0xD0) && RowIs(ROW27, 0xD8)
  {}

  lemma Pair28()
    ensures RowIs(ROW28, 0xE0) && RowIs(ROW29, 0xE8)
  {}

  lemma Pair30()
    ensures RowIs(ROW30, 0xF0) && RowIs(ROW31, 0xF8)
  {}

  lemma Rows00(i: bv16)
    requires 0x00 <= i <= 0x1F
    ensures Lookup(i) == Eight(i)
  {
    hide RowIs, Eight;
    Pair00();
    Pair02();
    if i < 0x08 { RowEntry(i, ROW00, 0x00); }
    else if i < 0x10 { RowEntry(i, ROW01, 0x08); }
    else if i < 0x18 { RowEntry(i, ROW02, 0x10); }
    else { RowEntry(i, ROW03, 0x18); }
  }

  lemma Rows04(i: bv16)
    requires 0x20 <= i <= 0x3F
    ensures Lookup(i) == Eight(i)
  {
    hide RowIs, Eight;
    Pair04();
    Pair06();
    if i < 0x28 { RowEntry(i, ROW04, 0x20); }
    else if i < 0x30 { RowEntry(i, ROW05, 0x28); }
    else if i < 0x38 { RowEntry(i, ROW06, 0x30); }
    else { RowEntry(i, ROW07, 0x38); }
  }

  lemma Rows08(i: bv16)
    requires 0x40 <= i <= 0x5F
    ensures Lookup(i) == Eight(i)
  {
    hide RowIs, Eight;
    Pair08();
    Pair10();
    if i < 0x48 { RowEntry(i, ROW08, 0x40); }
    else if i < 0x50 { RowEntry(i, ROW09, 0x48); }
    else if i < 0x58 { RowEntry(i, ROW10, 0x50); }
    else { RowEntry(i, ROW11, 0x58); }
  }

  lemma Rows12(i: bv16)
    requires 0x60 <= i <= 0x7F
    ensures Lookup(i) == Eight(i)
  {
    hide RowIs, Eight;
    Pair12();
    Pair14();
    if i < 0x68 { RowEntry(i, ROW12, 0x60); }
    else if i < 0x70 { RowEntry(i, ROW13, 0x68); }
    else if i < 0x78 { RowEntry(i, ROW14, 0x70); }
    else { RowEntry(i, ROW15, 0x78); }
  }

  lemma Rows16(i: bv16)
    requires 0x80 <= i <= 0x9F
    ensures Lookup(i) == Eight(i)
  {
    hide RowIs, Eight;
    Pair16();
    Pair18();
    if i < 0x88 { RowEntry(i, ROW16, 0x80); }
    else if i < 0x90 { RowEntry(i, ROW17, 0x88); }
    else if i < 0x98 { RowEntry(i, ROW18, 0x90); }
    else { RowEntry(i, ROW19, 0x98); }
  }

  lemma Rows20(i: bv16)
    requires 0xA0 <= i <= 0xBF
    ensures Lookup(i) == Eight(i)
  {
    hide RowIs, Eight;
    Pair20();
    Pair22();
    if i < 0xA8 { RowEntry(i, ROW20, 0xA0); }
    else if i < 0xB0 { RowEntry(i, ROW21, 0xA8); }
    else if i < 0xB8 { RowEntry(i, ROW22, 0xB0); }
    else { RowEntry(i, ROW23, 0xB8); }
  }

  lemma Rows24(i: bv16)
    requires 0xC0 <= i <= 0xDF
    ensures Lookup(i) == Eight(i)
  {
    hide RowIs, Eight;
    Pair24();
    Pair26();
    if i < 0xC8 { RowEntry(i, ROW24, 0xC0); }
    else if i < 0xD0 { RowEntry(i, ROW25, 0xC8); }
    else if i < 0xD8 { RowEntry(i, ROW26, 0xD0); }
    else { RowEntry(i, ROW27, 0xD8); }
  }

  lemma Rows28(i: bv16)
    requires 0xE0 <= i <= 0xFF
    ensures Lookup(i) == Eight(i)
  {
    hide RowIs, Eight;
    Pair28();
    Pair30();
    if i < 0xE8 { RowEntry(i, ROW28, 0xE0); }
    else if i < 0xF0 { RowEntry(i, ROW29, 0xE8); }
    else if i < 0xF8 { RowEntry(i, ROW30, 0xF0); }
    else { RowEntry(i, ROW31, 0xF8); }
  }

  lemma TableEntry(i: bv16)
    requires i < 256
    ensures Lookup(i) == Eight(i)
  {
    if i <= 0x1F { Rows00(i); }
    else if i <= 0x3F { Rows04(i); }
    else if i <= 0x5F { Rows08(i); }
    else if i <= 0x7F { Rows12(i); }
    else if i <= 0x9F { Rows16(i); }
    else if i <= 0xBF { Rows20(i); }
    else if i <= 0xDF { Rows24(i); }
    else if i <= 0xFF { Rows28(i); }
  }

  // ----- The update step --------------------------------------------------------------------------

  /** crc16_update: one byte through the table. */
  function Update(crc: bv16, data: octet): bv16 {
    Xor(crc >> 8, Lookup((crc ^ (data as bv16)) & 0xFF))
  }

  /** One byte, bit by bit. */
  function UpdateBitwise(crc: bv16, data: octet): bv16 {
    Iterate(BitStep, 8, Xor(crc, data as bv16))
  }

  lemma BitStepOdd(x: bv16)
    requires Odd(x)
    ensures BitStep(x) == Shift(POLYNOMIAL, x)
  {
    assert BitStep(x) == (x >> 1) ^ POLYNOMIAL;
  }

  lemma BitStepEven(x: bv16)
    requires !Odd(x)
    ensures BitStep(x) == Shift(POLYNOMIAL, x) == x >> 1
  {
    XorZero(x >> 1);
  }

  lemma BitStepIsShift(x: bv16)
    ensures BitStep(x) == Shift(POLYNOMIAL, x)
  {
    if Odd(x) { BitStepOdd(x); } else { BitStepEven(x); }
  }

  lemma BitStepAdditive()
    ensures Additive(Xor, BitStep)
  {
    forall x: bv16, y: bv16
      ensures BitStep(Xor(x, y)) == Xor(BitStep(x), BitStep(y))
    {
      ShiftAdditive(POLYNOMIAL, x, y);
      BitStepIsShift(x);
      BitStepIsShift(y);
      BitStepIsShift(Xor(x, y));
    }
  }

  lemma BitStepInjective()
    ensures Injective(BitStep)
  {
    forall x: bv16, y: bv16
      ensures BitStep(x) == BitStep(y) ==> x == y
    {
      BitStepIsShift(x);
      BitStepIsShift(y);
      if BitStep(x) == BitStep(y) { ShiftInjective(POLYNOMIAL, x, y); }
    }
  }

  lemma LowBitsClear(x: bv16)
    requires x & 0xF == 0
    ensures !Odd(x) && !Odd(x >> 1) && !Odd((x >> 1) >> 1) && !Odd(((x >> 1) >> 1) >> 1)
    ensures (((x >> 1) >> 1) >> 1) >> 1 == x >> 4
  {}

  lemma FourShifts(x: bv16)
    requires x & 0xF == 0
    ensures Iterate(BitStep, 4, x) == x >> 4
  {
    LowBitsClear(x);
    BitStepEven(x);
    BitStepEven(x >> 1);
    BitStepEven((x >> 1) >> 1);
    BitStepEven(((x >> 1) >> 1) >> 1);
  }

  lemma EightShifts(x: bv16)
    requires x & 0xFF == 0
    ensures Iterate(BitStep, 8, x) == x >> 8
  {
    FourShifts(x);
    FourShifts(x >> 4);
    IterateAdd(BitStep, 4, 4, x);
  }

  lemma SplitBytes(x: bv16)
    ensures x == Xor(x & 0xFF00, x & 0xFF) && (x & 0xFF00) & 0xFF == 0 && (x & 0xFF00) >> 8 == x >> 8
  {}

  lemma StepsByByte(x: bv16)
    ensures Iterate(BitStep, 8, x) == Xor(x >> 8, Iterate(BitStep, 8, x & 0xFF))
  {
    SplitBytes(x);
    BitStepAdditive();
    IterateAdditive(Xor, BitStep, 8, x & 0xFF00, x & 0xFF);
    EightShifts(x & 0xFF00);
  }

  lemma TableSteps(i: bv16)
    requires i < 256
    ensures Lookup(i) == Iterate(BitStep, 8, i)
  {
    TableEntry(i);
    EightSteps(i);
  }

  lemma HighByteOfData(crc: bv16, data: octet)
    ensures Xor(crc, data as bv16) >> 8 == crc >> 8
  {}

  /** The table does for every register value and every byte what eight bit steps do. */
  lemma UpdateIsBitwise(crc: bv16, data: octet)
    ensures Update(crc, data) == UpdateBitwise(crc, data)
  {
    var x := Xor(crc, data as bv16);
    StepsByByte(x);
    HighByteOfData(crc, data);
    TableSteps(x & 0xFF);
  }
}
