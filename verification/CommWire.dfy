/**
 What goes over the bus (comm.c), in the numbers and letters of the protocol: the frame a command is sent as, the value
 of its checksum, and what the receiver says of every reply that is no frame for the controller.
 */
module CommWire {
  import opened Bytes
  import opened Comm
  import opened CommErrors
  import Crc16
  import CrcErrors

  // ----- Hexadecimal numbers ------------------------------------------------------------------------------

  /** What a digit is worth, upper case letters as "%X" prints them; -1 for other characters. */
  function HexValue(c: byte): int {
    if 0x30 <= c <= 0x39 then c - 0x30 else if 0x41 <= c <= 0x46 then c - 0x41 + 10 else -1
  }

  lemma DigitReads(d: nat)
    requires d < 16
    ensures HexValue(HexDigit(d)) == d
  {}

  /** The address, most significant digit first. */
  lemma AddressReads(addr: byte)
    ensures |Hex2(addr)| == 2 && HexValue(Hex2(addr)[0]) >= 0 && HexValue(Hex2(addr)[1]) >= 0
    ensures 16 * HexValue(Hex2(addr)[0]) + HexValue(Hex2(addr)[1]) == addr
  {
    DigitReads(addr / 16);
    DigitReads(addr % 16);
  }

  /** The digits of a 16-bit value, most significant first. */
  function HexWord(digits: seq<byte>): bv16
    requires |digits| == 4
  {
    (Quad(digits[0]) << 12) | (Quad(digits[1]) << 8) | (Quad(digits[2]) << 4) | Quad(digits[3])
  }

  /** The four bits a digit stands for. */
  function Quad(c: byte): bv16 {
    match HexValue(c)
    case 0 => 0 case 1 => 1 case 2 => 2 case 3 => 3 case 4 => 4 case 5 => 5 case 6 => 6 case 7 => 7
    case 8 => 8 case 9 => 9 case 10 => 10 case 11 => 11 case 12 => 12 case 13 => 13 case 14 => 14 case 15 => 15
    case _ => 0xFFFF
  }

  lemma QuadOf(v: bv16, n: nat)
    requires v < 16 && n == v as nat
    ensures Quad(HexDigit(n)) == v
  {
    DigitReads(n);
    assert n as bv16 == v;
  }

  lemma NibbleReads(x: bv16)
    ensures Quad(Nibble(x)) == x & 0xF
  {
    QuadOf(x & 0xF, (x & 0xF) as nat);
  }

  lemma WordOfNibbles(x: bv16)
    ensures (((x >> 12) & 0xF) << 12) | (((x >> 8) & 0xF) << 8) | (((x >> 4) & 0xF) << 4) | (x & 0xF) == x
  {}

  lemma ChecksumReads(x: bv16)
    ensures HexWord(Hex4(x)) == x
  {
    hide Quad, Nibble;
    NibbleReads(x >> 12);
    NibbleReads(x >> 8);
    NibbleReads(x >> 4);
    NibbleReads(x);
    WordOfNibbles(x);
  }

  // ----- The frame ----------------------------------------------------------------------------------------

  /**
   A frame: SOH, the address in two digits, a colon, the command, STX, the content, ETX, and in four digits the CRC of
   all that.
   */
  lemma FrameBytes(addr: byte, cmd: byte, content: seq<byte>) returns (a: byte, b: byte, digits: seq<byte>)
    ensures var text := [1, a, b, 0x3A, cmd, 2] + content + [3];
            && Frame(Checksum, addr, cmd, content) == text + digits
            && 16 * HexValue(a) + HexValue(b) == addr && HexValue(a) >= 0 && HexValue(b) >= 0
            && |digits| == 4 && HexWord(digits) == CrcErrors.Crc(Words(text))
  {
    hide Words, CrcErrors.Crc, Hex4;
    AddressReads(addr);
    a, b := Hex2(addr)[0], Hex2(addr)[1];
    var text := [1, a, b, 0x3A, cmd, 2] + content + [3];
    assert Header(addr, cmd) == [1, a, b, 0x3A, cmd, 2];
    digits := Checksum(text);
    ChecksumReads(CrcErrors.Crc(Words(text)));
  }

  // ----- The checksum by its check value ------------------------------------------------------------------

  lemma ByteFed(crc: bv16, data: bv8, mixed: bv16, next: bv16)
    requires crc ^ (data as bv16) == mixed && Crc16.Eight(mixed) == next
    ensures Crc16.UpdateBitwise(crc, data) == next
  {
    Crc16.EightSteps(mixed);
  }

  lemma OneFed(crc: bv16, s: seq<bv8>, i: nat, next: bv16)
    requires i < |s| && Crc16.UpdateBitwise(crc, s[i]) == next
    ensures CrcErrors.FeedBytes(crc, s[i..]) == CrcErrors.FeedBytes(next, s[i + 1..])
  {
    assert s[i..][1..] == s[i + 1..];
  }

  /** The steps of the register on "123456789". */
  lemma CheckSteps()
    ensures Crc16.UpdateBitwise(0xFFFF, 0x31) == 0x947E && Crc16.UpdateBitwise(0x947E, 0x32) == 0xF595
    ensures Crc16.UpdateBitwise(0xF595, 0x33) == 0x7A75 && Crc16.UpdateBitwise(0x7A75, 0x34) == 0x30BA
    ensures Crc16.UpdateBitwise(0x30BA, 0x35) == 0xA471 && Crc16.UpdateBitwise(0xA471, 0x36) == 0x32E4
    ensures Crc16.UpdateBitwise(0x32E4, 0x37) == 0x9D73 && Crc16.UpdateBitwise(0x9D73, 0x38) == 0x37DD
    ensures Crc16.UpdateBitwise(0x37DD, 0x39) == 0x4B37
  {
    hide Crc16.UpdateBitwise;
    ByteFed(0xFFFF, 0x31, 0xFFCE, 0x947E);
    ByteFed(0x947E, 0x32, 0x944C, 0xF595);
    ByteFed(0xF595, 0x33, 0xF5A6, 0x7A75);
    ByteFed(0x7A75, 0x34, 0x7A41, 0x30BA);
    ByteFed(0x30BA, 0x35, 0x308F, 0xA471);
    ByteFed(0xA471, 0x36, 0xA447, 0x32E4);
    ByteFed(0x32E4, 0x37, 0x32D3, 0x9D73);
    ByteFed(0x9D73, 0x38, 0x9D4B, 0x37DD);
    ByteFed(0x37DD, 0x39, 0x37E4, 0x4B37);
  }

  /** The check value of CRC-16/MODBUS, the checksum of "123456789", is 4B37; that of nothing is FFFF. */
  lemma CheckValue()
    ensures CrcErrors.Crc([0x31, 0x32, 0x33, 0x34, 0x35, 0x36, 0x37, 0x38, 0x39]) == 0x4B37
    ensures CrcErrors.Crc([]) == 0xFFFF
  {
    hide Crc16.UpdateBitwise, CrcErrors.FeedBytes;
    var s: seq<bv8> := [0x31, 0x32, 0x33, 0x34, 0x35, 0x36, 0x37, 0x38, 0x39];
    CheckSteps();
    OneFed(0xFFFF, s, 0, 0x947E);
    OneFed(0x947E, s, 1, 0xF595);
    OneFed(0xF595, s, 2, 0x7A75);
    OneFed(0x7A75, s, 3, 0x30BA);
    OneFed(0x30BA, s, 4, 0xA471);
    OneFed(0xA471, s, 5, 0x32E4);
    OneFed(0x32E4, s, 6, 0x9D73);
    OneFed(0x9D73, s, 7, 0x37DD);
    OneFed(0x37DD, s, 8, 0x4B37);
    assert s[0..] == s && s[9..] == [];
    NothingFed(0x4B37);
    NothingFed(0xFFFF);
  }

  lemma NothingFed(crc: bv16)
    ensures CrcErrors.FeedBytes(crc, []) == crc
  {}

  // ----- What the receiver says ---------------------------------------------------------------------------

  /** The header of a reply, byte by byte. */
  lemma ReplyHeader(cmd: byte)
    ensures Header(0xFF, cmd) == [1, 0x46, 0x46, 0x3A, cmd, 2]
  {}

  lemma {:induction false} RunHeaderPart(sum: Sum, retries: nat, h: seq<byte>, i: nat, j: nat, rest: seq<byte>,
                                         cmd: byte, size: nat)
    requires size > 0 && h == Header(CONTROLLER, cmd) && i <= j <= 6
    ensures Run(sum, InHeader(retries, h, i), h[i..j] + rest, cmd, size)
         == Run(sum, InHeader(retries, h, j), rest, cmd, size)
    decreases j - i
  {
    hide Run, Accept;
    if i == j {
      assert h[i..j] + rest == rest;
    } else {
      var s := h[i..j] + rest;
      assert s[0] == h[i] && s[1..] == h[i + 1..j] + rest && s[0..] == s;
      HeaderStep(sum, retries, h, i, cmd, size);
      RunOne(sum, InHeader(retries, h, i), InHeader(retries, h, i + 1), s, 0, cmd, size);
      RunHeaderPart(sum, retries, h, i + 1, j, rest, cmd, size);
    }
  }

  /** After at most four bytes of noise, and the first `j` bytes of a header. */
  lemma RunNoisePart(sum: Sum, noise: seq<byte>, j: nat, rest: seq<byte>, cmd: byte, size: nat)
    requires size > 0 && |noise| <= 4 && 1 !in noise && j <= 6
    ensures Outcome(sum, noise + Header(CONTROLLER, cmd)[..j] + rest, cmd, size)
         == Run(sum, InHeader(4 - |noise|, Header(CONTROLLER, cmd), j), rest, cmd, size)
  {
    hide Run, Accept;
    var h := Header(CONTROLLER, cmd);
    assert noise + h[..j] + rest == noise + (h[0..j] + rest);
    RunNoise(sum, START, noise, h[0..j] + rest, cmd, size);
    RunHeaderPart(sum, 4 - |noise|, h, 0, j, rest, cmd, size);
    assert h[..0] == [];
  }

  /** The first byte of the header that is not as it should be says what is wrong. */
  lemma WrongHeader(sum: Sum, noise: seq<byte>, cmd: byte, j: nat, b: byte, rest: seq<byte>, size: nat)
    requires size > 0 && |noise| <= 4 && 1 !in noise && 1 <= j < 6
    requires b != [1, 0x46, 0x46, 0x3A, cmd, 2][j]
    ensures Outcome(sum, noise + [1, 0x46, 0x46, 0x3A, cmd, 2][..j] + ([b] + rest), cmd, size).0
         == if j <= 2 then UnexpectedAddr else if j == 4 then UnexpectedOp else Syntax
  {
    ReplyHeader(cmd);
    RunNoisePart(sum, noise, j, [b] + rest, cmd, size);
    hide Run;
    RefusedAt(sum, InHeader(4 - |noise|, Header(CONTROLLER, cmd), j), b, rest, cmd, size);
  }

  lemma RefusedAt(sum: Sum, r: Receiver, b: byte, rest: seq<byte>, cmd: byte, size: nat)
    requires size > 0 && r.state <= 10 && Accept(sum, r, b, cmd, size).Done?
    ensures Run(sum, r, [b] + rest, cmd, size) == (Accept(sum, r, b, cmd, size).status, r.content)
  {
    assert ([b] + rest)[0] == b;
  }

  /** Five bytes without SOH are too much noise. */
  lemma TooMuchNoise(sum: Sum, noise: seq<byte>, cmd: byte, rest: seq<byte>, size: nat)
    requires size > 0 && |noise| == 5 && 1 !in noise
    ensures Outcome(sum, noise + rest, cmd, size).0 == NoStart
  {
    hide Run;
    assert noise + rest == noise[..4] + ([noise[4]] + rest);
    RunNoise(sum, START, noise[..4], [noise[4]] + rest, cmd, size);
    RefusedAt(sum, START.(retries := 0), noise[4], rest, cmd, size);
  }

  /** A digit of the checksum that is not as it should be. */
  lemma WrongDigit(sum: Sum, noise: seq<byte>, cmd: byte, content: seq<byte>, j: nat, b: byte, rest: seq<byte>,
                   size: nat)
    requires size > 0 && |noise| <= 4 && 1 !in noise && 3 !in content && |content| <= 57 && j < 4
    requires b != sum(Covered(0xFF, cmd, content))[j]
    ensures var digits := sum(Covered(0xFF, cmd, content));
            Outcome(sum, noise + Header(0xFF, cmd) + (content + ([3] + (digits[..j] + ([b] + rest)))), cmd, size).0
            == WrongChecksum
  {
    hide Run, Accept;
    var covered := Covered(CONTROLLER, cmd, content);
    var digits := sum(covered);
    var tail := digits[..j] + ([b] + rest);
    RunNoisyHeader(sum, noise, content + ([3] + tail), cmd, size);
    RunContent(sum, 4 - |noise|, [], content, [3] + tail, cmd, size);
    assert [] + content == content;
    RunToDigits(sum, 4 - |noise|, content, tail, cmd, size);
    var r := AtDigits(sum, 4 - |noise|, content, cmd, size);
    RunDigits(sum, r, 0, j, [b] + rest, cmd, size);
    assert digits[0..j] == digits[..j];
    DigitRefused(sum, r.(state := 7 + j), b, cmd, size);
    RefusedAt(sum, r.(state := 7 + j), b, rest, cmd, size);
  }

  lemma DigitRefused(sum: Sum, r: Receiver, b: byte, cmd: byte, size: nat)
    requires size > 0 && 7 <= r.state <= 10 && b != r.checksum[r.state - 7]
    ensures Accept(sum, r, b, cmd, size) == Done(WrongChecksum)
  {}

  /** The receiver behind ETX. */
  function AtDigits(sum: Sum, retries: nat, content: seq<byte>, cmd: byte, size: nat): Receiver
    requires size > 0
  {
    InContent(retries, cmd, content, size).(state := 7, buf := Covered(CONTROLLER, cmd, content),
                                            checksum := sum(Covered(CONTROLLER, cmd, content)))
  }

  lemma RunToDigits(sum: Sum, retries: nat, content: seq<byte>, tail: seq<byte>, cmd: byte, size: nat)
    requires size > 0
    ensures Run(sum, InContent(retries, cmd, content, size), [3] + tail, cmd, size)
         == Run(sum, AtDigits(sum, retries, content, cmd, size), tail, cmd, size)
  {
    hide Run;
    var s := [3] + tail;
    RunOne(sum, InContent(retries, cmd, content, size), AtDigits(sum, retries, content, cmd, size), s, 0, cmd, size);
    assert s[0..] == s && s[1..] == tail;
  }

  lemma {:induction false} RunDigits(sum: Sum, r: Receiver, i: nat, j: nat, rest: seq<byte>, cmd: byte, size: nat)
    requires size > 0 && r.state == 7 && i <= j <= 4
    ensures Run(sum, r.(state := 7 + i), r.checksum[i..j] + rest, cmd, size)
         == Run(sum, r.(state := 7 + j), rest, cmd, size)
    decreases j - i
  {
    hide Run;
    if i == j {
      assert r.checksum[i..j] + rest == rest;
    } else {
      var s := r.checksum[i..j] + rest;
      assert s[0] == r.checksum[i] && s[1..] == r.checksum[i + 1..j] + rest && s[0..] == s;
      RunOne(sum, r.(state := 7 + i), r.(state := 8 + i), s, 0, cmd, size);
      RunDigits(sum, r, i + 1, j, rest, cmd, size);
    }
  }

  /** A frame that breaks off is waited for in vain. */
  lemma {:induction false} BrokenOff(sum: Sum, noise: seq<byte>, cmd: byte, content: seq<byte>, n: nat, size: nat)
    requires size > 0 && |noise| <= 4 && 1 !in noise && 3 !in content && |content| <= 57
    requires n < |noise + Frame(sum, 0xFF, cmd, content)|
    ensures Outcome(sum, (noise + Frame(sum, 0xFF, cmd, content))[..n], cmd, size).0 == Timeout
  {
    hide Accept, Run, Frame;
    var whole := noise + Frame(sum, CONTROLLER, cmd, content);
    FrameIsReceived(sum, noise, cmd, content, [], size);
    assert whole + [] == whole;
    assert whole == whole[..n] + whole[n..];
    PrefixIsNoRefusal(sum, START, whole[..n], whole[n..], cmd, size);
    if Outcome(sum, whole[..n], cmd, size).0 == Ok { NotYet(sum, noise, cmd, content, n, size); }
  }

  /** A reply that is accepted in the end is not refused on the way. */
  lemma {:induction false} PrefixIsNoRefusal(sum: Sum, r: Receiver, part: seq<byte>, rest: seq<byte>, cmd: byte,
                                             size: nat)
    requires size > 0 && r.state <= 11 && Run(sum, r, part + rest, cmd, size).0 == Ok
    ensures Run(sum, r, part, cmd, size).0 == Ok || Run(sum, r, part, cmd, size).0 == Timeout
    decreases |part|
  {
    hide Accept;
    if r.state < 11 && part != [] {
      AcceptedGoesOn(sum, r, part[0], cmd, size);
      assert (part + rest)[0] == part[0] && (part + rest)[1..] == part[1..] + rest;
      var v := Accept(sum, r, part[0], cmd, size);
      if v.More? { PrefixIsNoRefusal(sum, v.next, part[1..], rest, cmd, size); }
    }
  }

  /** Only the whole frame is accepted. */
  lemma NotYet(sum: Sum, noise: seq<byte>, cmd: byte, content: seq<byte>, n: nat, size: nat)
    requires size > 0 && |noise| <= 4 && 1 !in noise && 3 !in content && |content| <= 57
    requires n < |noise + Frame(sum, 0xFF, cmd, content)|
    ensures Outcome(sum, (noise + Frame(sum, 0xFF, cmd, content))[..n], cmd, size).0 != Ok
  {
    hide Outcome, Frame;
    var whole := noise + Frame(sum, CONTROLLER, cmd, content);
    AcceptsExactlyFrames(sum, whole[..n], cmd, size);
    if noise', content' :| HoldsFrame(sum, whole[..n], cmd, noise', content') {
      assert noise' + Frame(sum, CONTROLLER, cmd, content') <= whole;
      OneFrame(sum, cmd, noise, content, noise', content');
      assert false;
    }
  }

  /** There is but one frame at the start of a text. */
  lemma OneFrame(sum: Sum, cmd: byte, noise: seq<byte>, content: seq<byte>, noise': seq<byte>, content': seq<byte>)
    requires |noise| <= 4 && 1 !in noise && 3 !in content && |content| <= 57
    requires HoldsFrame(sum, noise + Frame(sum, CONTROLLER, cmd, content), cmd, noise', content')
    ensures noise' == noise && content' == content
  {
    hide Frame;
    var f, f' := Frame(sum, CONTROLLER, cmd, content), Frame(sum, CONTROLLER, cmd, content');
    var digits := sum(Covered(CONTROLLER, cmd, content));
    FrameParts(sum, cmd, content);
    FrameParts(sum, cmd, content');
    NoiseEnds(noise, f, noise', f');
    BehindNoise(noise, f, f');
    assert [] + f' == f';
    FrameContent(sum, cmd, content, digits, [], content');
  }

  lemma FrameParts(sum: Sum, cmd: byte, content: seq<byte>)
    ensures var f := Frame(sum, CONTROLLER, cmd, content);
            && f == Header(CONTROLLER, cmd) + (content + [3] + sum(Covered(CONTROLLER, cmd, content)))
            && f != [] && f[0] == 1
  {}

  lemma BehindNoise(noise: seq<byte>, f: seq<byte>, f': seq<byte>)
    requires noise + f' <= noise + f
    ensures f' <= f
  {
    assert (noise + f')[|noise|..] == f' && (noise + f)[|noise|..] == f;
  }

  lemma NoiseEnds(noise: seq<byte>, f: seq<byte>, noise': seq<byte>, f': seq<byte>)
    requires 1 !in noise && 1 !in noise' && f != [] && f' != [] && f[0] == 1 && f'[0] == 1
    requires noise' + f' <= noise + f
    ensures noise == noise'
  {
    var s, s' := noise + f, noise' + f';
    assert s[|noise|] == 1 && s'[|noise'|] == 1 == s[|noise'|];
    assert forall i | 0 <= i < |noise| :: s[i] == noise[i] != 1;
    assert forall i | 0 <= i < |noise'| :: s[i] == s'[i] == noise'[i] != 1;
    assert |noise| == |noise'|;
    assert noise == s[..|noise|] && noise' == s'[..|noise|];
  }
}
