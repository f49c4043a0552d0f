/**
 What comm_receive_response makes of a damaged reply. Only a content byte that turns into ETX can
 slip through, and then exactly when the bytes behind it happen to be the checksum of what is left.
 */
module CommErrors {
  import opened Bytes
  import opened Comm
  import CRC = Crc16
  import CrcDistance
  import CrcErrors
  import Octets

  // ----- The checksum of the bus ----------------------------------------------------------------------

  function Words(s: seq<byte>): (w: seq<CRC.octet>)
    ensures |w| == |s|
  {
    seq(|s|, i requires 0 <= i < |s| => Octets.Octet(s[i]))
  }

  /** sprintf "%04X" of a 16-bit value. */
  function Hex4(x: bv16): Digits {
    [Nibble(x >> 12), Nibble(x >> 8), Nibble(x >> 4), Nibble(x)]
  }

  function Nibble(x: bv16): byte {
    HexDigit((x & 0xF) as nat)
  }

  /** The four digits the sender appends and the receiver expects. */
  function Checksum(s: seq<byte>): Digits {
    Hex4(CrcErrors.Crc(Words(s)))
  }

  lemma NibbleInjective(a: bv16, b: bv16)
    requires Nibble(a) == Nibble(b)
    ensures a & 0xF == b & 0xF
  {
    var x, y := (a & 0xF) as nat, (b & 0xF) as nat;
    assert x == y;
    assert x as bv16 == a & 0xF && y as bv16 == b & 0xF;
  }

  lemma NibblesDetermine(a: bv16, b: bv16)
    requires (a >> 12) & 0xF == (b >> 12) & 0xF && (a >> 8) & 0xF == (b >> 8) & 0xF
    requires (a >> 4) & 0xF == (b >> 4) & 0xF && a & 0xF == b & 0xF
    ensures a == b
  {}

  lemma DigitsDetermine(digit: bv16 -> byte, a: bv16, b: bv16)
    requires forall x, y :: digit(x) == digit(y) ==> x & 0xF == y & 0xF
    requires [digit(a >> 12), digit(a >> 8), digit(a >> 4), digit(a)]
             == [digit(b >> 12), digit(b >> 8), digit(b >> 4), digit(b)]
    ensures a == b
  {
    var s := [digit(a >> 12), digit(a >> 8), digit(a >> 4), digit(a)];
    var t := [digit(b >> 12), digit(b >> 8), digit(b >> 4), digit(b)];
    assert s[0] == t[0] && s[1] == t[1] && s[2] == t[2] && s[3] == t[3];
    NibblesDetermine(a, b);
  }

  lemma Hex4Injective(a: bv16, b: bv16)
    requires Hex4(a) == Hex4(b)
    ensures a == b
  {
    forall x: bv16, y: bv16
      ensures Nibble(x) == Nibble(y) ==> x & 0xF == y & 0xF
    {
      if Nibble(x) == Nibble(y) { NibbleInjective(x, y); }
    }
    DigitsDetermine(Nibble, a, b);
  }

  lemma DigitsAreNotETX(s: seq<byte>)
    ensures ETX !in Checksum(s)
  {}

  lemma WordInjective(a: byte, b: byte)
    requires Octets.Octet(a) == Octets.Octet(b)
    ensures a == b
  {
    Octets.NumberOfOctet(a);
    Octets.NumberOfOctet(b);
  }

  lemma WordsAppend(s: seq<byte>, t: seq<byte>)
    ensures Words(s + t) == Words(s) + Words(t)
  {}

  lemma DifferentDigits(s: seq<byte>, t: seq<byte>)
    requires CrcErrors.Crc(Words(s)) != CrcErrors.Crc(Words(t))
    ensures Checksum(s) != Checksum(t)
  {
    hide Words, CrcErrors.Crc;
    if Checksum(s) == Checksum(t) {
      Hex4Injective(CrcErrors.Crc(Words(s)), CrcErrors.Crc(Words(t)));
    }
  }

  /** Two messages that differ in at most two adjacent bytes have different checksum digits. */
  lemma ChecksumTellsApart(prefix: seq<byte>, x: seq<byte>, y: seq<byte>, suffix: seq<byte>)
    requires |x| == |y| <= 2 && x != y
    ensures Checksum(prefix + x + suffix) != Checksum(prefix + y + suffix)
  {
    WordsAppend(prefix + x, suffix);
    WordsAppend(prefix, x);
    WordsAppend(prefix + y, suffix);
    WordsAppend(prefix, y);
    var i :| 0 <= i < |x| && x[i] != y[i];
    if Words(x)[i] == Words(y)[i] { WordInjective(x[i], y[i]); }
    CrcErrors.AdjacentBytesDetected(Words(prefix), Words(x), Words(y), Words(suffix));
    DifferentDigits(prefix + x + suffix, prefix + y + suffix);
  }

  // ----- Damaged replies ------------------------------------------------------------------------------

  lemma NoNoise(noise: seq<byte>, frame: seq<byte>, heard: seq<byte>)
    requires SOH !in noise && frame != [] && noise + frame <= heard && heard[0] == SOH
    ensures noise == []
  {
    assert (noise + frame)[0] == heard[0];
  }

  lemma AfterHeader(h: seq<byte>, u: seq<byte>, v: seq<byte>, heard: seq<byte>)
    requires heard == h + v && h + u <= heard
    ensures u <= v
  {
    assert u == (h + u)[|h|..] && v == heard[|h|..];
  }

  lemma FrameContent(sum: Sum, cmd: byte, body: seq<byte>, tail: seq<byte>, noise: seq<byte>, content: seq<byte>)
    requires ETX !in body
    requires HoldsFrame(sum, Header(CONTROLLER, cmd) + (body + [ETX] + tail), cmd, noise, content)
    ensures content == body && sum(Covered(CONTROLLER, cmd, body)) <= tail
  {
    var h := Header(CONTROLLER, cmd);
    var heard := h + (body + [ETX] + tail);
    var digits := sum(Covered(CONTROLLER, cmd, content));
    NoNoise(noise, Frame(sum, CONTROLLER, cmd, content), heard);
    assert noise + Frame(sum, CONTROLLER, cmd, content) == h + (content + [ETX] + digits);
    AfterHeader(h, content + [ETX] + digits, body + [ETX] + tail, heard);
    FirstETX(body, tail, content, digits);
  }

  /** When what follows the header up to the first ETX is `body`, only `body` can be accepted. */
  lemma FrameAt(sum: Sum, cmd: byte, body: seq<byte>, tail: seq<byte>, size: nat)
    requires size > 0 && ETX !in body && |body| <= 57
    ensures Outcome(sum, Header(CONTROLLER, cmd) + (body + [ETX] + tail), cmd, size).0 == Ok
       <==> sum(Covered(CONTROLLER, cmd, body)) <= tail
  {
    var h := Header(CONTROLLER, cmd);
    var heard := h + (body + [ETX] + tail);
    var digits := sum(Covered(CONTROLLER, cmd, body));
    AcceptsExactlyFrames(sum, heard, cmd, size);
    if digits <= tail {
      assert heard == ([] + Frame(sum, CONTROLLER, cmd, body)) + tail[4..];
      assert HoldsFrame(sum, heard, cmd, [], body);
    }
    forall noise, content | HoldsFrame(sum, heard, cmd, noise, content)
      ensures digits <= tail
    {
      FrameContent(sum, cmd, body, tail, noise, content);
    }
  }

  /** The first ETX ends the content. */
  lemma {:induction false} FirstETX(body: seq<byte>, tail: seq<byte>, content: seq<byte>, digits: seq<byte>)
    requires ETX !in body && ETX !in content
    requires content + [ETX] + digits <= body + [ETX] + tail
    ensures content == body && digits <= tail
    decreases |body|
  {
    var f, s := content + [ETX] + digits, body + [ETX] + tail;
    assert f[0] == s[0];
    if content != [] && body != [] {
      assert f[1..] == content[1..] + [ETX] + digits && s[1..] == body[1..] + [ETX] + tail;
      assert f[1..] <= s[1..];
      FirstETX(body[1..], tail, content[1..], digits);
      assert content == [f[0]] + content[1..] && body == [s[0]] + body[1..];
    } else {
      assert f[1..] <= s[1..];
      assert content == [] && body == [] ==> f[1..] == digits && s[1..] == tail;
    }
  }

  /** A frame whose content was replaced by one of the same length is accepted only with an equal checksum. */
  lemma ReplacedContent(sum: Sum, cmd: byte, content: seq<byte>, damaged: seq<byte>, size: nat)
    requires size > 0 && |damaged| == |content| <= 57 && ETX !in damaged
    ensures Outcome(sum, Covered(CONTROLLER, cmd, damaged) + sum(Covered(CONTROLLER, cmd, content)), cmd, size).0 == Ok
       <==> sum(Covered(CONTROLLER, cmd, damaged)) == sum(Covered(CONTROLLER, cmd, content))
  {
    var digits := sum(Covered(CONTROLLER, cmd, content));
    assert Covered(CONTROLLER, cmd, damaged) + digits == Header(CONTROLLER, cmd) + (damaged + [ETX] + digits);
    FrameAt(sum, cmd, damaged, digits, size);
  }

  lemma Regrouped<T>(h: seq<T>, before: seq<T>, x: seq<T>, after: seq<T>, e: seq<T>)
    ensures h + (before + x + after) + e == (h + before) + x + (after + e)
  {}

  lemma CoveredAround(cmd: byte, before: seq<byte>, x: seq<byte>, after: seq<byte>)
    ensures Covered(CONTROLLER, cmd, before + x + after)
         == (Header(CONTROLLER, cmd) + before) + x + (after + [ETX])
  {
    hide Header;
    Regrouped(Header(CONTROLLER, cmd), before, x, after, [ETX]);
  }

  /** Two adjacent content bytes damaged, neither into ETX: never accepted. */
  lemma AdjacentContentBytesDamaged(cmd: byte, before: seq<byte>, x: seq<byte>, y: seq<byte>, after: seq<byte>,
                                    size: nat)
    requires size > 0 && |before + x + after| <= MAX_CONTENT && |x| == |y| <= 2 && x != y
    requires ETX !in before + y + after
    ensures Outcome(Checksum, Covered(CONTROLLER, cmd, before + y + after)
            + Checksum(Covered(CONTROLLER, cmd, before + x + after)), cmd, size).0 != Ok
  {
    hide Outcome, Covered, Header, Checksum;
    ReplacedContent(Checksum, cmd, before + x + after, before + y + after, size);
    CoveredAround(cmd, before, x, after);
    CoveredAround(cmd, before, y, after);
    ChecksumTellsApart(Header(CONTROLLER, cmd) + before, x, y, after + [ETX]);
  }

  /** What a frame in the input implies for the bytes heard. */
  lemma FrameBytes(sum: Sum, heard: seq<byte>, cmd: byte, noise: seq<byte>, content: seq<byte>)
    requires HoldsFrame(sum, heard, cmd, noise, content)
    ensures var k := |noise|;
            && k + 7 + |content| <= |heard|
            && heard[k + 6 + |content|] == ETX
            && heard[k..k + 6] == Header(CONTROLLER, cmd)
            && (k > 0 ==> heard[0] != SOH)
  {
    var f := noise + Frame(sum, CONTROLLER, cmd, content);
    var k := |noise|;
    assert f[k + 6 + |content|] == ETX && f[k..k + 6] == Header(CONTROLLER, cmd);
    assert k > 0 ==> f[0] in noise;
  }

  /** Without an ETX nothing is accepted. */
  lemma NoETXNoFrame(sum: Sum, heard: seq<byte>, cmd: byte, size: nat)
    requires size > 0 && forall k :: 6 <= k < |heard| ==> heard[k] != ETX
    ensures Outcome(sum, heard, cmd, size).0 != Ok
  {
    AcceptsExactlyFrames(sum, heard, cmd, size);
    forall noise, content
      ensures !HoldsFrame(sum, heard, cmd, noise, content)
    {
      if HoldsFrame(sum, heard, cmd, noise, content) { FrameBytes(sum, heard, cmd, noise, content); }
    }
  }

  /** A reply whose first bytes are not those of a header for the controller is refused. */
  lemma DamagedHeader(sum: Sum, cmd: byte, i: nat, b: byte, rest: seq<byte>, size: nat)
    requires size > 0 && i < 6 && b != Header(CONTROLLER, cmd)[i]
    ensures Outcome(sum, Header(CONTROLLER, cmd)[i := b] + rest, cmd, size).0 != Ok
  {
    var h := [SOH, LETTER_F, LETTER_F, COLON, cmd, STX];
    assert Header(CONTROLLER, cmd) == h;
    var heard := h[i := b] + rest;
    AcceptsExactlyFrames(sum, heard, cmd, size);
    forall noise, content
      ensures !HoldsFrame(sum, heard, cmd, noise, content)
    {
      if HoldsFrame(sum, heard, cmd, noise, content) {
        FrameBytes(sum, heard, cmd, noise, content);
        NotAHeader(heard, cmd, i, |noise|);
      }
    }
  }

  lemma NotAHeader(heard: seq<byte>, cmd: byte, i: nat, k: nat)
    requires i < 6 <= |heard| && k <= START_RETRIES && k + 6 <= |heard|
    requires heard[i] != Header(CONTROLLER, cmd)[i]
    requires forall j :: 0 <= j < 6 && j != i ==> heard[j] == Header(CONTROLLER, cmd)[j]
    requires k > 0 ==> heard[0] != SOH
    ensures heard[k..k + 6] != Header(CONTROLLER, cmd)
  {
    var h, w := Header(CONTROLLER, cmd), heard[k..k + 6];
    assert w[0] == heard[k] && w[1] == heard[k + 1] && w[i] == heard[k + i];
  }

  lemma Replaced<T>(s: seq<T>, j: nat, b: T)
    requires j < |s|
    ensures s[j := b] == s[..j] + [b] + s[j + 1..]
    ensures s == s[..j] + [s[j]] + s[j + 1..]
  {}

  lemma ReplacedInside<T>(h: seq<T>, s: seq<T>, e: seq<T>, d: seq<T>, j: nat, b: T)
    requires j < |s|
    ensures (h + s + e + d)[|h| + j := b] == h + s[j := b] + e + d
  {}

  lemma FrameDamaged(sum: Sum, cmd: byte, content: seq<byte>, j: nat, b: byte)
    requires j < |content|
    ensures Frame(sum, CONTROLLER, cmd, content)[6 + j := b]
         == Covered(CONTROLLER, cmd, content[j := b]) + sum(Covered(CONTROLLER, cmd, content))
  {
    var h := Header(CONTROLLER, cmd);
    assert |h| == 6;
    hide Header;
    ReplacedInside(h, content, [ETX], sum(Covered(CONTROLLER, cmd, content)), j, b);
  }

  lemma DamagedContentByte(cmd: byte, content: seq<byte>, j: nat, b: byte, size: nat)
    requires size > 0 && ETX !in content && |content| <= 57
    requires j < |content| && b != content[j] && b != ETX
    ensures Outcome(Checksum, Frame(Checksum, CONTROLLER, cmd, content)[6 + j := b], cmd, size).0 != Ok
  {
    hide Outcome, Covered, Frame, Checksum;
    var before, after := content[..j], content[j + 1..];
    Replaced(content, j, b);
    FrameDamaged(Checksum, cmd, content, j, b);
    AdjacentContentBytesDamaged(cmd, before, [content[j]], [b], after, size);
  }

  lemma ContentByteToETX(cmd: byte, content: seq<byte>, j: nat, size: nat)
    requires size > 0 && ETX !in content && |content| <= 57 && j < |content|
    ensures var damaged := Frame(Checksum, CONTROLLER, cmd, content)[6 + j := ETX];
            (Outcome(Checksum, damaged, cmd, size).0 == Ok <==> damaged[7 + j..11 + j] == Checksum(damaged[..7 + j]))
  {
    hide Checksum;
    var h := Header(CONTROLLER, cmd);
    var damaged := Frame(Checksum, CONTROLLER, cmd, content)[6 + j := ETX];
    var body, tail := content[..j], content[j + 1..] + [ETX] + Checksum(Covered(CONTROLLER, cmd, content));
    assert damaged == h + (body + [ETX] + tail);
    FrameAt(Checksum, cmd, body, tail, size);
    assert damaged[..7 + j] == Covered(CONTROLLER, cmd, body);
    assert damaged[7 + j..11 + j] == tail[..4];
  }

  lemma DamagedDigit(sum: Sum, cmd: byte, content: seq<byte>, k: nat, b: byte, size: nat)
    requires size > 0 && ETX !in content && |content| <= 57 && k < 4
    requires b != sum(Covered(CONTROLLER, cmd, content))[k]
    ensures Outcome(sum, Frame(sum, CONTROLLER, cmd, content)[7 + |content| + k := b], cmd, size).0 != Ok
  {
    var digits := sum(Covered(CONTROLLER, cmd, content));
    var tail := digits[k := b];
    assert Frame(sum, CONTROLLER, cmd, content)[7 + |content| + k := b]
           == Header(CONTROLLER, cmd) + (content + [ETX] + tail);
    FrameAt(sum, cmd, content, tail, size);
  }

  /**
   One damaged byte in a valid reply, with nothing else arriving: the reply is accepted if and only
   if a content byte became ETX and the four bytes behind it are the checksum of what precedes it.
   */
  lemma SingleByteDamaged(cmd: byte, content: seq<byte>, i: nat, b: byte, size: nat)
    requires size > 0 && ETX !in content && |content| <= 57
    requires i < |Frame(Checksum, CONTROLLER, cmd, content)| && b != Frame(Checksum, CONTROLLER, cmd, content)[i]
    ensures var damaged := Frame(Checksum, CONTROLLER, cmd, content)[i := b];
            (Outcome(Checksum, damaged, cmd, size).0 == Ok
             <==> 6 <= i < 6 + |content| && b == ETX && damaged[i + 1..i + 5] == Checksum(damaged[..i + 1]))
  {
    hide Checksum, Outcome;
    var n := |content|;
    var digits := Checksum(Covered(CONTROLLER, cmd, content));
    var damaged := Frame(Checksum, CONTROLLER, cmd, content)[i := b];
    if i < 6 {
      assert damaged == Header(CONTROLLER, cmd)[i := b] + (content + [ETX] + digits);
      DamagedHeader(Checksum, cmd, i, b, content + [ETX] + digits, size);
    } else if i < 6 + n && b != ETX {
      DamagedContentByte(cmd, content, i - 6, b, size);
    } else if i < 6 + n {
      ContentByteToETX(cmd, content, i - 6, size);
    } else if i == 6 + n {
      DigitsAreNotETX(Covered(CONTROLLER, cmd, content));
      NoETXNoFrame(Checksum, damaged, cmd, size);
    } else {
      DamagedDigit(Checksum, cmd, content, i - 7 - n, b, size);
    }
  }

  lemma EndsTwice<T>(h: seq<T>, e: seq<T>, d: seq<T>, t: seq<T>)
    ensures h + (e + d) + e + t == [] + (h + [] + e + d) + (e + t)
  {}

  lemma EndedEarly(sum: Sum, cmd: byte, digits: seq<byte>, tail: seq<byte>)
    requires digits == sum(Covered(CONTROLLER, cmd, []))
    ensures Covered(CONTROLLER, cmd, [ETX] + digits) + tail
         == [] + Frame(sum, CONTROLLER, cmd, []) + ([ETX] + tail)
  {
    hide Header;
    EndsTwice(Header(CONTROLLER, cmd), [ETX], digits, tail);
  }

  /**
   Such a wrongly accepted reply exists for every command: a content that starts with any byte but ETX, then digits.
   */
  lemma WronglyAccepted(cmd: byte, x: byte, size: nat)
    requires size > 0 && x != ETX
    ensures var content := [x] + Checksum(Covered(CONTROLLER, cmd, []));
            && ETX !in content
            && Outcome(Checksum, Frame(Checksum, CONTROLLER, cmd, content)[6 := ETX], cmd, size) == (Ok, [])
  {
    hide Checksum, Outcome, Covered, Frame;
    var digits := Checksum(Covered(CONTROLLER, cmd, []));
    var content := [x] + digits;
    var check := Checksum(Covered(CONTROLLER, cmd, content));
    DigitsAreNotETX(Covered(CONTROLLER, cmd, []));
    FrameDamaged(Checksum, cmd, content, 0, ETX);
    assert content[0 := ETX] == [ETX] + digits;
    EndedEarly(Checksum, cmd, digits, check);
    FrameIsReceived(Checksum, [], cmd, [], [ETX] + check, size);
  }

  /**
   Any damage to the content that keeps its length and makes no ETX is refused if it is a burst of at most sixteen
   bits, or flips an odd number of bits, or flips just two.
   */
  lemma DamagedContentRefused(cmd: byte, content: seq<byte>, damaged: seq<byte>, from: nat, i: nat, j: nat, size: nat)
    requires size > 0 && |damaged| == |content| <= 57 && ETX !in damaged
    requires var u := CrcErrors.Bits(Words(Covered(CONTROLLER, cmd, damaged)));
             var v := CrcErrors.Bits(Words(Covered(CONTROLLER, cmd, content)));
             && i < |u| && u[i] != v[i]
             && (|| CrcErrors.DifferOnlyWithin(u, v, from, 16) || CrcErrors.OddCount(CrcErrors.Flips(u, v))
                 || CrcDistance.OnlyAt(CrcErrors.Flips(u, v), i, j))
    ensures Outcome(Checksum, Covered(CONTROLLER, cmd, damaged) + Checksum(Covered(CONTROLLER, cmd, content)), cmd,
            size).0 != Ok
  {
    hide Covered, Words, Outcome, Checksum, CrcErrors.Bits, CrcErrors.Flips, CrcErrors.OddCount, CrcErrors.Crc;
    var s, t := Covered(CONTROLLER, cmd, damaged), Covered(CONTROLLER, cmd, content);
    var u, v := CrcErrors.Bits(Words(s)), CrcErrors.Bits(Words(t));
    CoveredLength(cmd, damaged);
    CoveredLength(cmd, content);
    ReplacedContent(Checksum, cmd, content, damaged, size);
    if CrcErrors.DifferOnlyWithin(u, v, from, 16) {
      CrcErrors.BurstDetected(Words(s), Words(t), from, i);
    } else if CrcErrors.OddCount(CrcErrors.Flips(u, v)) {
      CrcErrors.OddFlipsDetected(Words(s), Words(t));
    } else {
      CrcDistance.TwoFlipsDetectedIff(Words(s), Words(t), i, j);
    }
    DifferentDigits(s, t);
  }

  lemma CoveredLength(cmd: byte, content: seq<byte>)
    ensures |Covered(CONTROLLER, cmd, content)| == |content| + 7
  {}
}
