/**
 The RS-485 bus (comm.c): the frame that comm_send_command puts on the wire, and the byte-wise
 state machine with which comm_receive_response takes a reply off it. The checksum is a parameter
 `sum` here, a function from the covered bytes to four digits.
 */
module Comm {
  import opened Bytes

  const SOH: byte := 0x01
  const STX: byte := 0x02
  const ETX: byte := 0x03
  const LETTER_F: byte := 0x46
  const COLON: byte := 0x3A
  const CONTROLLER: byte := 0xFF

  const RX_BUFFER_SIZE: nat := 64
  const START_RETRIES: nat := 4
  const TIMEOUT_RETRIES: nat := 10000

  datatype Status = Ok | Timeout | NoStart | Syntax | BufferFull | UnexpectedAddr | UnexpectedOp | WrongChecksum

  type Digits = d: seq<byte> | |d| == 4 witness [0, 0, 0, 0]

  type Sum = seq<byte> -> Digits

  // ----- The frame ----------------------------------------------------------------------------------

  function HexDigit(d: nat): byte
    requires d < 16
  {
    if d < 10 then 0x30 + d else 0x37 + d
  }

  /** sprintf "%02X" of an address. */
  function Hex2(addr: byte): seq<byte> {
    [HexDigit(addr / 16), HexDigit(addr % 16)]
  }

  function Header(addr: byte, cmd: byte): seq<byte> {
    [SOH] + Hex2(addr) + [COLON, cmd, STX]
  }

  /** What the checksum covers: everything from SOH to ETX. */
  function Covered(addr: byte, cmd: byte, content: seq<byte>): seq<byte> {
    Header(addr, cmd) + content + [ETX]
  }

  function Frame(sum: Sum, addr: byte, cmd: byte, content: seq<byte>): seq<byte> {
    Covered(addr, cmd, content) + sum(Covered(addr, cmd, content))
  }

  // ----- The receiver as a function of the bytes heard ------------------------------------------------

  /** The receiver's variables: `buf` is rx_buffer[..buf_len], `content` is content_buffer[..content_len]. */
  datatype Receiver = Receiver(state: nat, retries: nat, buf: seq<byte>, content: seq<byte>, checksum: Digits)

  datatype Verdict = More(next: Receiver) | Done(status: Status)

  const NO_DIGITS: Digits := [0, 0, 0, 0]
  const START := Receiver(0, START_RETRIES, [], [], NO_DIGITS)

  /** One byte through the state machine. */
  function Accept(sum: Sum, r: Receiver, c: byte, cmd: byte, size: nat): Verdict
    requires size > 0 && r.state <= 10
  {
    var buf := if r.state <= 6 then r.buf + [c] else r.buf;
    if r.state == 0 then
      if c == SOH then More(r.(state := 1, buf := buf))
      else if r.retries != 0 then More(r.(retries := r.retries - 1, buf := []))
      else Done(NoStart)
    else if r.state <= 2 then
      if c == LETTER_F then More(r.(state := r.state + 1, buf := buf)) else Done(UnexpectedAddr)
    else if r.state == 3 then
      if c == COLON then More(r.(state := 4, buf := buf)) else Done(Syntax)
    else if r.state == 4 then
      if c == cmd then More(r.(state := 5, buf := buf)) else Done(UnexpectedOp)
    else if r.state == 5 then
      if c == STX then More(r.(state := 6, buf := buf)) else Done(Syntax)
    else if r.state == 6 then
      if c == ETX then More(r.(state := 7, buf := buf, checksum := sum(buf)))
      else if |buf| >= RX_BUFFER_SIZE then Done(BufferFull)
      else More(r.(buf := buf, content := if |r.content| < size - 1 then r.content + [c] else r.content))
    else
      if c == r.checksum[r.state - 7] then More(r.(state := r.state + 1)) else Done(WrongChecksum)
  }

  /** The outcome on the bytes heard before the line falls silent. */
  function Run(sum: Sum, r: Receiver, heard: seq<byte>, cmd: byte, size: nat): (Status, seq<byte>)
    requires size > 0 && r.state <= 11
    decreases |heard|
  {
    if r.state == 11 then (Ok, r.content)
    else if heard == [] then (Timeout, r.content)
    else
      match Accept(sum, r, heard[0], cmd, size)
      case Done(status) => (status, r.content)
      case More(next) => Run(sum, next, heard[1..], cmd, size)
  }

  function Outcome(sum: Sum, heard: seq<byte>, cmd: byte, size: nat): (Status, seq<byte>)
    requires size > 0
  {
    Run(sum, START, heard, cmd, size)
  }

  function Cut(content: seq<byte>, size: nat): seq<byte>
    requires size > 0
  {
    if |content| < size then content else content[..size - 1]
  }

  // ----- What the receiver accepts --------------------------------------------------------------------

  lemma RunOne(sum: Sum, r: Receiver, next: Receiver, s: seq<byte>, i: nat, cmd: byte, size: nat)
    requires size > 0 && i < |s| && r.state <= 10 && next.state <= 11
    requires Accept(sum, r, s[i], cmd, size) == More(next)
    ensures Run(sum, r, s[i..], cmd, size) == Run(sum, next, s[i + 1..], cmd, size)
  {
    assert s[i..][1..] == s[i + 1..];
  }

  lemma {:induction false} RunNoise(sum: Sum, r: Receiver, noise: seq<byte>, rest: seq<byte>, cmd: byte, size: nat)
    requires size > 0 && r == START.(retries := r.retries)
    requires SOH !in noise && |noise| <= r.retries
    ensures Run(sum, r, noise + rest, cmd, size) == Run(sum, r.(retries := r.retries - |noise|), rest, cmd, size)
    decreases |noise|
  {
    if noise == [] {
      assert noise + rest == rest;
    } else {
      assert (noise + rest)[0] == noise[0] && (noise + rest)[1..] == noise[1..] + rest;
      RunNoise(sum, r.(retries := r.retries - 1), noise[1..], rest, cmd, size);
    }
  }

  /** The receiver after a header for the controller and the content bytes `body`. */
  function InContent(retries: nat, cmd: byte, body: seq<byte>, size: nat): Receiver
    requires size > 0
  {
    Receiver(6, retries, Header(CONTROLLER, cmd) + body, Cut(body, size), NO_DIGITS)
  }

  /** The receiver in the middle of a header `h`, with its first `k` bytes read. */
  function InHeader(retries: nat, h: seq<byte>, k: nat): Receiver
    requires k <= |h|
  {
    START.(retries := retries, state := k, buf := h[..k])
  }

  lemma HeaderStep(sum: Sum, retries: nat, h: seq<byte>, k: nat, cmd: byte, size: nat)
    requires size > 0 && h == Header(CONTROLLER, cmd) && k < 6
    ensures Accept(sum, InHeader(retries, h, k), h[k], cmd, size) == More(InHeader(retries, h, k + 1))
  {
    assert Header(CONTROLLER, cmd) == [SOH, LETTER_F, LETTER_F, COLON, cmd, STX];
    assert h[..k] + [h[k]] == h[..k + 1];
  }

  lemma {:induction false} RunHeaderFrom(sum: Sum, retries: nat, h: seq<byte>, k: nat, rest: seq<byte>, cmd: byte,
                                         size: nat)
    requires size > 0 && h == Header(CONTROLLER, cmd) && k <= 6
    ensures Run(sum, InHeader(retries, h, k), h[k..] + rest, cmd, size)
            == Run(sum, InHeader(retries, h, 6), rest, cmd, size)
    decreases 6 - k
  {
    hide Run, Accept;
    if k == 6 {
      assert h[6..] + rest == rest;
    } else {
      var s := h[k..] + rest;
      assert s[0] == h[k] && s[1..] == h[k + 1..] + rest && s[0..] == s;
      HeaderStep(sum, retries, h, k, cmd, size);
      RunOne(sum, InHeader(retries, h, k), InHeader(retries, h, k + 1), s, 0, cmd, size);
      RunHeaderFrom(sum, retries, h, k + 1, rest, cmd, size);
    }
  }

  lemma RunHeader(sum: Sum, retries: nat, rest: seq<byte>, cmd: byte, size: nat)
    requires size > 0
    ensures Run(sum, START.(retries := retries), Header(CONTROLLER, cmd) + rest, cmd, size)
         == Run(sum, InContent(retries, cmd, [], size), rest, cmd, size)
  {
    hide Run, Accept;
    var h := Header(CONTROLLER, cmd);
    RunHeaderFrom(sum, retries, h, 0, rest, cmd, size);
    assert h[0..] == h && h[..6] == h && h + [] == h && h[..0] == [] && Cut([], size) == [];
  }

  const MAX_CONTENT: nat := 57

  lemma {:induction false} RunContent(sum: Sum, retries: nat, body: seq<byte>, more: seq<byte>, rest: seq<byte>,
                                      cmd: byte, size: nat)
    requires size > 0 && ETX !in more && |body| + |more| <= MAX_CONTENT
    ensures Run(sum, InContent(retries, cmd, body, size), more + rest, cmd, size)
         == Run(sum, InContent(retries, cmd, body + more, size), rest, cmd, size)
    decreases |more|
  {
    hide Run;
    if more == [] {
      assert more + rest == rest && body + more == body;
    } else {
      var s := more + rest;
      assert s[0] == more[0] && s[1..] == more[1..] + rest && s[0..] == s;
      var r := InContent(retries, cmd, body, size);
      assert r.buf + [more[0]] == Header(CONTROLLER, cmd) + (body + [more[0]]);
      assert body + more == (body + [more[0]]) + more[1..];
      assert Cut(body + [more[0]], size) == if |Cut(body, size)| < size - 1 then Cut(body, size) + [more[0]]
             else Cut(body, size);
      RunOne(sum, r, InContent(retries, cmd, body + [more[0]], size), s, 0, cmd, size);
      RunContent(sum, retries, body + [more[0]], more[1..], rest, cmd, size);
    }
  }

  lemma RunChecksum(sum: Sum, r: Receiver, rest: seq<byte>, cmd: byte, size: nat)
    requires size > 0 && r.state == 7
    ensures Run(sum, r, r.checksum + rest, cmd, size) == (Ok, r.content)
  {
    var s := r.checksum + rest;
    RunOne(sum, r, r.(state := 8), s, 0, cmd, size);
    RunOne(sum, r.(state := 8), r.(state := 9), s, 1, cmd, size);
    RunOne(sum, r.(state := 9), r.(state := 10), s, 2, cmd, size);
    RunOne(sum, r.(state := 10), r.(state := 11), s, 3, cmd, size);
    assert s[0..] == s;
  }

  lemma RunTail(sum: Sum, retries: nat, content: seq<byte>, rest: seq<byte>, cmd: byte, size: nat)
    requires size > 0
    ensures Run(sum, InContent(retries, cmd, content, size), [ETX] + sum(Covered(CONTROLLER, cmd, content)) + rest, cmd,
            size)
         == (Ok, Cut(content, size))
  {
    hide Run;
    var covered := Covered(CONTROLLER, cmd, content);
    var s := [ETX] + sum(covered) + rest;
    var r := InContent(retries, cmd, content, size);
    var r' := r.(state := 7, buf := covered, checksum := sum(covered));
    RunOne(sum, r, r', s, 0, cmd, size);
    assert s[0..] == s && s[1..] == sum(covered) + rest;
    RunChecksum(sum, r', rest, cmd, size);
  }

  lemma RunNoisyHeader(sum: Sum, noise: seq<byte>, rest: seq<byte>, cmd: byte, size: nat)
    requires size > 0 && |noise| <= START_RETRIES && SOH !in noise
    ensures Run(sum, START, noise + Header(CONTROLLER, cmd) + rest, cmd, size)
         == Run(sum, InContent(START_RETRIES - |noise|, cmd, [], size), rest, cmd, size)
  {
    hide Accept, Run;
    var h := Header(CONTROLLER, cmd);
    assert noise + h + rest == noise + (h + rest);
    RunNoise(sum, START, noise, h + rest, cmd, size);
    RunHeader(sum, START_RETRIES - |noise|, rest, cmd, size);
  }

  lemma FrameGroups(noise: seq<byte>, h: seq<byte>, content: seq<byte>, end: seq<byte>, digits: seq<byte>,
                    rest: seq<byte>)
    ensures noise + (h + content + end + digits) + rest == noise + h + (content + (end + digits + rest))
  {}

  /** A frame for the controller, after at most four bytes of noise, is received whatever follows it. */
  lemma FrameIsReceived(sum: Sum, noise: seq<byte>, cmd: byte, content: seq<byte>, rest: seq<byte>, size: nat)
    requires size > 0 && |noise| <= 4 && SOH !in noise
    requires ETX !in content && |content| <= 57
    ensures Outcome(sum, noise + Frame(sum, CONTROLLER, cmd, content) + rest, cmd, size)
         == (Ok, if |content| < size then content else content[..size - 1])
  {
    hide Accept, Run, InContent, Header;
    var digits := sum(Covered(CONTROLLER, cmd, content));
    var tail := [ETX] + digits + rest;
    FrameGroups(noise, Header(CONTROLLER, cmd), content, [ETX], digits, rest);
    RunNoisyHeader(sum, noise, content + tail, cmd, size);
    RunContent(sum, START_RETRIES - |noise|, [], content, tail, cmd, size);
    assert [] + content == content;
    RunTail(sum, START_RETRIES - |noise|, content, rest, cmd, size);
  }

  /** A longer content overruns the receive buffer. */
  lemma LongContentIsRefused(sum: Sum, noise: seq<byte>, cmd: byte, content: seq<byte>, rest: seq<byte>, size: nat)
    requires size > 0 && |noise| <= 4 && SOH !in noise
    requires ETX !in content && |content| > 57
    ensures Outcome(sum, noise + Header(CONTROLLER, cmd) + content + rest, cmd, size).0 == BufferFull
  {
    var h, fits, tail := Header(CONTROLLER, cmd), content[..MAX_CONTENT], content[MAX_CONTENT..] + rest;
    assert noise + h + content + rest == noise + h + (fits + tail);
    RunNoisyHeader(sum, noise, fits + tail, cmd, size);
    RunContent(sum, START_RETRIES - |noise|, [], fits, tail, cmd, size);
    assert [] + fits == fits;
    assert tail[0] == content[MAX_CONTENT];
  }

  /** Whether `heard` starts with noise, then a frame for the controller carrying `content`. */
  ghost predicate HoldsFrame(sum: Sum, heard: seq<byte>, cmd: byte, noise: seq<byte>, content: seq<byte>) {
    && |noise| <= 4 && SOH !in noise
    && ETX !in content && |content| <= 57
    && noise + Frame(sum, CONTROLLER, cmd, content) <= heard
  }

  /** What the receiver has consumed when it is in a given state. */
  ghost predicate Consumed(sum: Sum, r: Receiver, eaten: seq<byte>, noise: seq<byte>, body: seq<byte>, cmd: byte,
                           size: nat)
    requires size > 0
  {
    var h := Header(CONTROLLER, cmd);
    && |noise| <= START_RETRIES && SOH !in noise && r.retries == START_RETRIES - |noise|
    && ETX !in body && |body| <= MAX_CONTENT && r.content == Cut(body, size)
    && (r.state <= 6 ==> eaten == noise + r.buf)
    && (r.state <= 5 ==> body == [] && r.buf == h[..r.state])
    && (r.state == 6 ==> r.buf == h + body)
    && (7 <= r.state <= 11 ==>
          && r.checksum == sum(Covered(CONTROLLER, cmd, body))
          && eaten == noise + Covered(CONTROLLER, cmd, body) + r.checksum[..r.state - 7])
  }

  function NoiseAfter(r: Receiver, c: byte, noise: seq<byte>): seq<byte> {
    if r.state == 0 && c != SOH then noise + [c] else noise
  }

  function BodyAfter(r: Receiver, c: byte, body: seq<byte>): seq<byte> {
    if r.state == 6 && c != ETX then body + [c] else body
  }

  lemma ConsumedInHeader(sum: Sum, r: Receiver, c: byte, eaten: seq<byte>, noise: seq<byte>, body: seq<byte>, cmd: byte,
                         size: nat)
    requires size > 0 && r.state <= 5 && Consumed(sum, r, eaten, noise, body, cmd, size)
    requires Accept(sum, r, c, cmd, size).More?
    ensures Consumed(sum, Accept(sum, r, c, cmd, size).next, eaten + [c], NoiseAfter(r, c, noise), body, cmd, size)
  {
    var h := [SOH, LETTER_F, LETTER_F, COLON, cmd, STX];
    assert Header(CONTROLLER, cmd) == h;
    if r.state == 0 && c != SOH {
      assert eaten + [c] == (noise + [c]) + [];
    } else {
      assert c == h[r.state];
      assert h[..r.state + 1] == h[..r.state] + [c];
      assert eaten + [c] == noise + (r.buf + [c]);
      assert h[..6] == h == h + [];
    }
  }

  lemma ConsumedInContent(sum: Sum, r: Receiver, c: byte, eaten: seq<byte>, noise: seq<byte>, body: seq<byte>,
                          cmd: byte, size: nat)
    requires size > 0 && r.state == 6 && Consumed(sum, r, eaten, noise, body, cmd, size)
    requires Accept(sum, r, c, cmd, size).More?
    ensures Consumed(sum, Accept(sum, r, c, cmd, size).next, eaten + [c], noise, BodyAfter(r, c, body), cmd, size)
  {
    if c == ETX {
      assert r.buf + [c] == Covered(CONTROLLER, cmd, body);
      assert eaten + [c] == noise + Covered(CONTROLLER, cmd, body) + [];
    } else {
      var b2 := body + [c];
      assert Cut(b2, size) == if |Cut(body, size)| < size - 1 then Cut(body, size) + [c] else Cut(body, size);
      assert r.buf + [c] == Header(CONTROLLER, cmd) + b2;
      assert eaten + [c] == noise + (r.buf + [c]);
    }
  }

  lemma ConsumedInChecksum(sum: Sum, r: Receiver, c: byte, eaten: seq<byte>, noise: seq<byte>, body: seq<byte>,
                           cmd: byte, size: nat)
    requires size > 0 && 7 <= r.state <= 10 && Consumed(sum, r, eaten, noise, body, cmd, size)
    requires Accept(sum, r, c, cmd, size).More?
    ensures Consumed(sum, Accept(sum, r, c, cmd, size).next, eaten + [c], noise, body, cmd, size)
  {
    assert r.checksum[..r.state - 6] == r.checksum[..r.state - 7] + [c];
  }

  lemma AcceptedGoesOn(sum: Sum, r: Receiver, c: byte, cmd: byte, size: nat)
    requires size > 0 && r.state <= 10
    ensures match Accept(sum, r, c, cmd, size) case Done(status) => status != Ok case More(next) => next.state <= 11
  {}

  lemma ConsumedFrame(sum: Sum, r: Receiver, eaten: seq<byte>, noise: seq<byte>, body: seq<byte>, cmd: byte, size: nat)
    requires size > 0 && r.state == 11 && Consumed(sum, r, eaten, noise, body, cmd, size)
    ensures eaten == noise + Frame(sum, CONTROLLER, cmd, body)
  {
    hide Header;
    assert r.checksum[..4] == r.checksum;
  }

  lemma {:induction false} AcceptedHoldsFrame(sum: Sum, r: Receiver, eaten: seq<byte>, heard: seq<byte>,
                                              noise: seq<byte>, body: seq<byte>, cmd: byte, size: nat)
    returns (noise': seq<byte>, content: seq<byte>)
    requires size > 0 && r.state <= 11 && Consumed(sum, r, eaten, noise, body, cmd, size)
    requires Run(sum, r, heard, cmd, size).0 == Ok
    ensures HoldsFrame(sum, eaten + heard, cmd, noise', content)
    decreases |heard|
  {
    hide Accept;
    if r.state == 11 {
      noise', content := noise, body;
      ConsumedFrame(sum, r, eaten, noise, body, cmd, size);
    } else {
      hide Consumed, Frame, Header;
      var c := heard[0];
      AcceptedGoesOn(sum, r, c, cmd, size);
      if r.state <= 5 {
        ConsumedInHeader(sum, r, c, eaten, noise, body, cmd, size);
      } else if r.state == 6 {
        ConsumedInContent(sum, r, c, eaten, noise, body, cmd, size);
      } else {
        ConsumedInChecksum(sum, r, c, eaten, noise, body, cmd, size);
      }
      assert eaten + heard == (eaten + [c]) + heard[1..];
      noise', content := AcceptedHoldsFrame(sum, Accept(sum, r, c, cmd, size).next, eaten + [c], heard[1..],
                                            NoiseAfter(r, c, noise), BodyAfter(r, c, body), cmd, size);
    }
  }

  /** The receiver answers COMM_OK exactly on the inputs that hold a frame, and delivers its content. */
  lemma AcceptsExactlyFrames(sum: Sum, heard: seq<byte>, cmd: byte, size: nat)
    requires size > 0
    ensures Outcome(sum, heard, cmd, size).0 == Ok
            <==> exists noise, content :: HoldsFrame(sum, heard, cmd, noise, content)
    ensures forall noise, content :: HoldsFrame(sum, heard, cmd, noise, content) ==>
              Outcome(sum, heard, cmd, size) == (Ok, Cut(content, size))
  {
    forall noise, content | HoldsFrame(sum, heard, cmd, noise, content)
      ensures Outcome(sum, heard, cmd, size) == (Ok, Cut(content, size))
    {
      var f := noise + Frame(sum, CONTROLLER, cmd, content);
      assert heard == f + heard[|f|..];
      FrameIsReceived(sum, noise, cmd, content, heard[|f|..], size);
    }
    if Outcome(sum, heard, cmd, size).0 == Ok {
      assert [] + heard == heard && Header(CONTROLLER, cmd)[..0] == [];
      var noise, content := AcceptedHoldsFrame(sum, START, [], heard, [], [], cmd, size);
    }
  }
}
