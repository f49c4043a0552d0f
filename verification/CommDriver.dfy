/**
 comm_send_command and comm_receive_response as the loops over the UART that they are, proved
 against the frame format and the receiver of the modules Comm and CommErrors.
 */
module CommDriver {
  import opened Bytes
  import opened Comm
  import opened CommErrors
  import Crc16
  import CrcErrors
  import Octets

  /** What a poll of the receive FIFO finds: nothing, or a byte. */
  datatype Poll = Nothing | Arrived(b: byte)

  class Uart {
    var polls: seq<Poll>
    var sent: seq<byte>

    constructor (polls: seq<Poll>)
      ensures this.polls == polls && sent == []
    {
      this.polls := polls;
      sent := [];
    }

    /** uart_getc_nowait: -1 when nothing has arrived. */
    method GetcNowait() returns (received: int)
      modifies this`polls
      ensures old(polls) == [] ==> received == -1 && polls == []
      ensures old(polls) != [] ==> polls == old(polls)[1..]
      ensures old(polls) != [] ==> received == match old(polls)[0] case Nothing => -1 case Arrived(b) => b
    {
      if polls == [] {
        received := -1;
      } else {
        received := match polls[0] case Nothing => -1 case Arrived(b) => b;
        polls := polls[1..];
      }
    }

    /** uart_putc. */
    method Putc(b: byte)
      modifies this`sent
      ensures sent == old(sent) + [b]
    {
      sent := sent + [b];
    }
  }

  /** The bytes heard before the line has been silent for TIMEOUT_RETRIES polls; `silent` polls were empty so far. */
  function Heard(polls: seq<Poll>, silent: nat): seq<byte>
    decreases |polls|
  {
    if polls == [] then []
    else match polls[0]
      case Arrived(b) => [b] + Heard(polls[1..], 0)
      case Nothing => if silent + 1 >= TIMEOUT_RETRIES then [] else Heard(polls[1..], silent + 1)
  }

  /** `n` polls that find nothing. */
  function Silence(n: nat): (s: seq<Poll>)
    ensures |s| == n
  {
    seq(n, _ => Nothing)
  }

  lemma {:induction false} SilenceGoesOn(n: nat, rest: seq<Poll>, silent: nat)
    requires silent < 10000
    ensures Heard(Silence(n) + rest, silent) == if silent + n < 10000 then Heard(rest, silent + n) else []
  {
    var polls := Silence(n) + rest;
    if n == 0 {
      assert polls == rest;
    } else {
      assert polls[0] == Nothing && polls[1..] == Silence(n - 1) + rest;
      if silent + 1 < 10000 { SilenceGoesOn(n - 1, rest, silent + 1); }
    }
  }

  /** A byte is heard exactly if it is there at the latest at the 10000th poll; nothing is heard after a silence. */
  lemma ByteIsHeard(n: nat, b: byte, rest: seq<Poll>)
    ensures Heard(Silence(n) + ([Arrived(b)] + rest), 0) == if n < 10000 then [b] + Heard(rest, 0) else []
    ensures Heard(Silence(n), 0) == []
  {
    SilenceGoesOn(n, [Arrived(b)] + rest, 0);
    assert ([Arrived(b)] + rest)[1..] == rest;
    SilenceGoesOn(n, [], 0);
    assert Silence(n) + [] == Silence(n);
  }

  /** Waits for one byte: comm.c polls up to 10000 times. */
  method WaitByte(uart: Uart) returns (received: int)
    modifies uart`polls
    ensures received == -1 ==> Heard(old(uart.polls), 0) == []
    ensures received != -1
            ==> 0 <= received < 256 && Heard(old(uart.polls), 0) == [received as byte] + Heard(uart.polls, 0)
    ensures |uart.polls| <= |old(uart.polls)| && (received != -1 ==> |uart.polls| < |old(uart.polls)|)
  {
    var timeoutRetries := TIMEOUT_RETRIES;
    received := uart.GetcNowait();
    while received == -1
      invariant 0 < timeoutRetries <= TIMEOUT_RETRIES
      invariant received == -1 || 0 <= received < 256
      invariant |uart.polls| <= |old(uart.polls)| && (received != -1 ==> |uart.polls| < |old(uart.polls)|)
      invariant received == -1 && timeoutRetries > 1
                ==> Heard(old(uart.polls), 0) == Heard(uart.polls, TIMEOUT_RETRIES - timeoutRetries + 1)
      invariant received == -1 && timeoutRetries == 1 ==> Heard(old(uart.polls), 0) == []
      invariant received != -1 ==> Heard(old(uart.polls), 0) == [received as byte] + Heard(uart.polls, 0)
      decreases timeoutRetries, received == -1
    {
      timeoutRetries := timeoutRetries - 1;
      if timeoutRetries == 0 {
        return;
      }
      received := uart.GetcNowait();
    }
  }

  /** sprintf: `s` goes behind the `pos` bytes of `text` printed so far. */
  method Print(tx: array<Crc16.octet>, pos: nat, ghost text: seq<byte>, s: seq<byte>) returns (next: nat)
    requires pos == |text| && pos + |s| <= tx.Length && tx[..pos] == Words(text)
    modifies tx
    ensures next == pos + |s| && tx[..next] == Words(text + s)
  {
    forall i | 0 <= i < |s| { tx[pos + i] := Octets.Octet(s[i]); }
    next := pos + |s|;
    assert tx[..pos] == Words(text) && tx[pos..next] == Words(s);
    hide Words;
    WordsAppend(text, s);
    assert tx[..next] == tx[..pos] + tx[pos..next];
  }

  /** The text that the checksum covers, printed into the transmit buffer. */
  method PrintCommand(tx: array<Crc16.octet>, addr: byte, cmd: byte, content: seq<byte>) returns (txSize: nat)
    requires |Covered(addr, cmd, content)| <= tx.Length
    modifies tx
    ensures txSize == |Covered(addr, cmd, content)| && tx[..txSize] == Words(Covered(addr, cmd, content))
  {
    hide Words;
    assert tx[..0] == Words([]) by { NoWords(); }
    assert [] + [SOH] == [SOH];
    txSize := Print(tx, 0, [], [SOH]);
    txSize := Print(tx, txSize, [SOH], Hex2(addr));
    txSize := Print(tx, txSize, [SOH] + Hex2(addr), [COLON, cmd, STX]);
    txSize := Print(tx, txSize, Header(addr, cmd), content);
    txSize := Print(tx, txSize, Header(addr, cmd) + content, [ETX]);
  }

  lemma NoWords()
    ensures Words([]) == []
  {}

  lemma WordAt(s: seq<byte>, k: nat)
    requires k < |s|
    ensures Octets.Number(Words(s)[k]) == s[k]
  {
    Octets.NumberOfOctet(s[k]);
  }

  /** The text, and the digits of its checksum behind it. */
  method PrintFrame(tx: array<Crc16.octet>, addr: byte, cmd: byte, content: seq<byte>) returns (size: nat)
    requires |Frame(Checksum, addr, cmd, content)| <= tx.Length
    modifies tx
    ensures size == |Frame(Checksum, addr, cmd, content)| && tx[..size] == Words(Frame(Checksum, addr, cmd, content))
  {
    hide Words, Covered, Hex4, CrcErrors.Crc;
    size := PrintCommand(tx, addr, cmd, content);
    var checksum := CrcErrors.Calculate(tx, size);
    size := Print(tx, size, Covered(addr, cmd, content), Hex4(checksum));
  }

  /** The loop over the transmit buffer. */
  method Transmit(uart: Uart, tx: array<Crc16.octet>, size: nat, ghost frame: seq<byte>)
    requires size == |frame| <= tx.Length && tx[..size] == Words(frame)
    modifies uart`sent
    ensures uart.sent == old(uart.sent) + frame
  {
    hide Words;
    var pos := 0;
    while pos < size
      invariant 0 <= pos <= size
      invariant uart.sent == old(uart.sent) + frame[..pos]
    {
      WordAt(frame, pos);
      assert tx[pos] == tx[..size][pos];
      uart.Putc(Octets.Number(tx[pos]));
      assert frame[..pos + 1] == frame[..pos] + [frame[pos]];
      pos := pos + 1;
    }
    assert frame[..size] == frame;
  }

  /** comm_send_command: the frame for `addr` goes out byte by byte. */
  method SendCommand(uart: Uart, cmd: byte, addr: byte, content: seq<byte>)
    requires |content| <= 52
    modifies uart`sent
    ensures uart.sent == old(uart.sent) + Frame(Checksum, addr, cmd, content)
  {
    hide Words, Checksum;
    var txBuffer := new Crc16.octet[64];
    var size := PrintFrame(txBuffer, addr, cmd, content);
    Transmit(uart, txBuffer, size, Frame(Checksum, addr, cmd, content));
  }

  /** The local variables of comm_receive_response; `model` is the receiver they stand for. */
  class Reception {
    const cmd: byte
    const bufferSize: nat
    const contentBuffer: array<byte>
    const rxBuffer: array<Crc16.octet>
    var state: nat
    var startRetries: nat
    var bufLen: nat
    var contentLen: nat
    var checksum: Digits
    ghost var model: Receiver

    ghost predicate Valid()
      reads this, contentBuffer, rxBuffer
    {
      && (contentBuffer as object) != rxBuffer
      && 0 < bufferSize <= contentBuffer.Length && rxBuffer.Length == RX_BUFFER_SIZE
      && contentLen < bufferSize && bufLen <= RX_BUFFER_SIZE && state <= 11
      && (state <= 5 ==> bufLen == state) && (state == 6 ==> bufLen < RX_BUFFER_SIZE)
      && (state <= 6 ==> rxBuffer[..bufLen] == Words(model.buf))
      && (state >= 7 ==> contentBuffer[contentLen] == 0)
      && contentBuffer[..contentLen] == model.content
      && model.state == state && model.retries == startRetries && model.checksum == checksum
    }

    constructor (cmd: byte, contentBuffer: array<byte>, bufferSize: nat)
      requires 0 < bufferSize <= contentBuffer.Length
      ensures Valid() && model == START && fresh(rxBuffer)
      ensures this.cmd == cmd && this.contentBuffer == contentBuffer && this.bufferSize == bufferSize
    {
      this.cmd, this.contentBuffer, this.bufferSize := cmd, contentBuffer, bufferSize;
      rxBuffer := new Crc16.octet[RX_BUFFER_SIZE];
      state, startRetries, bufLen, contentLen := 0, START_RETRIES, 0, 0;
      checksum := NO_DIGITS;
      model := START;
    }

    /** rx_buffer[buf_len++] = c, which never leaves the buffer. */
    method Store(c: byte)
      requires Valid() && state <= 6
      modifies this`bufLen, rxBuffer
      ensures bufLen == old(bufLen) + 1 && rxBuffer[..bufLen] == Words(model.buf + [c])
    {
      rxBuffer[bufLen] := Octets.Octet(c);
      bufLen := bufLen + 1;
      assert rxBuffer[..bufLen] == rxBuffer[..bufLen - 1] + [Octets.Octet(c)];
    }

    /** The states that check the header byte by byte. */
    method TakeHeader(c: byte) returns (status: Status)
      requires Valid() && state <= 5
      modifies this, rxBuffer
      ensures match Accept(Checksum, old(model), c, cmd, bufferSize)
              case Done(failure) => status == failure
              case More(next) => status == Ok && Valid() && model == next
    {
      Store(c);
      if state == 0 {
        if c == SOH {
          state := state + 1;
        } else if startRetries != 0 {
          startRetries := startRetries - 1;
          bufLen := 0;
          model := model.(retries := startRetries, buf := []);
          return Ok;
        } else {
          return NoStart;
        }
      } else if state <= 2 {
        if c == LETTER_F { state := state + 1; } else { return UnexpectedAddr; }
      } else if state == 3 {
        if c == COLON { state := state + 1; } else { return Syntax; }
      } else if state == 4 {
        if c == cmd { state := state + 1; } else { return UnexpectedOp; }
      } else {
        if c == STX { state := state + 1; } else { return Syntax; }
      }
      model := model.(state := state, buf := model.buf + [c]);
      return Ok;
    }

    method Digest(ghost buf: seq<byte>) returns (digits: Digits)
      requires bufLen <= rxBuffer.Length && rxBuffer[..bufLen] == Words(buf)
      ensures digits == Checksum(buf)
    {
      var crc := CrcErrors.Calculate(rxBuffer, bufLen);
      digits := Hex4(crc);
    }

    /** State 6: the content, up to ETX. */
    method TakeContent(c: byte) returns (status: Status)
      requires Valid() && state == 6
      modifies this, rxBuffer, contentBuffer
      ensures match Accept(Checksum, old(model), c, cmd, bufferSize)
              case Done(failure) => status == failure
              case More(next) => status == Ok && Valid() && model == next
    {
      hide Words, Checksum;
      ghost var content := contentBuffer[..contentLen];
      Store(c);
      if c == ETX {
        state := state + 1;
        checksum := Digest(model.buf + [c]);
        contentBuffer[contentLen] := 0;
        assert contentBuffer[..contentLen] == content;
        model := model.(state := 7, buf := model.buf + [c], checksum := checksum);
        return Ok;
      }
      if bufLen >= RX_BUFFER_SIZE {
        return BufferFull;
      }
      if contentLen < bufferSize - 1 {
        contentBuffer[contentLen] := c;
        contentLen := contentLen + 1;
        assert contentBuffer[..contentLen] == content + [c];
      }
      model := model.(buf := model.buf + [c], content := contentBuffer[..contentLen]);
      return Ok;
    }

    /** States 7 to 10: the digits of the checksum. */
    method TakeDigit(c: byte) returns (status: Status)
      requires Valid() && 7 <= state <= 10
      modifies this
      ensures match Accept(Checksum, old(model), c, cmd, bufferSize)
              case Done(failure) => status == failure
              case More(next) => status == Ok && Valid() && model == next
    {
      if c == checksum[state - 7] {
        state := state + 1;
        model := model.(state := state);
        return Ok;
      }
      return WrongChecksum;
    }
  }

  /** comm_receive_response. */
  method ReceiveResponse(uart: Uart, cmd: byte, contentBuffer: array<byte>, bufferSize: nat) returns (status: Status)
    requires 0 < bufferSize <= contentBuffer.Length
    modifies uart`polls, contentBuffer
    ensures status == Outcome(Checksum, Heard(old(uart.polls), 0), cmd, bufferSize).0
    ensures status == Ok ==>
              var content := Outcome(Checksum, Heard(old(uart.polls), 0), cmd, bufferSize).1;
              && |content| < bufferSize
              && contentBuffer[..|content|] == content && contentBuffer[|content|] == 0
  {
    hide Words, Checksum;
    var r := new Reception(cmd, contentBuffer, bufferSize);
    ghost var expected := Outcome(Checksum, Heard(uart.polls, 0), cmd, bufferSize);
    while r.state <= 10
      invariant r.Valid() && fresh(r) && fresh(r.rxBuffer)
      invariant expected == Run(Checksum, r.model, Heard(uart.polls, 0), cmd, bufferSize)
      decreases |uart.polls|
    {
      ghost var before := Heard(uart.polls, 0);
      var received := WaitByte(uart);
      if received == -1 {
        return Timeout;
      }
      assert before[0] == received && before[1..] == Heard(uart.polls, 0);
      if r.state <= 5 {
        status := r.TakeHeader(received);
      } else if r.state == 6 {
        status := r.TakeContent(received);
      } else {
        status := r.TakeDigit(received);
      }
      if status != Ok {
        return;
      }
    }
    status := Ok;
  }
}
