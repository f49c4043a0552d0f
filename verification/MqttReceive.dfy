/**
 The receive half of the MQTT client (libs/mqtt.c, __mqtt_recv): packets are cut out of a bounded
 buffer that is filled in whatever portions the network delivers. What the client does depends on
 the bytes alone, not on the portions.
 */
module MqttReceive {
  import opened Bytes
  import opened MqttTypes
  import opened MqttPacket
  import opened MqttSession
  import MqttQueue

  // ----- The packets in a stream of bytes ---------------------------------------------------------------

  datatype Parsed = Parsed(responses: seq<Response>, rest: seq<byte>, end: Unpacked)

  /** All the packets at the start of `b`, the bytes behind them, and why they are not one more. */
  function Parse(b: seq<byte>): (p: Parsed)
    ensures Unpack(p.rest) == p.end && !p.end.Packet?
    decreases |b|
  {
    match Unpack(b)
    case Packet(consumed, _, r) =>
      var p := Parse(b[consumed..]);
      Parsed([r] + p.responses, p.rest, p.end)
    case other => Parsed([], b, other)
  }

  lemma ParsePacket(b: seq<byte>, more: seq<byte>)
    requires Unpack(b).Packet?
    ensures var u, p := Unpack(b), Parse(b[Unpack(b).consumed..] + more);
            Parse(b + more) == Parsed([u.response] + p.responses, p.rest, p.end)
  {
    UnpackStable(b, more);
    assert (b + more)[Unpack(b).consumed..] == b[Unpack(b).consumed..] + more;
  }

  /** The packets of a stream can be cut out portion by portion. */
  lemma {:induction false} ParseContinues(b: seq<byte>, more: seq<byte>)
    requires Parse(b).end == More
    ensures var p, p' := Parse(b), Parse(Parse(b).rest + more);
            Parse(b + more) == Parsed(p.responses + p'.responses, p'.rest, p'.end)
    decreases |b|
  {
    hide Unpack;
    if Unpack(b).Packet? {
      ParseContinues(b[Unpack(b).consumed..], more);
      ParsePacket(b, more);
    }
  }

  /** Whole packets, each of at most `size` bytes. */
  predicate WellFormed(b: seq<byte>, size: nat)
    decreases |b|
  {
    b != [] ==> Unpack(b).Packet? && Unpack(b).extent <= size && WellFormed(b[Unpack(b).consumed..], size)
  }

  // ----- __mqtt_recv ------------------------------------------------------------------------------------

  /** The bytes that will arrive; each portion is what recvall finds, if there is room for it. */
  function Flat(net: seq<seq<byte>>): seq<byte> {
    if net == [] then [] else net[0] + Flat(net[1..])
  }

  /** recvall into `free` bytes; what does not fit stays in the network. */
  function Take(net: seq<seq<byte>>, free: nat): (r: (seq<byte>, seq<seq<byte>>))
    ensures |r.0| <= free && r.0 + Flat(r.1) == Flat(net)
  {
    if net == [] then ([], [])
    else if |net[0]| <= free then (net[0], net[1..])
    else
      var left := [net[0][free..]] + net[1..];
      assert left[1..] == net[1..] && net[0][..free] + (net[0][free..] + Flat(net[1..])) == net[0] + Flat(net[1..]);
      (net[0][..free], left)
  }

  /** No PUBLISH in the stream has a topic longer than its packet. */
  predicate Sound(b: seq<byte>) {
    Parse(b).end != Overrun
  }

  /** After a turn of the loop the stream is still sound. */
  lemma TurnIsSound(buffer: seq<byte>, net: seq<seq<byte>>, net': seq<seq<byte>>, b: seq<byte>, size: nat)
    requires |buffer| <= size && Sound(buffer + Flat(net))
    requires (b, net') == (buffer + Take(net, size - |buffer|).0, Take(net, size - |buffer|).1)
    ensures Unpack(b) != Overrun && |b| + |Flat(net')| == |buffer| + |Flat(net)|
    ensures Unpack(b).Packet? ==> Sound(b[Unpack(b).consumed..] + Flat(net'))
  {
    hide Unpack, Flat;
    assert b + Flat(net') == buffer + Flat(net);
    if Unpack(b) == Overrun { UnpackStable(b, Flat(net')); }
    if Unpack(b).Packet? { ParsePacket(b, Flat(net')); }
  }

  datatype Received = Received(session: Session, buffer: seq<byte>, net: seq<seq<byte>>, status: Status)

  /** The loop of __mqtt_recv: fill the buffer, cut out a packet, handle it. */
  function Recv(s: Session, buffer: seq<byte>, net: seq<seq<byte>>, size: nat, stale: Stale): (r: Received)
    requires Fits(s) && |buffer| <= size && Sound(buffer + Flat(net))
    ensures Fits(r.session) && |r.buffer| <= size
    decreases |buffer| + |Flat(net)|
  {
    hide Handle, Unpack, Take, Flat, Sound, MqttQueue.Footprint;
    var (portion, net') := Take(net, size - |buffer|);
    var b := buffer + portion;
    TurnIsSound(buffer, net, net', b, size);
    match Unpack(b)
    case More =>
      if |b| == size then Received(s.(error := RecvBufferTooSmall), b, net', RecvBufferTooSmall)
          else Received(s, b, net', Ok)
    case Bad(e) => Received(s.(error := e), b, net', e)
    case Overrun => assert false; Received(s, b, net', Ok)
    case Packet(consumed, _, response) =>
      var (s', rv) := Handle(s, response, stale);
      if rv != Ok then Received(s', b[consumed..], net', rv) else Recv(s', b[consumed..], net', size, stale)
  }

  // ----- Chunking ---------------------------------------------------------------------------------------

  /** Handle responses until one reports an error. */
  function HandleAll(s: Session, rs: seq<Response>, stale: Stale): (r: (Session, Status))
    requires Fits(s)
    ensures Fits(r.0)
    decreases rs
  {
    if rs == [] then (s, Ok)
    else
      var (s', rv) := Handle(s, rs[0], stale);
      if rv != Ok then (s', rv) else HandleAll(s', rs[1..], stale)
  }

  /** What `r` makes of the session and the buffer, given the bytes `b` in the buffer and received. */
  predicate Explains(s: Session, b: seq<byte>, size: nat, stale: Stale, r: Received)
    requires Fits(s)
  {
    var p := Parse(b);
    var (s', rv) := HandleAll(s, p.responses, stale);
    if rv != Ok then r.session == s' && r.status == rv
    else if p.end.Bad? then r.session == s'.(error := p.end.error) && r.status == p.end.error
    else if |p.rest| >= size then |p.rest| == size && r.session == s'.(error := RecvBufferTooSmall)
        && r.status == RecvBufferTooSmall
    else p.end == More && r == Received(s', p.rest, r.net, Ok)
  }

  lemma {:induction false} RecvFollowsBytes(s: Session, buffer: seq<byte>, net: seq<seq<byte>>, size: nat, stale: Stale)
    returns (x: seq<byte>)
    requires Fits(s) && |buffer| <= size && Sound(buffer + Flat(net))
    ensures var r := Recv(s, buffer, net, size, stale);
            Flat(net) == x + Flat(r.net) && Explains(s, buffer + x, size, stale, r)
    decreases |buffer| + |Flat(net)|
  {
    hide Unpack, Handle, Fits, Flat, Take, Sound;
    var (portion, net') := Take(net, size - |buffer|);
    var b := buffer + portion;
    TurnIsSound(buffer, net, net', b, size);
    x := portion;
    match Unpack(b)
    case More =>
    case Bad(_) =>
    case Packet(consumed, _, response) =>
      var (s', rv) := Handle(s, response, stale);
      if rv == Ok {
        var x' := RecvFollowsBytes(s', b[consumed..], net', size, stale);
        ParsePacket(b, x');
        x := portion + x';
        assert buffer + x == b + x';
      }
  }

  lemma {:induction false} HandleAllContinues(s: Session, rs: seq<Response>, rs': seq<Response>, stale: Stale)
    requires Fits(s) && HandleAll(s, rs, stale).1 == Ok
    ensures HandleAll(s, rs + rs', stale) == HandleAll(HandleAll(s, rs, stale).0, rs', stale)
    decreases rs
  {
    hide Handle, Fits;
    if rs == [] {
      assert rs + rs' == rs';
    } else {
      assert (rs + rs')[1..] == rs[1..] + rs';
      HandleAllContinues(Handle(s, rs[0], stale).0, rs[1..], rs', stale);
    }
  }

  lemma StaysSound(b: seq<byte>, more: seq<byte>)
    requires Parse(b).end == More && Sound(b + more)
    ensures Sound(Parse(b).rest + more)
  {
    ParseContinues(b, more);
  }

  lemma RecvStaysSound(s: Session, buffer: seq<byte>, net: seq<seq<byte>>, size: nat, stale: Stale)
    requires Fits(s) && |buffer| <= size && Sound(buffer + Flat(net))
    ensures var r := Recv(s, buffer, net, size, stale);
            r.status == Ok ==> Sound(r.buffer + Flat(r.net))
  {
    hide Recv, Parse, HandleAll, Sound;
    var r := Recv(s, buffer, net, size, stale);
    var x := RecvFollowsBytes(s, buffer, net, size, stale);
    assert buffer + Flat(net) == (buffer + x) + Flat(r.net);
    BadIsAnError(buffer + x);
    if r.status == Ok { StaysSound(buffer + x, Flat(r.net)); }
  }

  lemma BadIsAnError(b: seq<byte>)
    ensures Parse(b).end.Bad? ==> Final(Parse(b).end.error)
  {}

  /** `n + 1` calls of __mqtt_recv, as long as they go well. */
  function RecvCalls(s: Session, buffer: seq<byte>, net: seq<seq<byte>>, size: nat, stale: Stale, n: nat): (r: Received)
    requires Fits(s) && |buffer| <= size && Sound(buffer + Flat(net))
    ensures Fits(r.session) && |r.buffer| <= size
    decreases n
  {
    var r := Recv(s, buffer, net, size, stale);
    RecvStaysSound(s, buffer, net, size, stale);
    if n == 0 || r.status != Ok then r else RecvCalls(r.session, r.buffer, r.net, size, stale, n - 1)
  }

  lemma ExplainsContinues(s: Session, b: seq<byte>, x: seq<byte>, size: nat, stale: Stale, r: Received, r': Received)
    requires Fits(s) && Explains(s, b, size, stale, r) && r.status == Ok
    requires Fits(r.session) && Explains(r.session, r.buffer + x, size, stale, r')
    ensures Explains(s, b + x, size, stale, r')
  {
    hide HandleAll, Parse;
    BadIsAnError(b);
    ParseContinues(b, x);
    HandleAllContinues(s, Parse(b).responses, Parse(r.buffer + x).responses, stale);
  }

  lemma {:induction false} RecvCallsFollowBytes(s: Session, buffer: seq<byte>, net: seq<seq<byte>>, size: nat,
                                                stale: Stale, n: nat) returns (x: seq<byte>)
    requires Fits(s) && |buffer| <= size && Sound(buffer + Flat(net))
    ensures var r := RecvCalls(s, buffer, net, size, stale, n);
            Flat(net) == x + Flat(r.net) && Explains(s, buffer + x, size, stale, r)
    decreases n
  {
    hide Recv, Explains, Sound, Parse, Flat, Fits;
    x := RecvFollowsBytes(s, buffer, net, size, stale);
    RecvStaysSound(s, buffer, net, size, stale);
    var r := Recv(s, buffer, net, size, stale);
    if n > 0 && r.status == Ok {
      var x' := RecvCallsFollowBytes(r.session, r.buffer, r.net, size, stale, n - 1);
      ExplainsContinues(s, buffer + x, x', size, stale, r, RecvCalls(r.session, r.buffer, r.net, size, stale, n - 1));
      assert buffer + (x + x') == (buffer + x) + x';
      x := x + x';
    }
  }

  // ----- Whatever the portions --------------------------------------------------------------------------

  datatype Processed = Processed(session: Session, buffer: seq<byte>, status: Status)

  /** The part of a stream a buffer of `size` bytes can hold. */
  function Window(b: seq<byte>, size: nat): (w: seq<byte>)
    ensures |w| <= size && w <= b
  {
    if |b| <= size then b else b[..size]
  }

  /** What becomes of the bytes `b` with a buffer of `size` bytes, were they all there at once. */
  function Process(s: Session, b: seq<byte>, size: nat, stale: Stale): (r: Processed)
    requires Fits(s)
    decreases |b|
  {
    hide Handle, Unpack;
    match Unpack(Window(b, size))
    case More =>
      if |b| >= size then Processed(s.(error := RecvBufferTooSmall), b, RecvBufferTooSmall) else Processed(s, b, Ok)
    case Bad(e) => Processed(s.(error := e), b, e)
    case Overrun => Processed(s, b, Ok)
    case Packet(consumed, _, response) =>
      var (s', rv) := Handle(s, response, stale);
      if rv != Ok then Processed(s', b[consumed..], rv) else Process(s', b[consumed..], size, stale)
  }

  /** What is found in the buffer would be found with more of the stream in it. */
  lemma WindowDecides(b: seq<byte>, more: seq<byte>, size: nat)
    requires |b| <= size
    ensures Unpack(b) != More ==> Unpack(Window(b + more, size)) == Unpack(b)
    ensures |b| == size ==> Window(b + more, size) == b
  {
    hide Unpack;
    var w := Window(b + more, size);
    assert w == b + w[|b|..];
    if Unpack(b) != More { UnpackStable(b, w[|b|..]); }
  }

  predicate SameEnd(r: Received, p: Processed) {
    r.session == p.session && r.status == p.status && (r.status == Ok ==> r.buffer == p.buffer)
  }

  /** A call that goes well leaves the rest to the next one, and has taken at least one portion. */
  predicate LeavesRest(r: Received, p: Processed, size: nat, stale: Stale, net: seq<seq<byte>>)
    requires Fits(r.session)
  {
    && Process(r.session, r.buffer + Flat(r.net), size, stale) == p
    && |r.buffer| < size && Unpack(r.buffer) == More && (r.net == [] || |r.net| < |net|)
  }

  lemma TakeShortens(net: seq<seq<byte>>, free: nat)
    ensures var (portion, net') := Take(net, free);
            |net'| <= |net| && (|portion| < free ==> net' == [] || |net'| < |net|)
  {}

  lemma {:induction false} RecvProcesses(s: Session, buffer: seq<byte>, net: seq<seq<byte>>, size: nat, stale: Stale)
    requires Fits(s) && |buffer| <= size && Sound(buffer + Flat(net))
    ensures var r, p := Recv(s, buffer, net, size, stale), Process(s, buffer + Flat(net), size, stale);
            if r.status == Ok then LeavesRest(r, p, size, stale, net) else SameEnd(r, p)
    decreases |buffer| + |Flat(net)|
  {
    hide Unpack, Handle, Fits, Flat, Take, Sound, Window;
    var (portion, net') := Take(net, size - |buffer|);
    var b := buffer + portion;
    TurnIsSound(buffer, net, net', b, size);
    assert buffer + Flat(net) == b + Flat(net');
    WindowDecides(b, Flat(net'), size);
    TakeShortens(net, size - |buffer|);
    match Unpack(b)
    case More =>
    case Bad(_) =>
    case Packet(consumed, _, response) =>
      var (s', rv) := Handle(s, response, stale);
      assert (b + Flat(net'))[consumed..] == b[consumed..] + Flat(net');
      if rv == Ok { RecvProcesses(s', b[consumed..], net', size, stale); }
  }

  lemma NothingMore(s: Session, b: seq<byte>, size: nat, stale: Stale)
    requires Fits(s) && |b| < size && Unpack(b) == More
    ensures Process(s, b, size, stale) == Processed(s, b, Ok)
  {
    hide Unpack;
  }

  /** As many calls as there are portions receive all of the stream, unless one reports an error. */
  lemma {:induction false} CallsProcess(s: Session, buffer: seq<byte>, net: seq<seq<byte>>, size: nat, stale: Stale,
                                        n: nat)
    requires Fits(s) && |buffer| <= size && Sound(buffer + Flat(net)) && |net| <= n + 1
    ensures var r := RecvCalls(s, buffer, net, size, stale, n);
            SameEnd(r, Process(s, buffer + Flat(net), size, stale)) && (r.status == Ok ==> r.net == [])
    decreases n
  {
    hide Recv, Process, Sound, Fits, Flat, Unpack;
    RecvProcesses(s, buffer, net, size, stale);
    RecvStaysSound(s, buffer, net, size, stale);
    var r := Recv(s, buffer, net, size, stale);
    if r.status == Ok {
      if n == 0 {
        FlatNothing();
        assert r.buffer + [] == r.buffer;
        NothingMore(r.session, r.buffer, size, stale);
      } else {
        CallsProcess(r.session, r.buffer, r.net, size, stale, n - 1);
      }
    }
  }

  lemma FlatNothing()
    ensures Flat([]) == []
  {}

  /**
   It makes no difference in what portions a stream of bytes arrives: once there were as many calls as portions, the
   session, the status and the bytes left in the buffer are the same, errors included.
   */
  lemma ChunkingIrrelevant(s: Session, buffer: seq<byte>, size: nat, stale: Stale,
                           net: seq<seq<byte>>, n: nat, net': seq<seq<byte>>, n': nat)
    requires Fits(s) && |buffer| <= size && Flat(net) == Flat(net') && Sound(buffer + Flat(net))
    requires |net| <= n + 1 && |net'| <= n' + 1
    ensures var r, r' := RecvCalls(s, buffer, net, size, stale, n), RecvCalls(s, buffer, net', size, stale, n');
            r.session == r'.session && r.status == r'.status
                && (r.status == Ok ==> r.buffer == r'.buffer && r.net == r'.net == [])
  {
    hide RecvCalls, Process, Flat, Sound, Fits;
    CallsProcess(s, buffer, net, size, stale, n);
    CallsProcess(s, buffer, net', size, stale, n');
  }

  /**
   What calls make of a stream, in whatever portions: it ends with the error of its first packet, with too small a
   buffer if that packet never fits, with an error of the handler, or it waits for the rest of the packet; otherwise
   the packet is handled, and all goes on as if the stream had started behind it.
   */
  lemma PacketByPacket(s: Session, buffer: seq<byte>, net: seq<seq<byte>>, size: nat, stale: Stale, n: nat,
                       net': seq<seq<byte>>, n': nat)
    requires Fits(s) && |buffer| <= size && Sound(buffer + Flat(net)) && |net| <= n + 1 && |net'| <= n' + 1
    ensures var b, r := buffer + Flat(net), RecvCalls(s, buffer, net, size, stale, n);
            var u := Unpack(if |b| <= size then b else b[..size]);
            && (u.Bad? ==> (r.session, r.status) == (s.(error := u.error), u.error))
            && (u == More && |b| >= size
                ==> (r.session, r.status) == (s.(error := RecvBufferTooSmall), RecvBufferTooSmall))
            && (u == More && |b| < size ==> r == Received(s, b, [], Ok))
            && (u.Packet? ==>
                  var (s', rv) := Handle(s, u.response, stale);
                  && (rv != Ok ==> (r.session, r.status) == (s', rv))
                  && (rv == Ok && Flat(net') == b[u.consumed..] ==>
                        && Sound([] + Flat(net'))
                        && var r' := RecvCalls(s', [], net', size, stale, n');
                        && (r.session, r.status) == (r'.session, r'.status)
                        && (r.status == Ok ==> r == r')))
  {
    hide Recv, RecvCalls, Sound, Fits, Flat, Unpack, Handle;
    var b := buffer + Flat(net);
    var u := Unpack(Window(b, size));
    CallsProcess(s, buffer, net, size, stale, n);
    if u.Packet? && Flat(net') == b[u.consumed..] {
      assert [] + Flat(net') == Flat(net');
      RestIsSound(b, size);
      var (s', rv) := Handle(s, u.response, stale);
      if rv == Ok { CallsProcess(s', [], net', size, stale, n'); }
    }
  }

  lemma RestIsSound(b: seq<byte>, size: nat)
    requires Sound(b) && Unpack(Window(b, size)).Packet?
    ensures Sound(b[Unpack(Window(b, size)).consumed..])
  {
    hide Unpack;
    var w := Window(b, size);
    assert b == w + b[|w|..];
    ParsePacket(w, b[|w|..]);
    assert b[Unpack(w).consumed..] == w[Unpack(w).consumed..] + b[|w|..];
  }

  // ----- A stream of whole packets ----------------------------------------------------------------------

  /** A prefix of a stream of packets that fit the buffer leaves less than a packet over. */
  lemma {:induction false} PrefixLeavesLess(b: seq<byte>, later: seq<byte>, size: nat)
    requires WellFormed(b + later, size) && size > 0
    ensures Parse(b).end == More && |Parse(b).rest| < size
    decreases |b|
  {
    hide Unpack;
    var whole := b + later;
    if b == [] {
      assert Unpack(b) == More by { NothingYet(); }
    } else if Unpack(b) != More {
      UnpackStable(b, later);
      var n := Unpack(b).consumed;
      assert whole[n..] == b[n..] + later;
      PrefixLeavesLess(b[n..], later, size);
    } else {
      assert whole[..|b|] == b;
      StillShort(whole, |b|);
    }
  }

  lemma StillShort(b: seq<byte>, n: nat)
    requires Unpack(b).Packet? && n <= |b| && Unpack(b[..n]) == More
    ensures n < Unpack(b).extent
  {
    hide Unpack;
    if Unpack(b).extent <= n { UnpackWithinExtent(b, n); }
  }

  lemma NothingYet()
    ensures Unpack([]) == More
  {}

  lemma ExplainedByHandlers(s: Session, b: seq<byte>, size: nat, stale: Stale, r: Received)
    requires Fits(s) && Explains(s, b, size, stale, r) && Parse(b).end == More && |Parse(b).rest| < size
    ensures (r.session, r.status) == HandleAll(s, Parse(b).responses, stale)
    ensures r.status == Ok ==> r.buffer == Parse(b).rest
  {}

  /**
   While the broker sends whole packets that fit the buffer, the only errors are those of the handlers; the
   packets handled are those in the bytes received, and between calls the buffer holds the start of the next.
   */
  lemma StreamIsHandled(s: Session, net: seq<seq<byte>>, later: seq<byte>, size: nat, stale: Stale, n: nat)
    returns (x: seq<byte>)
    requires Fits(s) && size > 0 && WellFormed(Flat(net) + later, size)
    ensures Sound([] + Flat(net))
    ensures var r, p := RecvCalls(s, [], net, size, stale, n), Parse(x);
            && Flat(net) == x + Flat(r.net)
            && (r.session, r.status) == HandleAll(s, p.responses, stale)
            && (r.status == Ok ==> r.buffer == p.rest) && p.end == More && |p.rest| < size
  {
    hide HandleAll, RecvCalls, WellFormed, Explains, Fits, Flat, Parse, Unpack;
    assert [] + Flat(net) == Flat(net);
    PrefixLeavesLess(Flat(net), later, size);
    x := RecvCallsFollowBytes(s, [], net, size, stale, n);
    assert [] + x == x;
    var r := RecvCalls(s, [], net, size, stale, n);
    assert Flat(net) + later == x + (Flat(r.net) + later);
    PrefixLeavesLess(x, Flat(r.net) + later, size);
    ExplainedByHandlers(s, x, size, stale, r);
  }
}
