/**
 The MQTT client as a state machine (libs/mqtt.c): the API calls, the send half and the receive half
 of a synchronisation as functions from session to session. Each is one atomic step, as each holds
 the client's mutex from start to end. The session also keeps what the client itself forgets: every
 packet ever queued and everything that was sent, delivered and released.
 */
module MqttSession {
  import opened Bytes
  import opened MqttTypes
  import opened MqttPacket
  import opened MqttCodec
  import opened MqttConnect
  import opened MqttQueue
  import PacketId

  datatype Event =
    | Sent(serial: nat, bytes: seq<byte>)   // the whole of the serial-th packet went out, as these bytes
    | Delivered(publish: Response)          // the publish callback was called
    | Released(id: u16)                     // a PUBREL was processed

  /** Message `i` of the queue carries packet number `removed + i`. */
  datatype Trace = Trace(queue: seq<Msg>, removed: nat, packets: seq<seq<byte>>, log: seq<Event>)

  // ----- Steps of a trace -----------------------------------------------------------------------------

  function Append(t: Trace, m: Msg): Trace {
    t.(queue := t.queue + [m], packets := t.packets + [m.bytes])
  }

  function Clean(t: Trace): Trace {
    t.(queue := Cleaned(t.queue), removed := t.removed + Done(t.queue))
  }

  function Finish(t: Trace, k: nat): Trace
    requires k < |t.queue|
  {
    t.(queue := t.queue[k := t.queue[k].(state := Complete)])
  }

  function Note(t: Trace, e: Event): Trace {
    t.(log := t.log + [e])
  }

  /** The types __mqtt_send knows what to do with. */
  predicate Sendable(control: nat) {
    control == CONNECT || PUBLISH <= control <= SUBSCRIBE || control == UNSUBSCRIBE || control == PINGREQ
        || control == DISCONNECT
  }

  predicate Qos2(m: Msg) {
    m.control == PUBLISH && m.bytes != [] && QosOf(m.bytes[0]) == 2
  }

  /** A packet that may come again carries the DUP flag if it is a QoS 1 PUBLISH. */
  function Resent(control: nat, bytes: seq<byte>): (r: seq<byte>)
    requires bytes != []
    ensures |r| == |bytes|
  {
    if control == PUBLISH && QosOf(bytes[0]) == 1 then bytes[0 := WithDup(bytes[0])] else bytes
  }

  /** No answer is expected to these. */
  predicate OneShot(control: nat, bytes: seq<byte>)
    requires bytes != []
  {
    control == PUBACK || control == PUBCOMP || control == DISCONNECT || (control == PUBLISH && QosOf(bytes[0]) == 0)
  }

  /** A message after it went out. */
  function AfterSend(m: Msg, now: int): Msg
    requires m.bytes != []
  {
    m.(timeSent := now,
       state := if OneShot(m.control, m.bytes) then Complete else AwaitingAck,
       bytes := Resent(m.control, m.bytes))
  }

  function Transmit(t: Trace, i: nat, now: int): Trace
    requires i < |t.queue| && t.queue[i].bytes != []
  {
    var m := t.queue[i];
    t.(queue := t.queue[i := AfterSend(m, now)], log := t.log + [Sent(t.removed + i, m.bytes)])
  }

  // ----- The session ----------------------------------------------------------------------------------

  datatype Session = Session(
    trace: Trace,
    lfsr: bv16,
    error: Status,
    lastSend: int,
    keepAlive: nat,
    timeouts: nat,
    memSize: nat,
    headerSize: nat,
    responseTimeout: int
  )

  /** What mqtt_init leaves; the time of the last send is whatever the memory held. */
  function Init(memSize: nat, headerSize: nat, lastSend: int): Session {
    Session(Trace([], 0, [], []), 0, ConnectNotCalled, lastSend, 0, 0, memSize, headerSize, 30)
  }

  /**
   The queue fits its memory, and the memory is too small for a header for every id. Only messages the send
   half knows are queued, so its error for other types (MQTT_ERROR_MALFORMED_REQUEST) never comes up.
   */
  predicate Fits(s: Session) {
    && s.headerSize > 0 && s.memSize < PacketId.FULL * s.headerSize
    && Footprint(s.trace.queue, s.headerSize) <= s.memSize
    && forall i :: 0 <= i < |s.trace.queue| ==> s.trace.queue[i].bytes != [] && Sendable(s.trace.queue[i].control)
  }

  lemma ProductGrows(m: nat, n: nat, d: nat)
    requires m <= n
    ensures m * d <= n * d
  {}

  lemma {:induction false} FewMessages(s: Session)
    requires Fits(s)
    ensures |s.trace.queue| < PacketId.FULL
  {
    FootprintSplits(s.trace.queue, s.headerSize);
    if |s.trace.queue| >= PacketId.FULL { ProductGrows(PacketId.FULL, |s.trace.queue|, s.headerSize); }
  }

  lemma {:induction false} CleanFits(s: Session)
    requires Fits(s)
    ensures Fits(s.(trace := Clean(s.trace)))
  {
    RestSize(s.trace.queue, Done(s.trace.queue), s.headerSize);
  }

  lemma {:induction false} AppendFits(s: Session, m: Msg)
    requires Fits(s) && Sendable(m.control) && 0 < |m.bytes| <= Room(s.trace.queue, s.memSize, s.headerSize)
    ensures Fits(s.(trace := Append(s.trace, m)))
  {
    assert (s.trace.queue + [m])[..|s.trace.queue|] == s.trace.queue;
  }

  /** What the memory of a new header held before. */
  datatype Stale = Stale(id: u16, timeSent: int)

  /** The id the caller stores in the header, if it does. */
  function IdOf(req: Request, stale: Stale): u16 {
    match req
    case ReqPublish(_, id, _, _) => id
    case ReqPubxxx(_, id) => id
    case ReqSubscribe(id, _, _) => id
    case ReqUnsubscribe(id, _) => id
    case _ => stale.id
  }

  function NewMessage(req: Request, bytes: seq<byte>, stale: Stale): Msg {
    Msg(bytes, req.Control(), IdOf(req, stale), Unsent, stale.timeSent)
  }

  function RoomIn(s: Session): nat {
    Room(s.trace.queue, s.memSize, s.headerSize)
  }

  function Cleaning(s: Session): (r: Session)
    requires Fits(s)
    ensures Fits(r)
  {
    CleanFits(s);
    s.(trace := Clean(s.trace))
  }

  function Queueing(s: Session, req: Request, bytes: seq<byte>, stale: Stale): (r: Session)
    requires Fits(s) && Sendable(req.Control()) && 0 < |bytes| <= RoomIn(s)
    ensures Fits(r)
  {
    var m := NewMessage(req, bytes, stale);
    AppendFits(s, m);
    s.(trace := Append(s.trace, m))
  }

  datatype Attempt = Accepted(session: Session) | OutOfRoom | Rejected(error: Status)

  /** pack_call and, when it succeeds, mqtt_mq_register. */
  function TryOnce(s: Session, req: Request, stale: Stale): (r: Attempt)
    requires Fits(s) && Sendable(req.Control())
    ensures r.Accepted? ==> Fits(r.session)
  {
    match req.Pack(RoomIn(s))
    case Refused(e) => Rejected(e)
    case NoRoom => OutOfRoom
    case Packed(bytes) =>
      req.PackFits(RoomIn(s));
      Accepted(Queueing(s, req, bytes, stale))
  }

  /** MQTT_CLIENT_TRY_PACK, with the fields the caller then sets. */
  function TryPack(s: Session, req: Request, stale: Stale): (r: (Session, Status))
    requires Fits(s) && Sendable(req.Control())
    ensures Fits(r.0)
  {
    if s.error != Ok then (s, s.error)
    else match TryOnce(s, req, stale)
      case Rejected(e) => (s.(error := e), e)
      case Accepted(s') => (s', Ok)
      case OutOfRoom =>
        var c := Cleaning(s);
        match TryOnce(c, req, stale)
        case Rejected(e) => (c.(error := e), e)
        case OutOfRoom => (c.(error := SendBufferIsFull), SendBufferIsFull)
        case Accepted(s') => (s', Ok)
  }

  function Used(q: seq<Msg>): seq<bv16> {
    seq(|q|, i requires 0 <= i < |q| => q[i].id as bv16)
  }

  /** __mqtt_next_pid: the register ends up at the new id. */
  function Draw(s: Session): (r: Session)
    requires Fits(s)
    ensures Fits(r)
  {
    FewMessages(s);
    s.(lfsr := PacketId.NextId(Used(s.trace.queue), s.lfsr))
  }

  // ----- The API calls --------------------------------------------------------------------------------

  function Connect(s: Session, connection: Connection, stale: Stale): (r: (Session, Status))
    requires Fits(s)
    ensures Fits(r.0)
  {
    TryPack(s.(keepAlive := connection.keepAlive, error := if s.error == ConnectNotCalled then Ok else s.error),
        ReqConnect(connection), stale)
  }

  function Publish(s: Session, topic: seq<byte>, payload: seq<byte>, flags: byte, stale: Stale): (r: (Session, Status))
    requires Fits(s)
    ensures Fits(r.0)
  {
    var d := Draw(s);
    TryPack(d, ReqPublish(topic, d.lfsr as u16, payload, flags), stale)
  }

  function Subscribe(s: Session, topic: seq<byte>, maxQos: byte, stale: Stale): (r: (Session, Status))
    requires Fits(s)
    ensures Fits(r.0)
  {
    var d := Draw(s);
    TryPack(d, ReqSubscribe(d.lfsr as u16, topic, maxQos), stale)
  }

  function Unsubscribe(s: Session, topic: seq<byte>, stale: Stale): (r: (Session, Status))
    requires Fits(s)
    ensures Fits(r.0)
  {
    var d := Draw(s);
    TryPack(d, ReqUnsubscribe(d.lfsr as u16, topic), stale)
  }

  // ----- __mqtt_send ----------------------------------------------------------------------------------

  /** Readings of the clock, and what sendall says about each message: Ok when all of it was taken. */
  datatype Env = Env(clock: nat -> int, net: nat -> SendResult)

  /** A message the QoS 2 discipline counts as in flight. */
  predicate Held(m: Msg) {
    Qos2(m) && m.state != Complete
  }

  /** The answer to message `i` has not come in time. */
  predicate TimedOut(s: Session, i: nat, env: Env)
    requires i < |s.trace.queue|
  {
    var m := s.trace.queue[i];
    m.state == AwaitingAck && env.clock(2 * i) > m.timeSent + s.responseTimeout
  }

  function Transmitting(s: Session, i: nat, now: int): (r: Session)
    requires Fits(s) && i < |s.trace.queue|
    ensures Fits(r) && |r.trace.queue| == |s.trace.queue|
  {
    var q, m := s.trace.queue, AfterSend(s.trace.queue[i], now);
    FootprintUpdate(q, i, m, s.headerSize);
    s.(lastSend := now, trace := Transmit(s.trace, i, now))
  }

  /** Message `i` of the loop; `inflight` says whether a QoS 2 PUBLISH before it is in flight. */
  function SendOne(s: Session, i: nat, inflight: bool, env: Env): (r: (Session, Status))
    requires Fits(s) && i < |s.trace.queue|
    ensures Fits(r.0) && |r.0.trace.queue| == |s.trace.queue|
  {
    var m := s.trace.queue[i];
    var s1 := if TimedOut(s, i, env) then s.(timeouts := s.timeouts + 1) else s;
    if !(m.state == Unsent || TimedOut(s, i, env)) || (Held(m) && inflight) then (s1, Ok)
    else if env.net(i) != Ok then (s1.(error := env.net(i)), env.net(i))
    else (Transmitting(s1, i, env.clock(2 * i + 1)), Ok)
  }

  /** The loop over the queue, from message `i` on. */
  function SendFrom(s: Session, i: nat, inflight: bool, env: Env): (r: (Session, Status))
    requires Fits(s) && i <= |s.trace.queue|
    ensures Fits(r.0) && |r.0.trace.queue| == |s.trace.queue|
    decreases |s.trace.queue| - i
  {
    if i == |s.trace.queue| then (s, Ok)
    else
      var (s1, rv) := SendOne(s, i, inflight, env);
      if rv != Ok then (s1, rv) else SendFrom(s1, i + 1, inflight || Held(s.trace.queue[i]), env)
  }

  /** __mqtt_send: the queue, then a PINGREQ when the keep-alive time is nearly over. */
  function Send(s: Session, env: Env, stale: Stale): (r: (Session, Status))
    requires Fits(s)
    ensures Fits(r.0)
  {
    if s.error != Ok && s.error != SendBufferIsFull then (s, s.error)
    else
      var (s1, rv) := SendFrom(s, 0, false, env);
      if rv != Ok then (s1, rv)
      else if env.clock(2 * |s1.trace.queue|) > s1.lastSend + s1.keepAlive * 3 / 4 then
        var (s2, rv2) := TryPack(s1, ReqPing, stale);
        if rv2 != Ok then (s2.(error := rv2), rv2) else (s2, Ok)
      else (s1, Ok)
  }

  // ----- The switch of __mqtt_recv --------------------------------------------------------------------

  function Failed(s: Session, e: Status): (r: (Session, Status))
  {
    (s.(error := e), e)
  }

  function Finishing(s: Session, k: nat): (r: Session)
    requires Fits(s) && k < |s.trace.queue|
    ensures Fits(r)
  {
    var q, m := s.trace.queue, s.trace.queue[k].(state := Complete);
    FootprintUpdate(q, k, m, s.headerSize);
    s.(trace := Finish(s.trace, k))
  }

  function Noting(s: Session, e: Event): (r: Session)
    requires Fits(s)
    ensures Fits(r)
  {
    s.(trace := Note(s.trace, e))
  }

  /** Is there a message of this type and id? */
  predicate Queued(s: Session, control: nat, id: int) {
    Find(s.trace.queue, control, id) < |s.trace.queue|
  }

  /** Release the message an acknowledgement is for. */
  function Release(s: Session, control: nat, id: int): (r: (Session, Status))
    requires Fits(s)
    ensures Fits(r.0)
  {
    if Queued(s, control, id) then (Finishing(s, Find(s.trace.queue, control, id)), Ok) else Failed(s, AckOfUnknown)
  }

  function HandleConnack(s: Session, code: byte): (r: (Session, Status))
    requires Fits(s)
    ensures Fits(r.0)
  {
    var (s1, rv) := Release(s, CONNECT, ANY);
    if rv != Ok || code == 0 then (s1, rv)
    else Failed(s1, if code == 2 then ConnectClientIdRefused else ConnectionRefused)
  }

  function HandlePublish(s: Session, p: Response, stale: Stale): (r: (Session, Status))
    requires Fits(s) && p.RPublish?
    ensures Fits(r.0)
  {
    if p.qos == 2 && Queued(s, PUBREC, p.id) then (s, Ok)
    else
      var (s1, rv) := if p.qos == 1 then TryPack(s, ReqPubxxx(PUBACK, p.id), stale)
                      else if p.qos == 2 then TryPack(s, ReqPubxxx(PUBREC, p.id), stale)
                      else (s, Ok);
      if rv != Ok then Failed(s1, rv) else (Noting(s1, Delivered(p)), Ok)
  }

  function HandlePubrec(s: Session, id: u16, stale: Stale): (r: (Session, Status))
    requires Fits(s)
    ensures Fits(r.0)
  {
    if Queued(s, PUBREL, id) then (s, Ok)
    else
      var (s1, rv) := Release(s, PUBLISH, id);
      if rv != Ok then (s1, rv)
      else
        var (s2, rv2) := TryPack(s1, ReqPubxxx(PUBREL, id), stale);
        if rv2 != Ok then Failed(s2, rv2) else (s2, Ok)
  }

  function HandlePubrel(s: Session, id: u16, stale: Stale): (r: (Session, Status))
    requires Fits(s)
    ensures Fits(r.0)
  {
    if !Queued(s, PUBREC, id) then Failed(s, AckOfUnknown)
    else
      var s1 := Finishing(Noting(s, Released(id)), Find(s.trace.queue, PUBREC, id));
      var (s2, rv2) := TryPack(s1, ReqPubxxx(PUBCOMP, id), stale);
      if rv2 != Ok then Failed(s2, rv2) else (s2, Ok)
  }

  function HandleSuback(s: Session, id: u16, codes: seq<byte>): (r: (Session, Status))
    requires Fits(s)
    ensures Fits(r.0)
  {
    var (s1, rv) := Release(s, SUBSCRIBE, id);
    if rv == Ok && codes != [] && codes[0] == 0x80 then Failed(s1, SubscribeFailed) else (s1, rv)
  }

  /** What the client does with a response, and what the receive loop sees of it. */
  function Handle(s: Session, r: Response, stale: Stale): (res: (Session, Status))
    requires Fits(s)
    ensures Fits(res.0)
  {
    match r
    case RConnack(_, code) => HandleConnack(s, code)
    case RPublish(_, _, _, _, _, _) => HandlePublish(s, r, stale)
    case RPuback(id) => Release(s, PUBLISH, id)
    case RPubrec(id) => HandlePubrec(s, id, stale)
    case RPubrel(id) => HandlePubrel(s, id, stale)
    case RPubcomp(id) => Release(s, PUBREL, id)
    case RSuback(id, codes) => HandleSuback(s, id, codes)
    case RUnsuback(id) => Release(s, UNSUBSCRIBE, id)
    case RPingresp => Release(s, PINGREQ, ANY)
  }

  // ----- Runs -----------------------------------------------------------------------------------------

  datatype Call =
    | CallConnect(connection: Connection, stale: Stale)
    | CallPublish(topic: seq<byte>, payload: seq<byte>, flags: byte, stale: Stale)
    | CallSubscribe(topic: seq<byte>, maxQos: byte, stale: Stale)
    | CallUnsubscribe(topic: seq<byte>, stale: Stale)
    | CallPing(stale: Stale)
    | CallDisconnect(stale: Stale)
    | CallSend(env: Env, stale: Stale)
    | Response(response: Response, stale: Stale)
    | Failure(error: Fault)   // a socket error, a malformed packet or a full receive buffer

  function Step(s: Session, c: Call): (r: (Session, Status))
    requires Fits(s)
    ensures Fits(r.0)
  {
    match c
    case CallConnect(connection, stale) => Connect(s, connection, stale)
    case CallPublish(topic, payload, flags, stale) => Publish(s, topic, payload, flags, stale)
    case CallSubscribe(topic, maxQos, stale) => Subscribe(s, topic, maxQos, stale)
    case CallUnsubscribe(topic, stale) => Unsubscribe(s, topic, stale)
    case CallPing(stale) => TryPack(s, ReqPing, stale)
    case CallDisconnect(stale) => TryPack(s, ReqDisconnect, stale)
    case CallSend(env, stale) => Send(s, env, stale)
    case Response(r, stale) => Handle(s, r, stale)
    case Failure(e) => Failed(s, e)
  }

  /** The session after a run of calls; the last call comes last. */
  function Run(s: Session, calls: seq<Call>): (r: Session)
    requires Fits(s)
    ensures Fits(r)
  {
    if calls == [] then s else Step(Run(s, calls[..|calls| - 1]), calls[|calls| - 1]).0
  }
}
