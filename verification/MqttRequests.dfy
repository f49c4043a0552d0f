/**
 What becomes of a request (libs/mqtt.c, MQTT_CLIENT_TRY_PACK and the calls that use it), by the sizes of the packet, of
 the messages in the queue and of the block of memory: whether it is queued, and which error it ends in otherwise.
 */
module MqttRequests {
  import opened Bytes
  import opened MqttTypes
  import opened MqttPacket
  import opened MqttCodec
  import opened MqttConnect
  import opened MqttQueue
  import opened MqttSession
  import opened MqttRuns
  import opened MqttWire
  import opened Wrappers

  // ----- Requests by their sizes --------------------------------------------------------------------------

  /** The requests of the client: of the acknowledgements only the four there are. */
  predicate Proper(req: Request) {
    req.ReqPubxxx? ==> 4 <= req.control <= 7
  }

  /** The guards in front of packing. */
  function Objection(req: Request): Status {
    match req
    case ReqConnect(c) =>
      if c.clientId == [] && c.flags / 2 % 2 == 0 then CleanSessionIsRequired
      else if c.will.Some? && c.will.value.message.None? then ConnectNullWillMessage
      else if c.will.Some? && c.flags / 8 % 4 == 3 then ConnectForbiddenWillQos
      else Ok
    case ReqPublish(_, _, _, flags) => if flags / 2 % 4 == 3 then PublishForbiddenQos else Ok
    case _ => Ok
  }

  function StrSize(o: Option<seq<byte>>): nat {
    if o.Some? then 2 + |o.value| else 0
  }

  /** The remaining length of the packet. */
  function Remaining(req: Request): nat {
    match req
    case ReqConnect(c) =>
      12 + |c.clientId| + StrSize(c.user) + StrSize(c.password)
      + (if c.will.Some? then 2 + |c.will.value.topic| + 2 + |WillMessage(c)| else 0)
    case ReqPublish(topic, _, payload, flags) => 2 + |topic| + (if flags / 2 % 4 == 0 then 0 else 2) + |payload|
    case ReqPubxxx(_, _) => 2
    case ReqSubscribe(_, topic, _) => 2 + 2 + |topic| + 1
    case ReqUnsubscribe(_, topic) => 2 + 2 + |topic|
    case ReqPing => 0
    case ReqDisconnect => 0
  }

  /** The size of a packet with this remaining length. */
  function WireSize(remaining: nat): nat {
    1 + (if remaining < 128 then 1 else if remaining < 16384 then 2 else if remaining < 2097152 then 3 else 4)
        + remaining
  }

  lemma PositiveSize(remaining: nat)
    ensures WireSize(remaining) > 0
  {}

  lemma HeaderSize(control: nibble, flags: nibble, remaining: nat)
    requires remaining < 268435456
    ensures |HeaderBytes(control, flags, remaining)| + remaining == WireSize(remaining)
  {
    hide Varint;
    LengthBytes(remaining);
  }

  /** What a pack function comes to in `room` bytes. */
  predicate ComesTo(p: Packing, objection: Status, remaining: nat, room: nat) {
    if objection != Ok then p == Packing.Refused(objection)
    else if room == 0 then p == NoRoom
    else if remaining >= 268435456 then p == Packing.Refused(InvalidRemainingLength)
    else if room < WireSize(remaining) then p == NoRoom
    else p.Packed?
  }

  lemma PackWithComesTo(control: nibble, flags: nibble, remaining: nat, body: seq<byte>, room: nat)
    requires RuleViolation(control, flags) == Ok
    ensures ComesTo(PackWith(control, flags, remaining, body, room), Ok, remaining, room)
  {
    hide HeaderBytes, WireSize;
    if remaining < 268435456 { HeaderSize(control, flags, remaining); }
  }

  lemma PackComesTo(req: Request, room: nat)
    requires Proper(req)
    ensures ComesTo(req.Pack(room), Objection(req), Remaining(req), room)
  {
    hide PackWith, PublishBody, ConnectBody, HeaderBytes, WireSize;
    match req
    case ReqConnect(c) => PackWithComesTo(CONNECT, 0, ConnectRemaining(c), ConnectBody(c), room);
    case ReqPublish(topic, id, payload, flags) =>
      PackWithComesTo(PUBLISH, PublishFlags(flags), PublishRemaining(topic, payload, flags),
                      PublishBody(topic, id, payload, flags), room);
    case ReqPubxxx(control, id) => PackWithComesTo(control, if control == PUBREL then 2 else 0, 2, U16(id), room);
    case ReqSubscribe(id, topic, maxQos) =>
      PackWithComesTo(SUBSCRIBE, 2, 2 + (2 + |topic|) + 1, U16(id) + PackStr(topic) + [maxQos], room);
    case ReqUnsubscribe(id, topic) =>
      PackWithComesTo(UNSUBSCRIBE, 2, 2 + (2 + |topic|), U16(id) + PackStr(topic), room);
    case ReqPing => PackWithComesTo(PINGREQ, 0, 0, [], room);
    case ReqDisconnect => PackWithComesTo(DISCONNECT, 0, 0, [], room);
  }

  /** A request that can be packed, given the room. */
  predicate WellFormed(req: Request) {
    Proper(req) && Objection(req) == Ok && Remaining(req) < 268435456
  }

  /** The packet of a request; it is the same in any room that is large enough. */
  function PacketOf(req: Request): seq<byte>
    requires WellFormed(req)
  {
    PackComesTo(req, WireSize(Remaining(req)));
    req.Pack(WireSize(Remaining(req))).bytes
  }

  lemma PacketInRoom(req: Request, room: nat)
    requires WellFormed(req) && req.Pack(room).Packed?
    ensures req.Pack(room).bytes == PacketOf(req)
  {
    hide PublishBody, ConnectBody, HeaderBytes, WireSize, ConnectRemaining, Remaining;
    PackComesTo(req, WireSize(Remaining(req)));
    PositiveSize(Remaining(req));
    match req
    case ReqConnect(c) =>
      ConnectBytes(c, room);
      ConnectBytes(c, WireSize(Remaining(req)));
    case ReqPublish(_, _, _, _) =>
    case ReqPubxxx(_, _) =>
    case ReqSubscribe(_, _, _) =>
    case ReqUnsubscribe(_, _) =>
    case ReqPing =>
    case ReqDisconnect =>
  }

  lemma ConnectBytes(c: Connection, room: nat)
    requires PackConnect(c, room).Packed?
    ensures PackConnect(c, room).bytes == HeaderBytes(CONNECT, 0, ConnectRemaining(c)) + ConnectBody(c)
  {
    hide ConnectBody, ConnectRemaining, HeaderBytes;
  }

  lemma ProperIsSent(req: Request)
    requires Proper(req)
    ensures Sendable(req.Control())
  {}

  // ----- Queueing -----------------------------------------------------------------------------------------

  /** `n` bytes and one more header have place in the block beside these messages. */
  predicate HasPlace(q: seq<Msg>, n: nat, memSize: nat, headerSize: nat) {
    TotalSize(q) + |q| * headerSize + n + headerSize <= memSize
  }

  lemma RoomIff(s: Session, n: nat)
    requires Fits(s) && n > 0
    ensures RoomIn(s) >= n <==> HasPlace(s.trace.queue, n, s.memSize, s.headerSize)
  {
    FootprintSplits(s.trace.queue, s.headerSize);
  }

  /** `k` messages at the head of the queue are complete, and no more. */
  predicate CompleteHead(q: seq<Msg>, k: nat) {
    k <= |q| && (forall i :: 0 <= i < k ==> q[i].state == Complete) && (k < |q| ==> q[k].state != Complete)
  }

  lemma HeadIsDone(q: seq<Msg>, k: nat)
    requires CompleteHead(q, k)
    ensures k == Done(q)
  {
    DoneIsLongest(q);
  }

  /** The session without the first `k` messages. */
  function Without(s: Session, k: nat): Session
    requires k <= |s.trace.queue|
  {
    s.(trace := s.trace.(queue := s.trace.queue[k..], removed := s.trace.removed + k))
  }

  /** The packet type, as section 2.2.1 numbers them. */
  function TypeOf(req: Request): nat {
    match req
    case ReqConnect(_) => 1
    case ReqPublish(_, _, _, _) => 3
    case ReqPubxxx(control, _) => control
    case ReqSubscribe(_, _, _) => 8
    case ReqUnsubscribe(_, _) => 10
    case ReqPing => 12
    case ReqDisconnect => 14
  }

  /** The id in the header of the message; where there is none in the packet, the header keeps what it held. */
  function HeaderId(req: Request, stale: Stale): u16 {
    match req
    case ReqPublish(_, id, _, _) => id
    case ReqPubxxx(_, id) => id
    case ReqSubscribe(id, _, _) => id
    case ReqUnsubscribe(id, _) => id
    case ReqConnect(_) => stale.id
    case ReqPing => stale.id
    case ReqDisconnect => stale.id
  }

  /** The session with the packet of `req` as the last message, not sent yet. */
  function With(s: Session, req: Request, stale: Stale): Session
    requires WellFormed(req)
  {
    var packet := PacketOf(req);
    s.(trace := s.trace.(
         queue := s.trace.queue + [Msg(packet, TypeOf(req), HeaderId(req, stale), Unsent, stale.timeSent)],
         packets := s.trace.packets + [packet]))
  }

  /**
   What a request does. In error it does nothing. One that cannot be packed is an error at once, except that its length
   is judged only where there is any room. Else it is queued if there is place beside the messages in the queue, or,
   with the complete messages at the head dropped, beside the others; and if not, the send buffer is full.
   */
  predicate Requested(s: Session, req: Request, stale: Stale, k: nat, s': Session, rv: Status)
    requires k <= |s.trace.queue| && Proper(req)
  {
    var q, size := s.trace.queue, WireSize(Remaining(req));
    var rest := q[k..];
    if s.error != Ok then s' == s && rv == s.error
    else if Objection(req) != Ok then s' == s.(error := Objection(req)) && rv == Objection(req)
    else if Remaining(req) >= 268435456 then
      if HasPlace(q, 1, s.memSize, s.headerSize) then
        s' == s.(error := InvalidRemainingLength) && rv == InvalidRemainingLength
      else if HasPlace(rest, 1, s.memSize, s.headerSize) then
        s' == Without(s, k).(error := InvalidRemainingLength) && rv == InvalidRemainingLength
      else s' == Without(s, k).(error := SendBufferIsFull) && rv == SendBufferIsFull
    else if HasPlace(q, size, s.memSize, s.headerSize) then s' == With(s, req, stale) && rv == Ok
    else if HasPlace(rest, size, s.memSize, s.headerSize) then s' == With(Without(s, k), req, stale) && rv == Ok
    else s' == Without(s, k).(error := SendBufferIsFull) && rv == SendBufferIsFull
  }

  /** One attempt. */
  lemma AttemptComesTo(s: Session, req: Request, stale: Stale)
    requires Fits(s) && Sendable(req.Control()) && Proper(req)
    ensures var q, r := s.trace.queue, TryOnce(s, req, stale);
            if Objection(req) != Ok then r == Rejected(Objection(req))
            else if Remaining(req) >= 268435456 then
              r == if HasPlace(q, 1, s.memSize, s.headerSize) then Rejected(InvalidRemainingLength) else OutOfRoom
            else if HasPlace(q, WireSize(Remaining(req)), s.memSize, s.headerSize) then
              r == Accepted(With(s, req, stale))
            else r == OutOfRoom
  {
    hide Request.Pack, PacketOf, Footprint, HasPlace, Remaining, Objection, WireSize, Proper;
    PackComesTo(req, RoomIn(s));
    RoomIff(s, 1);
    PositiveSize(Remaining(req));
    RoomIff(s, WireSize(Remaining(req)));
    if req.Pack(RoomIn(s)).Packed? && WellFormed(req) { PacketInRoom(req, RoomIn(s)); }
  }

  lemma CleaningDrops(s: Session, k: nat)
    requires Fits(s) && CompleteHead(s.trace.queue, k)
    ensures Cleaning(s) == Without(s, k)
  {
    hide Footprint;
    HeadIsDone(s.trace.queue, k);
  }

  /** MQTT_CLIENT_TRY_PACK */
  lemma RequestDoes(s: Session, req: Request, stale: Stale, k: nat)
    requires Fits(s) && Proper(req) && CompleteHead(s.trace.queue, k)
    ensures Sendable(req.Control())
    ensures var (s', rv) := TryPack(s, req, stale); Requested(s, req, stale, k, s', rv)
  {
    hide TryOnce, With, HasPlace, Remaining, Objection, WireSize, Footprint, CompleteHead;
    ProperIsSent(req);
    AttemptComesTo(s, req, stale);
    CleaningDrops(s, k);
    AttemptComesTo(Cleaning(s), req, stale);
  }

  /**
   A request is accepted exactly if the client is not in error, the request is well-formed, and its packet and one more
   header have place beside the messages that are left when the complete ones at the head are dropped.
   */
  lemma AcceptedIff(s: Session, req: Request, stale: Stale, k: nat)
    requires Fits(s) && Proper(req) && CompleteHead(s.trace.queue, k)
    ensures Sendable(req.Control())
    ensures TryPack(s, req, stale).1 == Ok
            <==> s.error == Ok && WellFormed(req)
                 && HasPlace(s.trace.queue[k..], WireSize(Remaining(req)), s.memSize, s.headerSize)
  {
    hide TryPack, With, Remaining, Objection, WireSize, Footprint, Fits, CompleteHead, HasPlace;
    RequestDoes(s, req, stale, k);
    var size := WireSize(Remaining(req));
    if HasPlace(s.trace.queue, size, s.memSize, s.headerSize) { SurvivorsAreSmaller(s, size, k); }
  }

  lemma SurvivorsAreSmaller(s: Session, n: nat, k: nat)
    requires CompleteHead(s.trace.queue, k) && HasPlace(s.trace.queue, n, s.memSize, s.headerSize)
    ensures HasPlace(s.trace.queue[k..], n, s.memSize, s.headerSize)
  {
    var q := s.trace.queue;
    assert q[..k] + q[k..] == q;
    TotalSizeAppend(q[..k], q[k..]);
    ProductGrows(|q| - k, |q|, s.headerSize);
  }

  /** `Requested`, with the number of complete messages at the head there is. */
  ghost predicate Yields(s: Session, req: Request, stale: Stale, s': Session, rv: Status)
    requires Proper(req)
  {
    exists k: nat :: CompleteHead(s.trace.queue, k) && Requested(s, req, stale, k, s', rv)
  }

  lemma RequestYields(s: Session, req: Request, stale: Stale)
    requires Fits(s) && Proper(req)
    ensures Sendable(req.Control())
    ensures var (s', rv) := TryPack(s, req, stale); Yields(s, req, stale, s', rv)
  {
    hide Requested, Footprint, TryPack;
    ProperIsSent(req);
    DoneIsLongest(s.trace.queue);
    assert CompleteHead(s.trace.queue, Done(s.trace.queue));
    RequestDoes(s, req, stale, Done(s.trace.queue));
  }

  // ----- The calls ----------------------------------------------------------------------------------------

  /** An id that is not 0 and that no queued message carries. */
  predicate FreshId(s: Session, id: u16) {
    id != 0 && forall i :: 0 <= i < |s.trace.queue| ==> s.trace.queue[i].id != id
  }

  /** The request a call of the API makes; one that carries an id has the one that was drawn. */
  function RequestOf(c: Call, id: u16): (r: Option<Request>)
    ensures r.Some? ==> Proper(r.value)
  {
    match c
    case CallConnect(connection, _) => Some(ReqConnect(connection))
    case CallPublish(topic, payload, flags, _) => Some(ReqPublish(topic, id, payload, flags))
    case CallSubscribe(topic, maxQos, _) => Some(ReqSubscribe(id, topic, maxQos))
    case CallUnsubscribe(topic, _) => Some(ReqUnsubscribe(id, topic))
    case CallPing(_) => Some(ReqPing)
    case CallDisconnect(_) => Some(ReqDisconnect)
    case _ => None
  }

  predicate Draws(c: Call) {
    c.CallPublish? || c.CallSubscribe? || c.CallUnsubscribe?
  }

  function IdIn(s: Session): u16 {
    s.lfsr as u16
  }

  /** The session in which the request is made: connecting sets the keep-alive time and ends the wait for it. */
  function Prepared(s: Session, c: Call, lfsr: bv16): Session {
    if c.CallConnect? then
      s.(keepAlive := c.connection.keepAlive, error := if s.error == ConnectNotCalled then Ok else s.error)
    else if Draws(c) then s.(lfsr := lfsr)
    else s
  }

  /** What a call of the API does; those that draw an id use the register that the call leaves. */
  ghost predicate CallYields(s: Session, c: Call, s': Session, rv: Status) {
    var req := RequestOf(c, IdIn(s'));
    && (Draws(c) ==> FreshId(s, IdIn(s')))
    && (req.Some? ==> Yields(Prepared(s, c, s'.lfsr), req.value, c.stale, s', rv))
  }

  lemma TryPackKeepsRegister(s: Session, req: Request, stale: Stale)
    requires Fits(s) && Sendable(req.Control())
    ensures TryPack(s, req, stale).0.lfsr == s.lfsr
  {
    hide Request.Pack, Footprint;
  }

  lemma DrawYields(s: Session, req: Request, stale: Stale)
    requires Fits(s) && Proper(req)
    ensures Sendable(req.Control())
    ensures var (s', rv) := TryPack(Draw(s), req, stale);
            s'.lfsr == Draw(s).lfsr && FreshId(s, IdIn(s'))
            && Yields(s.(lfsr := s'.lfsr), req, stale, s', rv)
  {
    hide Yields, TryPack, Draw, Footprint;
    ProperIsSent(req);
    DrawnIdIsFresh(s);
    WordOfId(Draw(s).lfsr);
    DrawOnlyDraws(s);
    RequestYields(Draw(s), req, stale);
    TryPackKeepsRegister(Draw(s), req, stale);
  }

  lemma DrawOnlyDraws(s: Session)
    requires Fits(s)
    ensures Draw(s) == s.(lfsr := Draw(s).lfsr)
  {}

  lemma ConnectYields(s: Session, c: Connection, stale: Stale)
    requires Fits(s)
    ensures var (s', rv) := Connect(s, c, stale); CallYields(s, CallConnect(c, stale), s', rv)
  {
    hide Yields, TryPack, Footprint;
    RequestYields(s.(keepAlive := c.keepAlive, error := if s.error == ConnectNotCalled then Ok else s.error),
                  ReqConnect(c), stale);
  }

  lemma PublishYields(s: Session, topic: seq<byte>, payload: seq<byte>, flags: byte, stale: Stale)
    requires Fits(s)
    ensures var (s', rv) := Publish(s, topic, payload, flags, stale);
            CallYields(s, CallPublish(topic, payload, flags, stale), s', rv)
  {
    hide Yields, TryPack, Draw, Footprint, FreshId;
    DrawYields(s, ReqPublish(topic, IdIn(Draw(s)), payload, flags), stale);
  }

  lemma SubscribeYields(s: Session, topic: seq<byte>, maxQos: byte, stale: Stale)
    requires Fits(s)
    ensures var (s', rv) := Subscribe(s, topic, maxQos, stale);
            CallYields(s, CallSubscribe(topic, maxQos, stale), s', rv)
  {
    hide Yields, TryPack, Draw, Footprint, FreshId;
    DrawYields(s, ReqSubscribe(IdIn(Draw(s)), topic, maxQos), stale);
  }

  lemma UnsubscribeYields(s: Session, topic: seq<byte>, stale: Stale)
    requires Fits(s)
    ensures var (s', rv) := Unsubscribe(s, topic, stale); CallYields(s, CallUnsubscribe(topic, stale), s', rv)
  {
    hide Yields, TryPack, Draw, Footprint, FreshId;
    DrawYields(s, ReqUnsubscribe(IdIn(Draw(s)), topic), stale);
  }

  lemma BareYields(s: Session, stale: Stale)
    requires Fits(s)
    ensures var (s', rv) := TryPack(s, ReqPing, stale); CallYields(s, CallPing(stale), s', rv)
    ensures var (s', rv) := TryPack(s, ReqDisconnect, stale); CallYields(s, CallDisconnect(stale), s', rv)
  {
    hide Yields, TryPack, Footprint;
    RequestYields(s, ReqPing, stale);
    RequestYields(s, ReqDisconnect, stale);
  }

  /** mqtt_connect, mqtt_publish, mqtt_subscribe, mqtt_unsubscribe, mqtt_ping and mqtt_disconnect */
  lemma CallDoes(s: Session, c: Call)
    requires Fits(s) && RequestOf(c, 0).Some?
    ensures var (s', rv) := Step(s, c); CallYields(s, c, s', rv)
  {
    hide CallYields, Connect, Publish, Subscribe, Unsubscribe, TryPack, Send, Handle, Footprint;
    match c
    case CallConnect(connection, stale) => ConnectYields(s, connection, stale);
    case CallPublish(topic, payload, flags, stale) => PublishYields(s, topic, payload, flags, stale);
    case CallSubscribe(topic, maxQos, stale) => SubscribeYields(s, topic, maxQos, stale);
    case CallUnsubscribe(topic, stale) => UnsubscribeYields(s, topic, stale);
    case CallPing(stale) => BareYields(s, stale);
    case CallDisconnect(stale) => BareYields(s, stale);
  }

  // ----- The packets of PUBLISH ---------------------------------------------------------------------------

  /** The packet mqtt_publish queues carries a fresh id and reads back as the message it was given. */
  lemma PublishedAsAsked(s: Session, topic: seq<byte>, payload: seq<byte>, flags: byte, stale: Stale, rest: seq<byte>)
    requires Fits(s) && Publish(s, topic, payload, flags, stale).1 == Ok
    requires |topic| < 65536 && PublishRemaining(topic, payload, flags) >= 4
    ensures var s' := Publish(s, topic, payload, flags, stale).0;
            && FreshId(s, IdIn(s')) && s'.trace.queue != []
            && var m := s'.trace.queue[|s'.trace.queue| - 1];
               && m.control == 3 && m.id == IdIn(s') && m.state == Unsent
               && Unpack(m.bytes + rest)
                  == Packet(|m.bytes|, |m.bytes|, PublishAsRead(topic, IdIn(s'), payload, flags))
  {
    hide Publish, PacketOf, Unpack, PublishAsRead, HasPlace, Footprint, Objection, Remaining, Request.Pack, FreshId,
         PublishRemaining;
    var s' := Publish(s, topic, payload, flags, stale).0;
    PublishYields(s, topic, payload, flags, stale);
    var req := ReqPublish(topic, IdIn(s'), payload, flags);
    LastIsPacket(Prepared(s, CallPublish(topic, payload, flags, stale), s'.lfsr), req, stale, s');
    PublishPacketReads(topic, IdIn(s'), payload, flags, rest);
  }

  lemma PublishPacketReads(topic: seq<byte>, id: u16, payload: seq<byte>, flags: byte, rest: seq<byte>)
    requires WellFormed(ReqPublish(topic, id, payload, flags))
    requires |topic| < 65536 && PublishRemaining(topic, payload, flags) >= 4
    ensures var packet := PacketOf(ReqPublish(topic, id, payload, flags));
            Unpack(packet + rest) == Packet(|packet|, |packet|, PublishAsRead(topic, id, payload, flags))
  {
    hide Unpack, PublishAsRead, PackWith, PublishRemaining, PublishBody;
    var req := ReqPublish(topic, id, payload, flags);
    PackComesTo(req, WireSize(Remaining(req)));
    PositiveSize(Remaining(req));
    PublishRoundTrip(topic, id, payload, flags, WireSize(Remaining(req)), rest);
  }

  // ----- The packets of SUBSCRIBE and UNSUBSCRIBE ---------------------------------------------------------

  /**
   A call that was accepted: its packet is the last one of the queue, not sent yet, and a broker reads from it what the
   call asked for, if that can be said.
   */
  lemma SubscribedAsAsked(s: Session, topic: seq<byte>, maxQos: byte, stale: Stale, rest: seq<byte>)
    requires Fits(s) && Subscribe(s, topic, maxQos, stale).1 == Ok
    requires |topic| < 65536 && Filter(topic) && maxQos <= 2
    ensures var s' := Subscribe(s, topic, maxQos, stale).0;
            && FreshId(s, IdIn(s')) && s'.trace.queue != []
            && var m := s'.trace.queue[|s'.trace.queue| - 1];
               && m.control == 8 && m.id == IdIn(s') && m.state == Unsent
               && ReadSubscribe(m.bytes + rest) == Some(Subscription(IdIn(s'), topic, maxQos))
  {
    hide Subscribe, PacketOf, ReadSubscribe, Filter, HasPlace, Footprint, Objection, Remaining, Request.Pack, FreshId;
    var s' := Subscribe(s, topic, maxQos, stale).0;
    SubscribeYields(s, topic, maxQos, stale);
    var req := ReqSubscribe(IdIn(s'), topic, maxQos);
    LastIsPacket(Prepared(s, CallSubscribe(topic, maxQos, stale), s'.lfsr), req, stale, s');
    FreshIsNotZero(s, IdIn(s'));
    SubscribePacketReads(IdIn(s'), topic, maxQos, rest);
  }

  lemma UnsubscribedAsAsked(s: Session, topic: seq<byte>, stale: Stale, rest: seq<byte>)
    requires Fits(s) && Unsubscribe(s, topic, stale).1 == Ok && |topic| < 65536 && Filter(topic)
    ensures var s' := Unsubscribe(s, topic, stale).0;
            && FreshId(s, IdIn(s')) && s'.trace.queue != []
            && var m := s'.trace.queue[|s'.trace.queue| - 1];
               && m.control == 10 && m.id == IdIn(s') && m.state == Unsent
               && ReadUnsubscribe(m.bytes + rest) == Some((IdIn(s') as nat, topic))
  {
    hide Unsubscribe, PacketOf, ReadUnsubscribe, Filter, HasPlace, Footprint, Objection, Remaining, Request.Pack,
         FreshId;
    var s' := Unsubscribe(s, topic, stale).0;
    UnsubscribeYields(s, topic, stale);
    var req := ReqUnsubscribe(IdIn(s'), topic);
    LastIsPacket(Prepared(s, CallUnsubscribe(topic, stale), s'.lfsr), req, stale, s');
    FreshIsNotZero(s, IdIn(s'));
    UnsubscribePacketReads(IdIn(s'), topic, rest);
  }

  lemma FreshIsNotZero(s: Session, id: u16)
    requires FreshId(s, id)
    ensures id != 0
  {}

  /** A request that was accepted. */
  lemma AcceptedIsWith(s: Session, req: Request, stale: Stale, k: nat, s': Session)
    requires k <= |s.trace.queue| && Proper(req) && Requested(s, req, stale, k, s', Ok)
    ensures WellFormed(req) && (s' == With(s, req, stale) || s' == With(Without(s, k), req, stale))
  {
    hide With, Without, HasPlace, Remaining, Objection, WireSize;
  }

  lemma LastOfWith(s: Session, req: Request, stale: Stale)
    requires WellFormed(req)
    ensures var q := With(s, req, stale).trace.queue;
            q != [] && q[|q| - 1] == Msg(PacketOf(req), TypeOf(req), HeaderId(req, stale), Unsent, stale.timeSent)
  {
    hide PacketOf, TypeOf, HeaderId, WellFormed;
  }

  lemma LastIsPacket(s: Session, req: Request, stale: Stale, s': Session)
    requires Proper(req) && Yields(s, req, stale, s', Ok)
    ensures WellFormed(req) && s'.trace.queue != []
    ensures s'.trace.queue[|s'.trace.queue| - 1]
         == Msg(PacketOf(req), TypeOf(req), HeaderId(req, stale), Unsent, stale.timeSent)
  {
    hide PacketOf, TypeOf, HeaderId, WellFormed, Requested, With;
    var k: nat :| CompleteHead(s.trace.queue, k) && Requested(s, req, stale, k, s', Ok);
    AcceptedIsWith(s, req, stale, k, s');
    LastOfWith(s, req, stale);
    LastOfWith(Without(s, k), req, stale);
  }

  /** Whatever becomes of a request, no message but its own is added. */
  lemma RequestedQueue(s: Session, req: Request, stale: Stale, k: nat, s': Session, rv: Status)
    requires k <= |s.trace.queue| && Proper(req) && Requested(s, req, stale, k, s', rv)
    ensures var q, q' := s.trace.queue, s'.trace.queue;
            q' == q || q' == q[k..]
            || (q' != [] && (q'[..|q'| - 1] == q || q'[..|q'| - 1] == q[k..]) && q'[|q'| - 1].control == TypeOf(req))
  {
    hide PacketOf, HasPlace, Remaining, Objection, WireSize, TypeOf, HeaderId;
  }

  lemma SubscribePacketReads(id: u16, topic: seq<byte>, maxQos: byte, rest: seq<byte>)
    requires WellFormed(ReqSubscribe(id, topic, maxQos)) && id != 0 && |topic| < 65536 && Filter(topic) && maxQos <= 2
    ensures ReadSubscribe(PacketOf(ReqSubscribe(id, topic, maxQos)) + rest) == Some(Subscription(id, topic, maxQos))
  {
    hide ReadSubscribe, Filter, PackWith, Utf8;
    var req := ReqSubscribe(id, topic, maxQos);
    PackComesTo(req, WireSize(Remaining(req)));
    SubscribeRoundTripsIff(id, topic, maxQos, WireSize(Remaining(req)), rest);
  }

  lemma UnsubscribePacketReads(id: u16, topic: seq<byte>, rest: seq<byte>)
    requires WellFormed(ReqUnsubscribe(id, topic)) && id != 0 && |topic| < 65536 && Filter(topic)
    ensures ReadUnsubscribe(PacketOf(ReqUnsubscribe(id, topic)) + rest) == Some((id as nat, topic))
  {
    hide ReadUnsubscribe, Filter, PackWith, Utf8;
    var req := ReqUnsubscribe(id, topic);
    PackComesTo(req, WireSize(Remaining(req)));
    UnsubscribeRoundTripsIff(id, topic, WireSize(Remaining(req)), rest);
  }
}
