/**
 QoS 2 deliveries (section 4.3.3 of MQTT 3.1.1): exactly which PUBLISHes reach the callback, and the ordinary exchange
 after which a new one does not.
 */
module MqttDeliveries {
  import opened Bytes
  import opened MqttTypes
  import opened MqttPacket
  import opened MqttCodec
  import opened MqttConnect
  import opened MqttQueue
  import opened MqttSession
  import opened MqttDiscipline
  import opened MqttRuns
  import opened MqttGuarantees
  import opened Wrappers

  // ----- An unfinished PUBREC stands for an open delivery -------------------------------------------------

  /** `but` is the id, if any, of a delivery just being opened or released. */
  predicate OwedAreOpen(t: Trace, but: int) {
    forall j :: 0 <= j < |t.queue| && t.queue[j].control == PUBREC && t.queue[j].state != Complete ==>
      t.queue[j].id == but || Open(t.log, t.queue[j].id)
  }

  const NONE: int := -1

  lemma AppendOpens(t: Trace, m: Msg, but: int)
    requires OwedAreOpen(t, NONE) && (m.control == PUBREC ==> m.id == but)
    ensures OwedAreOpen(Append(t, m), but)
  {
    var q' := Append(t, m).queue;
    forall j | 0 <= j < |q'| && q'[j].control == PUBREC && q'[j].state != Complete
      ensures q'[j].id == but || Open(t.log, q'[j].id)
    {
      if j < |t.queue| { assert q'[j] == t.queue[j]; }
    }
  }

  lemma CleanOpens(t: Trace)
    requires OwedAreOpen(t, NONE)
    ensures OwedAreOpen(Clean(t), NONE)
  {}

  lemma FinishOpens(t: Trace, k: nat)
    requires OwedAreOpen(t, NONE) && k < |t.queue|
    ensures OwedAreOpen(Finish(t, k), NONE)
  {}

  lemma TransmitOpens(t: Trace, i: nat, now: int)
    requires OwedAreOpen(t, NONE) && i < |t.queue| && t.queue[i].bytes != [] && t.queue[i].state != Complete
    ensures OwedAreOpen(Transmit(t, i, now), NONE)
  {
    var t', e := Transmit(t, i, now), Sent(t.removed + i, t.queue[i].bytes);
    forall j | 0 <= j < |t'.queue| && t'.queue[j].control == PUBREC && t'.queue[j].state != Complete
      ensures Open(t'.log, t'.queue[j].id)
    {
      assert t.queue[j].control == PUBREC && t.queue[j].state != Complete && t.queue[j].id == t'.queue[j].id;
      OpenAppend(t.log, e, t.queue[j].id);
    }
  }

  /** A delivery opens what was still to be opened. */
  lemma DeliveryOpens(t: Trace, p: Response)
    requires p.RPublish? && OwedAreOpen(t, if p.qos == 2 then p.id else NONE)
    ensures OwedAreOpen(Note(t, Delivered(p)), NONE)
  {
    forall j | 0 <= j < |t.queue| && t.queue[j].control == PUBREC && t.queue[j].state != Complete
      ensures Open(t.log + [Delivered(p)], t.queue[j].id)
    {
      OpenAppend(t.log, Delivered(p), t.queue[j].id);
    }
  }

  /** A release closes the delivery of one PUBREC, which is completed. */
  lemma ReleaseOpens(t: Trace, id: u16, k: nat)
    requires OwedAreOpen(t, NONE) && Distinct(t.queue) && k < |t.queue| && t.queue[k].control == PUBREC
             && t.queue[k].id == id
    ensures OwedAreOpen(Finish(Note(t, Released(id)), k), NONE)
  {
    var t' := Finish(Note(t, Released(id)), k);
    forall j | 0 <= j < |t'.queue| && t'.queue[j].control == PUBREC && t'.queue[j].state != Complete
      ensures Open(t'.log, t'.queue[j].id)
    {
      assert t'.queue[j] == t.queue[j];
      assert !Clash(t.queue[j], t.queue[k]) || !Clash(t.queue[k], t.queue[j]);
      OpenAppend(t.log, Released(id), t.queue[j].id);
    }
  }

  lemma TryPackOpens(s: Session, req: Request, stale: Stale, but: int)
    requires Fits(s) && Sendable(req.Control()) && OwedAreOpen(s.trace, NONE)
             && (req.Control() == PUBREC ==> IdOf(req, stale) == but)
    ensures OwedAreOpen(TryPack(s, req, stale).0.trace, but)
  {
    hide Footprint, Done, OwedAreOpen;
    ButIsWeaker(s.trace, but);
    CleanOpens(s.trace);
    var c := Cleaning(s);
    ButIsWeaker(c.trace, but);
    TryOnceOpens(s, req, stale, but);
    TryOnceOpens(c, req, stale, but);
  }

  lemma ButIsWeaker(t: Trace, but: int)
    requires OwedAreOpen(t, NONE)
    ensures OwedAreOpen(t, but)
  {}

  lemma TryOnceOpens(s: Session, req: Request, stale: Stale, but: int)
    requires Fits(s) && Sendable(req.Control()) && OwedAreOpen(s.trace, NONE)
             && (req.Control() == PUBREC ==> IdOf(req, stale) == but)
    ensures TryOnce(s, req, stale).Accepted? ==> OwedAreOpen(TryOnce(s, req, stale).session.trace, but)
  {
    hide OwedAreOpen, PackWith, Footprint;
    var p := req.Pack(RoomIn(s));
    if p.Packed? { AppendOpens(s.trace, NewMessage(req, p.bytes, stale), but); }
  }

  lemma RequestOpens(s: Session, req: Request, stale: Stale)
    requires Fits(s) && Sendable(req.Control()) && req.Control() != PUBREC && OwedAreOpen(s.trace, NONE)
    ensures OwedAreOpen(TryPack(s, req, stale).0.trace, NONE)
  {
    TryPackOpens(s, req, stale, NONE);
  }

  lemma {:induction false} SendFromOpens(s: Session, i: nat, inflight: bool, env: Env)
    requires Fits(s) && OwedAreOpen(s.trace, NONE) && i <= |s.trace.queue|
    ensures OwedAreOpen(SendFrom(s, i, inflight, env).0.trace, NONE)
    decreases |s.trace.queue| - i
  {
    hide OwedAreOpen, Fits;
    if i < |s.trace.queue| {
      SendOneOpens(s, i, inflight, env);
      hide SendOne;
      var (s1, rv) := SendOne(s, i, inflight, env);
      if rv == Ok { SendFromOpens(s1, i + 1, inflight || Held(s.trace.queue[i]), env); }
    }
  }

  lemma SendOneOpens(s: Session, i: nat, inflight: bool, env: Env)
    requires Fits(s) && OwedAreOpen(s.trace, NONE) && i < |s.trace.queue|
    ensures OwedAreOpen(SendOne(s, i, inflight, env).0.trace, NONE)
  {
    hide OwedAreOpen;
    if s.trace.queue[i].state != Complete { TransmitOpens(s.trace, i, env.clock(2 * i + 1)); }
  }

  lemma SendOpens(s: Session, env: Env, stale: Stale)
    requires Fits(s) && OwedAreOpen(s.trace, NONE)
    ensures OwedAreOpen(Send(s, env, stale).0.trace, NONE)
  {
    hide OwedAreOpen, TryPack, SendOne;
    SendFromOpens(s, 0, false, env);
    RequestOpens(SendFrom(s, 0, false, env).0, ReqPing, stale);
  }

  lemma AnswerOpens(s: Session, control: nat, id: int)
    requires Fits(s) && OwedAreOpen(s.trace, NONE)
    ensures OwedAreOpen(Release(s, control, id).0.trace, NONE)
  {
    hide OwedAreOpen;
    if Queued(s, control, id) { FinishOpens(s.trace, Find(s.trace.queue, control, id)); }
  }

  lemma PublishOpens(s: Session, p: Response, stale: Stale)
    requires Fits(s) && OwedAreOpen(s.trace, NONE) && p.RPublish?
    ensures OwedAreOpen(HandlePublish(s, p, stale).0.trace, NONE)
  {
    hide OwedAreOpen;
    if !(p.qos == 2 && Queued(s, PUBREC, p.id)) {
      var but := if p.qos == 2 then p.id else NONE;
      var req := ReqPubxxx(if p.qos == 1 then PUBACK else PUBREC, p.id);
      ButIsWeaker(s.trace, but);
      if p.qos == 1 || p.qos == 2 { TryPackOpens(s, req, stale, but); }
      RefusedOpens(s, req, stale);
      hide TryPack;
      var s1 := if p.qos == 1 || p.qos == 2 then TryPack(s, req, stale).0 else s;
      DeliveryOpens(s1.trace, p);
    }
  }

  lemma RefusedOpens(s: Session, req: Request, stale: Stale)
    requires Fits(s) && Sendable(req.Control()) && OwedAreOpen(s.trace, NONE)
    ensures TryPack(s, req, stale).1 != Ok ==> OwedAreOpen(TryPack(s, req, stale).0.trace, NONE)
  {
    hide OwedAreOpen, TryOnce;
    CleanOpens(s.trace);
  }

  lemma PubrecOpens(s: Session, id: u16, stale: Stale)
    requires Fits(s) && OwedAreOpen(s.trace, NONE)
    ensures OwedAreOpen(HandlePubrec(s, id, stale).0.trace, NONE)
  {
    hide OwedAreOpen, TryPack;
    AnswerOpens(s, PUBLISH, id);
    RequestOpens(Release(s, PUBLISH, id).0, ReqPubxxx(PUBREL, id), stale);
  }

  lemma PubrelOpens(s: Session, id: u16, stale: Stale)
    requires Fits(s) && Distinct(s.trace.queue) && OwedAreOpen(s.trace, NONE)
    ensures OwedAreOpen(HandlePubrel(s, id, stale).0.trace, NONE)
  {
    hide OwedAreOpen, TryPack, Distinct;
    if Queued(s, PUBREC, id) {
      var k := Find(s.trace.queue, PUBREC, id);
      ReleaseOpens(s.trace, id, k);
      RequestOpens(Finishing(Noting(s, Released(id)), k), ReqPubxxx(PUBCOMP, id), stale);
    }
  }

  lemma HandleOpens(s: Session, r: Response, stale: Stale)
    requires Fits(s) && Distinct(s.trace.queue) && OwedAreOpen(s.trace, NONE)
    ensures OwedAreOpen(Handle(s, r, stale).0.trace, NONE)
  {
    hide OwedAreOpen, HandlePublish, HandlePubrec, HandlePubrel, Release, Distinct;
    match r
    case RConnack(_, _) => AnswerOpens(s, CONNECT, ANY);
    case RPublish(_, _, _, _, _, _) => PublishOpens(s, r, stale);
    case RPuback(id) => AnswerOpens(s, PUBLISH, id);
    case RPubrec(id) => PubrecOpens(s, id, stale);
    case RPubrel(id) => PubrelOpens(s, id, stale);
    case RPubcomp(id) => AnswerOpens(s, PUBREL, id);
    case RSuback(id, _) => AnswerOpens(s, SUBSCRIBE, id);
    case RUnsuback(id) => AnswerOpens(s, UNSUBSCRIBE, id);
    case RPingresp => AnswerOpens(s, PINGREQ, ANY);
  }

  lemma ConnectOpens(s: Session, connection: Connection, stale: Stale)
    requires Fits(s) && OwedAreOpen(s.trace, NONE)
    ensures OwedAreOpen(Connect(s, connection, stale).0.trace, NONE)
  {
    hide TryPack, OwedAreOpen;
    var s1 := s.(keepAlive := connection.keepAlive, error := if s.error == ConnectNotCalled then Ok else s.error);
    RequestOpens(s1, ReqConnect(connection), stale);
  }

  lemma DrawingOpens(s: Session, req: Request, stale: Stale)
    requires Fits(s) && OwedAreOpen(s.trace, NONE) && DrawsId(req.Control())
    ensures OwedAreOpen(TryPack(Draw(s), req, stale).0.trace, NONE)
  {
    hide TryPack, OwedAreOpen, Draw;
    DrawKeeps(s);
    RequestOpens(Draw(s), req, stale);
  }

  lemma PublishCallOpens(s: Session, topic: seq<byte>, payload: seq<byte>, flags: byte, stale: Stale)
    requires Fits(s) && OwedAreOpen(s.trace, NONE)
    ensures OwedAreOpen(Publish(s, topic, payload, flags, stale).0.trace, NONE)
  {
    hide TryPack, OwedAreOpen, Footprint, TotalSize;
    DrawingOpens(s, ReqPublish(topic, Draw(s).lfsr as u16, payload, flags), stale);
  }

  lemma SubscribeCallOpens(s: Session, topic: seq<byte>, maxQos: byte, stale: Stale)
    requires Fits(s) && OwedAreOpen(s.trace, NONE)
    ensures OwedAreOpen(Subscribe(s, topic, maxQos, stale).0.trace, NONE)
  {
    hide TryPack, OwedAreOpen, Footprint, TotalSize;
    DrawingOpens(s, ReqSubscribe(Draw(s).lfsr as u16, topic, maxQos), stale);
  }

  lemma UnsubscribeCallOpens(s: Session, topic: seq<byte>, stale: Stale)
    requires Fits(s) && OwedAreOpen(s.trace, NONE)
    ensures OwedAreOpen(Unsubscribe(s, topic, stale).0.trace, NONE)
  {
    hide TryPack, OwedAreOpen, Footprint, TotalSize;
    DrawingOpens(s, ReqUnsubscribe(Draw(s).lfsr as u16, topic), stale);
  }

  lemma StepOpens(s: Session, c: Call)
    requires Fits(s) && Distinct(s.trace.queue) && OwedAreOpen(s.trace, NONE)
    ensures OwedAreOpen(Step(s, c).0.trace, NONE)
  {
    hide Connect, Publish, Subscribe, Unsubscribe, TryPack, Send, Handle, OwedAreOpen, Distinct;
    match c
    case CallConnect(connection, stale) => ConnectOpens(s, connection, stale);
    case CallPublish(topic, payload, flags, stale) => PublishCallOpens(s, topic, payload, flags, stale);
    case CallSubscribe(topic, maxQos, stale) => SubscribeCallOpens(s, topic, maxQos, stale);
    case CallUnsubscribe(topic, stale) => UnsubscribeCallOpens(s, topic, stale);
    case CallPing(stale) => RequestOpens(s, ReqPing, stale);
    case CallDisconnect(stale) => RequestOpens(s, ReqDisconnect, stale);
    case CallSend(env, stale) => SendOpens(s, env, stale);
    case Response(r, stale) => HandleOpens(s, r, stale);
    case Failure(_) =>
  }

  lemma {:induction false} RunOpens(memSize: nat, headerSize: nat, lastSend: int, calls: seq<Call>)
    requires Usable(memSize, headerSize)
    ensures OwedAreOpen(Run(Init(memSize, headerSize, lastSend), calls).trace, NONE)
    decreases |calls|
  {
    hide Step, Inv;
    if calls != [] {
      var before := calls[..|calls| - 1];
      RunOpens(memSize, headerSize, lastSend, before);
      Reachable(memSize, headerSize, lastSend, before);
      InvDistinct(Run(Init(memSize, headerSize, lastSend), before).trace);
      StepOpens(Run(Init(memSize, headerSize, lastSend), before), calls[|calls| - 1]);
    }
  }

  lemma InvDistinct(t: Trace)
    requires Inv(t)
    ensures Distinct(t.queue)
  {}

  /** In every reachable session the unfinished PUBRECs are those of the deliveries not yet released. */
  lemma OpenIffOwed(s: Session, id: u16)
    requires Reached(s)
    ensures Open(s.trace.log, id) <==> OwedIn(s.trace.queue, id)
  {
    hide Run, Open;
    ReachedKeeps(s);
    var memSize: nat, headerSize: nat, lastSend: int, calls: seq<Call> :|
      Usable(memSize, headerSize) && s == Run(Init(memSize, headerSize, lastSend), calls);
    RunOpens(memSize, headerSize, lastSend, calls);
  }

  // ----- What is delivered --------------------------------------------------------------------------------

  /** A PUBREC with this id that has been released and not been removed. */
  predicate Lingers(q: seq<Msg>, id: u16) {
    exists j :: 0 <= j < |q| && q[j].control == PUBREC && q[j].id == id && q[j].state == Complete
  }

  lemma {:induction false} CleaningMakesRoom(s: Session)
    requires Fits(s)
    ensures RoomIn(s) <= RoomIn(Cleaning(s))
  {
    RestSize(s.trace.queue, Done(s.trace.queue), s.headerSize);
  }

  /** What an acknowledgement looks like. */
  function AckPacket(control: nibble, id: u16): (packet: seq<byte>)
    requires PUBACK <= control <= PUBCOMP
    ensures |packet| == 4
  {
    [control * 16 + if control == PUBREL then 2 else 0, 2] + U16(id)
  }

  lemma AckPacks(control: nibble, id: u16, room: nat)
    requires PUBACK <= control <= PUBCOMP
    ensures ReqPubxxx(control, id).Pack(room) == if room >= 4 then Packed(AckPacket(control, id)) else NoRoom
  {
    assert Varint(2) == [2];
  }

  lemma QueuedIff(s: Session, id: u16)
    requires Fits(s)
    ensures Queued(s, PUBREC, id) <==> OwedIn(s.trace.queue, id) || Lingers(s.trace.queue, id)
  {
    var q := s.trace.queue;
    NotQueued(q, PUBREC, id);
    if Queued(s, PUBREC, id) {
      var k := Find(q, PUBREC, id);
      assert q[k].control == PUBREC && q[k].id == id;
      assert q[k].state != Complete ==> Owed(q[k], id);
    }
    if OwedIn(q, id) {
      var j :| 0 <= j < |q| && Owed(q[j], id);
      assert q[j].control == PUBREC && q[j].id == id;
    }
  }

  lemma UnqueuedDelivered(s: Session, p: Response, stale: Stale)
    requires Fits(s) && p.RPublish? && p.qos == 2 && !Queued(s, PUBREC, p.id)
    ensures var (s', rv) := Handle(s, p, stale);
            if s.error == Ok && RoomIn(Cleaning(s)) >= 4 then rv == Ok && s'.trace.log == s.trace.log + [Delivered(p)]
            else rv != Ok && s'.trace.log == s.trace.log
  {
    hide Cleaned, Done, Request.Pack, Find;
    CleaningMakesRoom(s);
    AckPacks(PUBREC, p.id, RoomIn(s));
    AckPacks(PUBREC, p.id, RoomIn(Cleaning(s)));
  }

  lemma QueuedDropped(s: Session, p: Response, stale: Stale)
    requires Fits(s) && p.RPublish? && p.qos == 2 && Queued(s, PUBREC, p.id)
    ensures Handle(s, p, stale) == (s, Ok)
  {}

  /**
   Which QoS 2 PUBLISHes reach the callback. One whose delivery is open is a repetition and is dropped. A new one is
   delivered exactly if the client is not in error, no PUBREC of an earlier, released delivery with its id lingers in
   the queue, and a PUBREC finds room.
   */
  lemma DeliveredIff(s: Session, p: Response, stale: Stale)
    requires Reached(s) && p.RPublish? && p.qos == 2
    ensures var (s', rv) := Handle(s, p, stale);
            var delivered := s'.trace.log == s.trace.log + [Delivered(p)];
            && (delivered || s'.trace.log == s.trace.log)
            && if Open(s.trace.log, p.id) then rv == Ok && s' == s
               else && (delivered <==> s.error == Ok && !Lingers(s.trace.queue, p.id) && RoomIn(Cleaning(s)) >= 4)
                    && (rv == Ok <==> delivered || Lingers(s.trace.queue, p.id))
  {
    hide Handle, Open, OwedIn, Lingers, RoomIn, Find;
    OpenIffOwed(s, p.id);
    QueuedIff(s, p.id);
    if Queued(s, PUBREC, p.id) { QueuedDropped(s, p, stale); } else { UnqueuedDelivered(s, p, stale); }
  }

  // ----- Exactly once -------------------------------------------------------------------------------------

  /** No client id, a clean session, nothing else. */
  const ANONYMOUS := Connection([], Option.None, Option.None, Option.None, 2, 0)

  /** A network that takes everything, within the first second. */
  const SWIFT := Env(_ => 0, _ => Ok)

  /** A session of the ordinary exchange: `n` messages, and all but the last one are complete. */
  predicate Usual(s: Session, n: nat) {
    && Fits(s) && s.error == Ok && s.memSize == 1000 && s.headerSize == 32 && s.keepAlive == 0 && s.lastSend <= 0
    && s.trace.removed == 0 && |s.trace.queue| == n && Footprint(s.trace.queue, 32) <= 50 * n
    && forall i :: 0 <= i < n - 1 ==> s.trace.queue[i].state == Complete
  }

  predicate AllDone(q: seq<Msg>) {
    forall i :: 0 <= i < |q| ==> q[i].state == Complete
  }

  lemma FootprintAppend(q: seq<Msg>, m: Msg, headerSize: nat)
    ensures Footprint(q + [m], headerSize) == Footprint(q, headerSize) + |m.bytes| + headerSize
  {
    assert (q + [m])[..|q|] == q;
  }

  /** A request joins messages that are all complete. */
  lemma Joins(s: Session, n: nat, req: Request, bytes: seq<byte>, stale: Stale)
    requires Usual(s, n) && AllDone(s.trace.queue) && n < 10 && Sendable(req.Control())
    requires req.Pack(RoomIn(s)) == Packed(bytes) && 0 < |bytes| <= 18
    ensures var s' := TryPack(s, req, stale).0;
            && TryPack(s, req, stale).1 == Ok && Usual(s', n + 1) && s'.trace.log == s.trace.log
            && s'.trace.queue == s.trace.queue + [NewMessage(req, bytes, stale)]
  {
    hide Request.Pack, Footprint, Done;
    FootprintAppend(s.trace.queue, NewMessage(req, bytes, stale), 32);
  }

  lemma RoomEnough(s: Session, n: nat)
    requires Usual(s, n) && n < 10
    ensures RoomIn(s) >= 400
  {}

  /** Once all messages before it are complete, the loop sends the last one and no other. */
  lemma {:induction false} LoopSendsLast(s: Session, n: nat, i: nat)
    requires Usual(s, n) && i < n && s.trace.queue[n - 1].state == Unsent && !Held(s.trace.queue[n - 1])
    ensures SendFrom(s, i, false, SWIFT) == (Transmitting(s, n - 1, 0), Ok)
    decreases n - i
  {
    hide Footprint, Transmitting;
    if i < n - 1 {
      assert SendOne(s, i, false, SWIFT) == (s, Ok);
      LoopSendsLast(s, n, i + 1);
    } else {
      var s' := Transmitting(s, n - 1, 0);
      assert SendOne(s, i, false, SWIFT) == (s', Ok);
      assert SendFrom(s', n, false, SWIFT) == (s', Ok);
    }
  }

  lemma SendsLast(s: Session, n: nat, stale: Stale)
    requires Usual(s, n) && n > 0 && s.trace.queue[n - 1].state == Unsent && !Held(s.trace.queue[n - 1])
    requires s.trace.queue[n - 1].control != PUBLISH
    ensures var s', m := Step(s, CallSend(SWIFT, stale)).0, s.trace.queue[n - 1];
            && Usual(s', n) && s'.trace.log == s.trace.log + [Sent(n - 1, m.bytes)]
            && s'.trace.queue[..n - 1] == s.trace.queue[..n - 1]
            && s'.trace.queue[n - 1] == m.(timeSent := 0, state := if OneShot(m.control, m.bytes) then Complete
                else AwaitingAck)
  {
    hide SendFrom, TryPack;
    LoopSendsLast(s, n, 0);
    FootprintUpdate(s.trace.queue, n - 1, AfterSend(s.trace.queue[n - 1], 0), 32);
  }

  /** An answer completes the last message. */
  lemma Finishes(s: Session, n: nat, log: seq<Event>)
    requires Usual(s, n) && n > 0
    ensures var s' := s.(trace := Finish(s.trace, n - 1).(log := log)); Usual(s', n) && AllDone(s'.trace.queue)
  {
    FootprintUpdate(s.trace.queue, n - 1, s.trace.queue[n - 1].(state := Complete), 32);
  }

  lemma ConnectPacks(room: nat)
    requires room >= 14
    ensures ReqConnect(ANONYMOUS).Pack(room).Packed? && |ReqConnect(ANONYMOUS).Pack(room).bytes| == 14
  {
    BodyFillsRemaining(ANONYMOUS);
    assert ConnectRemaining(ANONYMOUS) == 12 && CleanOf(2) == 1;
    assert Varint(12) == [12];
  }

  /** The queue after message number `n - 1`, alone and of type `control`, was queued. */
  predicate LastIs(s: Session, n: nat, control: nat, id: u16, state: State, bytes: seq<byte>) {
    && Usual(s, n) && n > 0 && s.trace.queue[n - 1].control == control && s.trace.queue[n - 1].state == state
    && s.trace.queue[n - 1].bytes == bytes && bytes != [] && (control == CONNECT || s.trace.queue[n - 1].id == id)
  }

  lemma SendsThis(s: Session, n: nat, control: nat, id: u16, bytes: seq<byte>, stale: Stale) returns (s': Session)
    requires LastIs(s, n, control, id, Unsent, bytes) && control != PUBLISH
    ensures s' == Step(s, CallSend(SWIFT, stale)).0 && s'.trace.log == s.trace.log + [Sent(n - 1, bytes)]
    ensures LastIs(s', n, control, id, if OneShot(control, bytes) then Complete else AwaitingAck, bytes)
    ensures |s'.trace.queue| == |s.trace.queue| == n && s'.trace.queue[..n - 1] == s.trace.queue[..n - 1]
  {
    hide Step, Footprint;
    SendsLast(s, n, stale);
    s' := Step(s, CallSend(SWIFT, stale)).0;
    assert forall i :: 0 <= i < n - 1 ==> s'.trace.queue[i] == s'.trace.queue[..n - 1][i];
  }

  /** CONNECT queued and sent, CONNACK received. */
  lemma Connects(stale: Stale) returns (packet: seq<byte>, s: Session)
    ensures Fits(Init(1000, 32, 0))
    ensures s == Run(Init(1000, 32, 0), [CallConnect(ANONYMOUS, stale), CallSend(SWIFT, stale),
            Response(RConnack(0, 0), stale)])
    ensures Usual(s, 1) && AllDone(s.trace.queue) && s.trace.log == [Sent(0, packet)]
            && s.trace.queue[0].control == CONNECT
  {
    hide Request.Pack, TryPack, Run, SendFrom, Usual;
    var c1, c2, c3 := CallConnect(ANONYMOUS, stale), CallSend(SWIFT, stale), Response(RConnack(0, 0), stale);
    var s0 := Init(1000, 32, 0);
    NothingYet(s0);
    var s1 := Step(s0, c1).0;
    packet := ConnectQueued(stale);
    var s2 := SendsThis(s1, 1, CONNECT, 0, packet, stale);
    s := Step(s2, c3).0;
    ConnackFinishes(s2, packet, stale);
    RunNone(s0);
    assert [c1] == [] + [c1] && [c1, c2] == [c1] + [c2] && [c1, c2, c3] == [c1, c2] + [c3];
    RunOne(s0, [], c1, s0);
    RunOne(s0, [c1], c2, s1);
    RunOne(s0, [c1, c2], c3, s2);
    assert [] + [Sent(0, packet)] == [Sent(0, packet)];
  }

  lemma NothingYet(s: Session)
    requires s == Init(1000, 32, 0)
    ensures Fits(s) && Usual(s.(error := Ok), 0) && s.trace.log == [] && s.trace.queue == []
  {}

  lemma ConnectQueued(stale: Stale) returns (packet: seq<byte>)
    requires Fits(Init(1000, 32, 0))
    ensures var s := Step(Init(1000, 32, 0), CallConnect(ANONYMOUS, stale)).0;
            LastIs(s, 1, CONNECT, 0, Unsent, packet) && s.trace.log == []
  {
    hide Request.Pack, TryPack;
    var s0 := Init(1000, 32, 0).(error := Ok);
    NothingYet(Init(1000, 32, 0));
    RoomEnough(s0, 0);
    ConnectPacks(RoomIn(s0));
    packet := ReqConnect(ANONYMOUS).Pack(RoomIn(s0)).bytes;
    Joins(s0, 0, ReqConnect(ANONYMOUS), packet, stale);
  }

  lemma ConnackFinishes(s: Session, packet: seq<byte>, stale: Stale)
    requires LastIs(s, 1, CONNECT, 0, AwaitingAck, packet)
    ensures var s' := Step(s, Response(RConnack(0, 0), stale)).0;
            Usual(s', 1) && AllDone(s'.trace.queue) && s'.trace.log == s.trace.log
                && s'.trace.queue[0].control == CONNECT
  {
    hide Footprint;
    assert Find(s.trace.queue, CONNECT, ANY) == 0;
    Finishes(s, 1, s.trace.log);
  }

  /** PUBLISH received, PUBREC queued. */
  lemma Delivers(s: Session, p: Response, stale: Stale) returns (s': Session)
    requires Usual(s, 1) && AllDone(s.trace.queue) && s.trace.queue[0].control == CONNECT && p.RPublish? && p.qos == 2
    ensures s' == Step(s, Response(p, stale)).0 && s'.trace.log == s.trace.log + [Delivered(p)]
    ensures LastIs(s', 2, PUBREC, p.id, Unsent, AckPacket(PUBREC, p.id)) && |s'.trace.queue| == 2
            && s'.trace.queue[..1] == s.trace.queue
  {
    hide Request.Pack, TryPack, Footprint, AckPacket;
    NotQueued(s.trace.queue, PUBREC, p.id);
    RoomEnough(s, 1);
    AckPacks(PUBREC, p.id, RoomIn(s));
    Joins(s, 1, ReqPubxxx(PUBREC, p.id), AckPacket(PUBREC, p.id), stale);
    s' := Step(s, Response(p, stale)).0;
  }

  /** PUBREL received, PUBREC complete, PUBCOMP queued. */
  lemma Releases(s: Session, id: u16, stale: Stale) returns (s': Session)
    requires LastIs(s, 2, PUBREC, id, AwaitingAck, AckPacket(PUBREC, id)) && s.trace.queue[0].control == CONNECT
    ensures s' == Step(s, Response(RPubrel(id), stale)).0 && s'.trace.log == s.trace.log + [Released(id)]
    ensures LastIs(s', 3, PUBCOMP, id, Unsent, AckPacket(PUBCOMP, id))
    ensures |s'.trace.queue| == 3 && s'.trace.queue[1].control == PUBREC && s'.trace.queue[1].id == id
  {
    hide Request.Pack, TryPack, Footprint, AckPacket, Find;
    var q := s.trace.queue;
    SecondFound(q, PUBREC, id);
    var s1 := Finishing(Noting(s, Released(id)), 1);
    Finishes(s, 2, s.trace.log + [Released(id)]);
    RoomEnough(s1, 2);
    AckPacks(PUBCOMP, id, RoomIn(s1));
    Joins(s1, 2, ReqPubxxx(PUBCOMP, id), AckPacket(PUBCOMP, id), stale);
    s' := Step(s, Response(RPubrel(id), stale)).0;
  }

  lemma SecondFound(q: seq<Msg>, control: nat, id: u16)
    requires |q| >= 2 && q[0].control != control && q[1].control == control && q[1].id == id
    ensures Find(q, control, id) == 1
  {
    assert !Matches(q[0], control, id) && Matches(q[1], control, id);
  }

  /** The calls of the ordinary exchange, up to the PUBCOMP that ends it. */
  function Exchange(p: Response, stale: Stale): seq<Call>
    requires p.RPublish?
  {
    var send := CallSend(SWIFT, stale);
    [CallConnect(ANONYMOUS, stale), send, Response(RConnack(0, 0), stale),
     Response(p, stale), send, Response(RPubrel(p.id), stale), send]
  }

  /** A response, `n` times. */
  function Again(r: Response, stale: Stale, n: nat): seq<Call> {
    if n == 0 then [] else Again(r, stale, n - 1) + [Response(r, stale)]
  }

  lemma {:induction false} DroppedAgain(s: Session, p: Response, stale: Stale, n: nat)
    requires Fits(s) && p.RPublish? && p.qos == 2 && Queued(s, PUBREC, p.id)
    ensures Run(s, Again(p, stale, n)) == s
    decreases n
  {
    hide Handle, Run, Find, Fits;
    RunNone(s);
    if n > 0 {
      DroppedAgain(s, p, stale, n - 1);
      RunOne(s, Again(p, stale, n - 1), Response(p, stale), s);
      QueuedDropped(s, p, stale);
    }
  }

  lemma AllComplete(s: Session, n: nat, control: nat, id: u16, bytes: seq<byte>)
    requires LastIs(s, n, control, id, Complete, bytes)
    ensures s.error == Ok && AllDone(s.trace.queue)
  {}

  lemma Present(s: Session, control: nat, id: u16, k: nat)
    requires k < |s.trace.queue| && s.trace.queue[k].control == control && s.trace.queue[k].id == id
    ensures Queued(s, control, id)
  {
    NotQueued(s.trace.queue, control, id);
  }

  lemma SamePlace<T>(q: seq<T>, q': seq<T>, n: nat, k: nat)
    requires k < n <= |q| && n <= |q'| && q[..n] == q'[..n]
    ensures q[k] == q'[k]
  {
    assert q[k] == q[..n][k] && q'[k] == q'[..n][k];
  }

  lemma Exchanged(p: Response, stale: Stale) returns (packet: seq<byte>, s: Session)
    requires p.RPublish? && p.qos == 2
    ensures Fits(Init(1000, 32, 0)) && s == Run(Init(1000, 32, 0), Exchange(p, stale))
    ensures s.error == Ok && AllDone(s.trace.queue) && Queued(s, PUBREC, p.id)
    ensures s.trace.log == [Sent(0, packet), Delivered(p), Sent(1, AckPacket(PUBREC, p.id)), Released(p.id),
            Sent(2, AckPacket(PUBCOMP, p.id))]
  {
    hide Run, Step, Usual, LastIs, AckPacket, Find, Queued;
    var s0, send, c4, c6 := Init(1000, 32, 0), CallSend(SWIFT, stale), Response(p, stale),
                            Response(RPubrel(p.id), stale);
    var s3, s4, s5, s6;
    packet, s3 := Connects(stale);
    s4 := Delivers(s3, p, stale);
    s5 := SendsThis(s4, 2, PUBREC, p.id, AckPacket(PUBREC, p.id), stale);
    assert s4.trace.queue[0] == s4.trace.queue[..1][0];
    SamePlace(s5.trace.queue, s4.trace.queue, 1, 0);
    s6 := Releases(s5, p.id, stale);
    s := SendsThis(s6, 3, PUBCOMP, p.id, AckPacket(PUBCOMP, p.id), stale);
    AllComplete(s, 3, PUBCOMP, p.id, AckPacket(PUBCOMP, p.id));
    SamePlace(s.trace.queue, s6.trace.queue, 2, 1);
    Present(s, PUBREC, p.id, 1);
    var first := [CallConnect(ANONYMOUS, stale), send, Response(RConnack(0, 0), stale)];
    RunOne(s0, first, c4, s3);
    RunOne(s0, first + [c4], send, s4);
    RunOne(s0, first + [c4] + [send], c6, s5);
    RunOne(s0, first + [c4] + [send] + [c6], send, s6);
    assert first + [c4] + [send] + [c6] + [send] == Exchange(p, stale);
  }

  /**
   Exactly once does not hold. After an ordinary exchange - everything sent, received and complete - the released
   PUBREC stays in the queue until a later packet lacks room. Until then a new PUBLISH under its id, which the broker
   may well use again, is dropped however often it comes.
   */
  lemma ExactlyOnceFails(p: Response, p2: Response, stale: Stale, n: nat) returns (packet: seq<byte>)
    requires p.RPublish? && p.qos == 2 && p2.RPublish? && p2.qos == 2 && p2.id == p.id
    ensures Fits(Init(1000, 32, 0))
    ensures var s := Run(Init(1000, 32, 0), Exchange(p, stale) + Again(p2, stale, n));
            && s.error == Ok && AllDone(s.trace.queue) && !Open(s.trace.log, p2.id)
            && s.trace.log == [Sent(0, packet), Delivered(p), Sent(1, AckPacket(PUBREC, p.id)), Released(p.id),
                               Sent(2, AckPacket(PUBCOMP, p.id))]
  {
    hide Run, Find, AckPacket;
    var s;
    packet, s := Exchanged(p, stale);
    DroppedAgain(s, p2, stale, n);
    RunContinues(Init(1000, 32, 0), Exchange(p, stale), Again(p2, stale, n));
    var log, a, b, c, d := s.trace.log, Sent(0, packet), Delivered(p), Sent(1, AckPacket(PUBREC, p.id)),
                           Sent(2, AckPacket(PUBCOMP, p.id));
    OpenAppend([a, b, c], Released(p.id), p.id);
    OpenAppend([a, b, c] + [Released(p.id)], d, p.id);
    assert log == [a, b, c] + [Released(p.id)] + [d];
  }
}
