/**
 The sender's half of at-least-once (sections 4.3.2 and 4.3.3 of MQTT 3.1.1): a PUBLISH that asks for an answer stays
 in the queue, to be sent again, until an answer to it was processed.
 */
module MqttAnswers {
  import opened Bytes
  import opened MqttTypes
  import opened MqttPacket
  import opened MqttCodec
  import opened MqttConnect
  import opened MqttQueue
  import opened MqttSession
  import opened MqttDiscipline
  import opened MqttRuns
  import opened MqttGuarantees

  /** A PUBLISH that asks for an answer. */
  predicate AsksAnswer(packet: seq<byte>) {
    packet != [] && ControlOf(packet) == PUBLISH && QosOf(packet[0]) > 0
  }

  /** One still queued, sent or not, without its answer. */
  predicate Pending(m: Msg) {
    m.control == PUBLISH && m.bytes != [] && QosOf(m.bytes[0]) > 0 && m.state != Complete
  }

  /** Message `i` of the queue is a pending PUBLISH with this id. */
  predicate PendingAt(t: Trace, n: nat, id: u16) {
    t.removed <= n < t.removed + |t.queue| && Pending(t.queue[n - t.removed]) && t.queue[n - t.removed].id == id
  }

  const NOBODY: int := -1

  /** Every pending PUBLISH but those with id `but` stays pending, and what is queued on the way is not sent yet. */
  ghost predicate Stays(t: Trace, t': Trace, but: int) {
    && t.removed <= t'.removed <= t.removed + |t.queue| <= t'.removed + |t'.queue|
    && (forall n: nat, id: u16 :: PendingAt(t, n, id) && id != but ==> PendingAt(t', n, id))
    && forall i :: t.removed + |t.queue| - t'.removed <= i < |t'.queue| ==> t'.queue[i].state == Unsent
  }

  predicate NothingNew(t: Trace, t': Trace) {
    t'.removed + |t'.queue| == t.removed + |t.queue|
  }

  lemma StaysOn(t: Trace, t': Trace, t'': Trace, but: int)
    requires Stays(t, t', but) && Stays(t', t'', NOBODY) && NothingNew(t, t')
    ensures Stays(t, t'', but)
  {}

  lemma SameStays(t: Trace, t': Trace)
    requires t'.queue == t.queue && t'.removed == t.removed
    ensures Stays(t, t', NOBODY) && NothingNew(t, t')
  {}

  lemma NothingNewOn(t: Trace, t': Trace, t'': Trace)
    requires NothingNew(t, t') && NothingNew(t', t'')
    ensures NothingNew(t, t'')
  {}

  lemma NotingStays(s: Session, e: Event)
    requires Fits(s)
    ensures Stays(s.trace, Noting(s, e).trace, NOBODY) && NothingNew(s.trace, Noting(s, e).trace)
  {
    SameStays(s.trace, Noting(s, e).trace);
  }

  lemma StaysNoted(t: Trace, t': Trace, e: Event)
    requires Stays(t, t', NOBODY)
    ensures Stays(t, Note(t', e), NOBODY)
  {
    assert forall n: nat, id: u16 :: PendingAt(t', n, id) ==> PendingAt(Note(t', e), n, id);
  }

  lemma AppendStays(t: Trace, m: Msg)
    requires m.state == Unsent
    ensures Stays(t, Append(t, m), NOBODY)
  {}

  lemma CleanStays(t: Trace)
    ensures Stays(t, Clean(t), NOBODY) && NothingNew(t, Clean(t))
  {
    DoneIsLongest(t.queue);
  }

  lemma FinishStays(t: Trace, k: nat, but: int)
    requires k < |t.queue| && (t.queue[k].control == PUBLISH ==> t.queue[k].id == but)
    ensures Stays(t, Finish(t, k), but) && NothingNew(t, Finish(t, k))
  {}

  lemma TransmitStays(t: Trace, i: nat, now: int)
    requires i < |t.queue| && t.queue[i].bytes != []
    ensures Stays(t, Transmit(t, i, now), NOBODY) && NothingNew(t, Transmit(t, i, now))
  {
    ResentFacts(t.queue[i].control, t.queue[i].bytes);
  }

  // ----- The calls ----------------------------------------------------------------------------------------

  lemma TryOnceStays(s: Session, req: Request, stale: Stale)
    requires Fits(s) && Sendable(req.Control())
    ensures TryOnce(s, req, stale).Accepted? ==> Stays(s.trace, TryOnce(s, req, stale).session.trace, NOBODY)
  {
    hide Stays;
    var p := req.Pack(RoomIn(s));
    if p.Packed? { AppendStays(s.trace, NewMessage(req, p.bytes, stale)); }
  }

  lemma TryPackStays(s: Session, req: Request, stale: Stale)
    requires Fits(s) && Sendable(req.Control())
    ensures Stays(s.trace, TryPack(s, req, stale).0.trace, NOBODY)
  {
    hide Stays, Cleaned, Done, TryOnce, NothingNew;
    SameStays(s.trace, s.trace);
    CleanStays(s.trace);
    TryOnceStays(s, req, stale);
    var c := Cleaning(s);
    TryOnceStays(c, req, stale);
    var second := TryOnce(c, req, stale);
    if second.Accepted? { StaysOn(s.trace, c.trace, second.session.trace, NOBODY); }
  }

  lemma SendOneStays(s: Session, i: nat, inflight: bool, env: Env)
    requires Fits(s) && i < |s.trace.queue|
    ensures Stays(s.trace, SendOne(s, i, inflight, env).0.trace, NOBODY)
    ensures NothingNew(s.trace, SendOne(s, i, inflight, env).0.trace)
  {
    hide Stays, NothingNew;
    SameStays(s.trace, s.trace);
    TransmitStays(s.trace, i, env.clock(2 * i + 1));
  }

  lemma {:induction false} SendFromStays(s: Session, i: nat, inflight: bool, env: Env)
    requires Fits(s) && i <= |s.trace.queue|
    ensures Stays(s.trace, SendFrom(s, i, inflight, env).0.trace, NOBODY)
    ensures NothingNew(s.trace, SendFrom(s, i, inflight, env).0.trace)
    decreases |s.trace.queue| - i
  {
    hide SendOne, Stays;
    SameStays(s.trace, s.trace);
    if i < |s.trace.queue| {
      var (s1, rv) := SendOne(s, i, inflight, env);
      SendOneStays(s, i, inflight, env);
      if rv == Ok {
        var inflight' := inflight || Held(s.trace.queue[i]);
        SendFromStays(s1, i + 1, inflight', env);
        StaysOn(s.trace, s1.trace, SendFrom(s1, i + 1, inflight', env).0.trace, NOBODY);
      }
    }
  }

  lemma SendStays(s: Session, env: Env, stale: Stale)
    requires Fits(s)
    ensures Stays(s.trace, Send(s, env, stale).0.trace, NOBODY)
  {
    hide Stays, TryPack, SendFrom, NothingNew;
    SameStays(s.trace, s.trace);
    SendFromStays(s, 0, false, env);
    var s1 := SendFrom(s, 0, false, env).0;
    TryPackStays(s1, ReqPing, stale);
    StaysOn(s.trace, s1.trace, TryPack(s1, ReqPing, stale).0.trace, NOBODY);
  }

  lemma ReleaseStays(s: Session, control: nat, id: int)
    requires Fits(s) && (control == PUBLISH ==> id >= 0)
    ensures var but := if control == PUBLISH then id else NOBODY; Stays(s.trace, Release(s, control, id).0.trace, but)
    ensures NothingNew(s.trace, Release(s, control, id).0.trace)
  {
    hide Stays;
    SameStays(s.trace, s.trace);
    WeakerStays(s.trace, s.trace, id);
    var but := if control == PUBLISH then id else NOBODY;
    if Queued(s, control, id) { FinishStays(s.trace, Find(s.trace.queue, control, id), but); }
  }

  lemma WeakerStays(t: Trace, t': Trace, but: int)
    requires Stays(t, t', NOBODY)
    ensures Stays(t, t', but)
  {}

  lemma HandlePublishStays(s: Session, p: Response, stale: Stale)
    requires Fits(s) && p.RPublish?
    ensures Stays(s.trace, HandlePublish(s, p, stale).0.trace, NOBODY)
  {
    hide TryPack, Stays, Footprint, NothingNew;
    SameStays(s.trace, s.trace);
    var req := ReqPubxxx(if p.qos == 1 then PUBACK else PUBREC, p.id);
    TryPackStays(s, req, stale);
    var s1 := if p.qos == 1 || p.qos == 2 then TryPack(s, req, stale).0 else s;
    StaysNoted(s.trace, s1.trace, Delivered(p));
  }

  lemma PubrecStays(s: Session, id: u16, stale: Stale)
    requires Fits(s)
    ensures Stays(s.trace, HandlePubrec(s, id, stale).0.trace, id)
  {
    hide Stays, TryPack, Release, Find, NothingNew;
    SameStays(s.trace, s.trace);
    WeakerStays(s.trace, s.trace, id);
    ReleaseStays(s, PUBLISH, id);
    var s1 := Release(s, PUBLISH, id).0;
    TryPackStays(s1, ReqPubxxx(PUBREL, id), stale);
    StaysOn(s.trace, s1.trace, TryPack(s1, ReqPubxxx(PUBREL, id), stale).0.trace, id);
  }

  lemma PubrelStays(s: Session, id: u16, stale: Stale)
    requires Fits(s)
    ensures Stays(s.trace, HandlePubrel(s, id, stale).0.trace, NOBODY)
  {
    hide TryPack, Stays, NothingNew, Footprint;
    SameStays(s.trace, s.trace);
    if Queued(s, PUBREC, id) {
      var k := Find(s.trace.queue, PUBREC, id);
      var noted := Noting(s, Released(id));
      var s1 := Finishing(noted, k);
      NotingStays(s, Released(id));
      FinishStays(noted.trace, k, NOBODY);
      StaysOn(s.trace, noted.trace, s1.trace, NOBODY);
      TryPackStays(s1, ReqPubxxx(PUBCOMP, id), stale);
      NothingNewOn(s.trace, noted.trace, s1.trace);
      StaysOn(s.trace, s1.trace, TryPack(s1, ReqPubxxx(PUBCOMP, id), stale).0.trace, NOBODY);
    }
  }

  /** The id of the PUBLISHes a call may complete. */
  function AnsweredBy(c: Call): int {
    if c.Response? then
      match c.response case RPuback(id) => id case RPubrec(id) => id case _ => NOBODY
    else NOBODY
  }

  lemma HandleStays(s: Session, r: Response, stale: Stale)
    requires Fits(s)
    ensures Stays(s.trace, Handle(s, r, stale).0.trace, AnsweredBy(Call.Response(r, stale)))
  {
    hide Stays, HandlePublish, HandlePubrec, HandlePubrel, Release;
    match r
    case RConnack(_, _) => ReleaseStays(s, CONNECT, ANY);
    case RPublish(_, _, _, _, _, _) => HandlePublishStays(s, r, stale);
    case RPuback(id) => ReleaseStays(s, PUBLISH, id);
    case RPubrec(id) => PubrecStays(s, id, stale);
    case RPubrel(id) => PubrelStays(s, id, stale);
    case RPubcomp(id) => ReleaseStays(s, PUBREL, id);
    case RSuback(id, _) => ReleaseStays(s, SUBSCRIBE, id);
    case RUnsuback(id) => ReleaseStays(s, UNSUBSCRIBE, id);
    case RPingresp => ReleaseStays(s, PINGREQ, ANY);
  }

  lemma DrawingStays(s: Session, req: Request, stale: Stale)
    requires Fits(s) && Sendable(req.Control())
    ensures Stays(s.trace, TryPack(Draw(s), req, stale).0.trace, NOBODY)
  {
    hide Stays, Draw, TryPack;
    DrawKeeps(s);
    TryPackStays(Draw(s), req, stale);
  }

  lemma ConnectStays(s: Session, connection: Connection, stale: Stale)
    requires Fits(s)
    ensures Stays(s.trace, Connect(s, connection, stale).0.trace, NOBODY)
  {
    hide Stays, TryPack, Footprint;
    var s1 := s.(keepAlive := connection.keepAlive, error := if s.error == ConnectNotCalled then Ok else s.error);
    TryPackStays(s1, ReqConnect(connection), stale);
  }

  lemma PublishCallStays(s: Session, topic: seq<byte>, payload: seq<byte>, flags: byte, stale: Stale)
    requires Fits(s)
    ensures Stays(s.trace, Publish(s, topic, payload, flags, stale).0.trace, NOBODY)
  {
    hide Stays, TryPack, Footprint, TotalSize;
    DrawingStays(s, ReqPublish(topic, Draw(s).lfsr as u16, payload, flags), stale);
  }

  lemma SubscribeCallStays(s: Session, topic: seq<byte>, maxQos: byte, stale: Stale)
    requires Fits(s)
    ensures Stays(s.trace, Subscribe(s, topic, maxQos, stale).0.trace, NOBODY)
  {
    hide Stays, TryPack, Footprint, TotalSize;
    DrawingStays(s, ReqSubscribe(Draw(s).lfsr as u16, topic, maxQos), stale);
  }

  lemma UnsubscribeCallStays(s: Session, topic: seq<byte>, stale: Stale)
    requires Fits(s)
    ensures Stays(s.trace, Unsubscribe(s, topic, stale).0.trace, NOBODY)
  {
    hide Stays, TryPack, Footprint, TotalSize;
    DrawingStays(s, ReqUnsubscribe(Draw(s).lfsr as u16, topic), stale);
  }

  lemma StepStays(s: Session, c: Call)
    requires Fits(s)
    ensures Stays(s.trace, Step(s, c).0.trace, AnsweredBy(c))
  {
    hide Connect, Publish, Subscribe, Unsubscribe, TryPack, Send, Handle, Stays;
    SameStays(s.trace, s.trace);
    match c
    case CallConnect(connection, stale) => ConnectStays(s, connection, stale);
    case CallPublish(topic, payload, flags, stale) => PublishCallStays(s, topic, payload, flags, stale);
    case CallSubscribe(topic, maxQos, stale) => SubscribeCallStays(s, topic, maxQos, stale);
    case CallUnsubscribe(topic, stale) => UnsubscribeCallStays(s, topic, stale);
    case CallPing(stale) => TryPackStays(s, ReqPing, stale);
    case CallDisconnect(stale) => TryPackStays(s, ReqDisconnect, stale);
    case CallSend(env, stale) => SendStays(s, env, stale);
    case Response(r, stale) => HandleStays(s, r, stale);
    case Failure(_) =>
  }

  // ----- Runs ---------------------------------------------------------------------------------------------

  /** A pending PUBLISH and its packet are of one kind. */
  lemma PendingIff(t: Trace, n: nat)
    requires Inv(t) && n < |t.packets| && Progress(t, n) < 2
    ensures AsksAnswer(t.packets[n]) ==> PendingAt(t, n, t.queue[n - t.removed].id)
  {
    assert Recorded(t, n);
    if t.packets[n] != [] { ResentFacts(ControlOf(t.packets[n]), t.packets[n]); }
  }

  /** In the run so far the PUBLISH was pending, and the next call is the response PUBACK or PUBREC with its id. */
  ghost predicate AnsweredAt(s: Session, calls: seq<Call>, n: nat, k: nat)
    requires Fits(s)
  {
    && k < |calls| && calls[k].Response?
    && exists id: u16 :: PendingAt(Run(s, calls[..k]).trace, n, id)
                         && (calls[k].response == RPuback(id) || calls[k].response == RPubrec(id))
  }

  lemma AnsweredBefore(s: Session, before: seq<Call>, c: Call, n: nat, k: nat)
    requires Fits(s) && AnsweredAt(s, before, n, k)
    ensures AnsweredAt(s, before + [c], n, k)
  {
    hide Run, Fits, PendingAt;
    assert (before + [c])[..k] == before[..k];
  }

  lemma AnsweredNow(s: Session, before: seq<Call>, c: Call, n: nat, id: u16)
    requires Fits(s) && PendingAt(Run(s, before).trace, n, id) && AnsweredBy(c) == id
    ensures AnsweredAt(s, before + [c], n, |before|)
  {
    hide Run, Fits, PendingAt;
    assert (before + [c])[..|before|] == before;
  }

  /** One call completes a pending PUBLISH only as an answer to it. */
  lemma OneCall(s: Session, c: Call, n: nat)
    requires Fits(s) && Inv(s.trace)
    requires var t := Step(s, c).0.trace; n < |t.packets| && AsksAnswer(t.packets[n]) && Progress(t, n) == 2
    ensures n < |s.trace.packets| && AsksAnswer(s.trace.packets[n])
    ensures Progress(s.trace, n) < 2 ==> 0 <= AnsweredBy(c) < 65536 && PendingAt(s.trace, n, AnsweredBy(c))
  {
    hide Step, AsksAnswer, Inv, Fits;
    StepStays(s, c);
    InvCounts(s.trace);
    StepAdvances(s, c);
    if Progress(s.trace, n) < 2 { PendingIff(s.trace, n); }
  }

  lemma InvCounts(t: Trace)
    requires Inv(t)
    ensures Counts(t)
  {}

  /**
   However a client is used, whatever the network and the broker do: a PUBLISH of QoS 1 or 2 that was accepted is
   complete, or removed from the queue, only if an answer with its id was processed while it was pending there.
   */
  lemma {:induction false} AtLeastOnce(memSize: nat, headerSize: nat, lastSend: int, calls: seq<Call>, n: nat)
    requires Usable(memSize, headerSize)
    requires var t := Run(Init(memSize, headerSize, lastSend), calls).trace; n < |t.packets| && AsksAnswer(t.packets[n])
    ensures var s := Init(memSize, headerSize, lastSend);
            Progress(Run(s, calls).trace, n) == 2 ==> exists k: nat :: AnsweredAt(s, calls, n, k)
    decreases |calls|
  {
    var s := Init(memSize, headerSize, lastSend);
    var t := Run(s, calls).trace;
    if calls != [] && Progress(t, n) == 2 {
      hide Inv, AsksAnswer, Step, Progress, Run, AnsweredAt, Init, Fits;
      var before, c := calls[..|calls| - 1], calls[|calls| - 1];
      var s0 := Run(s, before);
      assert calls == before + [c];
      RunOne(s, before, c, s0);
      Reachable(memSize, headerSize, lastSend, before);
      OneCall(s0, c, n);
      if Progress(s0.trace, n) == 2 {
        AtLeastOnce(memSize, headerSize, lastSend, before, n);
        var k: nat :| AnsweredAt(s, before, n, k);
        AnsweredBefore(s, before, c, n, k);
      } else {
        ProgressBound(s0.trace, n);
        AnsweredNow(s, before, c, n, AnsweredBy(c));
      }
    }
  }

  lemma ProgressBound(t: Trace, n: nat)
    ensures Progress(t, n) <= 2
  {}

  /**
   Conversely an answer completes it; a PUBREC does unless its PUBREL is queued already. Which of the two comes makes no
   difference, though a PUBLISH of QoS 2 should wait for PUBREC: the type of the answer is not compared with the QoS.
   */
  lemma AnswerIsTaken(s: Session, n: nat, id: u16, stale: Stale)
    requires Reached(s) && PendingAt(s.trace, n, id)
    ensures Progress(Handle(s, RPuback(id), stale).0.trace, n) == 2
    ensures !Queued(s, PUBREL, id) ==> Progress(Handle(s, RPubrec(id), stale).0.trace, n) == 2
  {
    hide Inv, TryPack, Footprint, Find;
    ReachedKeeps(s);
    InvCounts(s.trace);
    var i := n - s.trace.removed;
    IsFound(s.trace.queue, PUBLISH, id, i);
    AcknowledgementIsUnambiguous(s, PUBLISH, id, i, i);
    var s1 := Release(s, PUBLISH, id).0;
    assert s1.trace == Finish(s.trace, i) && Progress(s1.trace, n) == 2;
    TryPackAdvances(s1, ReqPubxxx(PUBREL, id), stale);
    assert Progress(s1.trace, n) <= Progress(TryPack(s1, ReqPubxxx(PUBREL, id), stale).0.trace, n);
  }

  lemma IsFound(q: seq<Msg>, control: nat, id: int, i: nat)
    requires i < |q| && Matches(q[i], control, id)
    ensures Find(q, control, id) < |q|
  {}
}
