/** What a send leaves unsent, and what an error leaves possible (libs/mqtt.c). */
module MqttEffects {
  import opened Bytes
  import opened MqttTypes
  import opened MqttPacket
  import opened MqttCodec
  import opened MqttConnect
  import opened MqttQueue
  import opened MqttSession
  import opened MqttDiscipline
  import opened MqttRequests
  import opened MqttRuns

  // ----- Sending ------------------------------------------------------------------------------------------

  /** After a send without error, nothing is left unsent but QoS 2 PUBLISHes and the PINGREQ just queued. */
  lemma OnlyHeldBackLeft(s: Session, env: Env, stale: Stale)
    requires Fits(s) && Inv(s.trace) && Send(s, env, stale).1 == Ok
    ensures var q := Send(s, env, stale).0.trace.queue;
            forall j :: 0 <= j < |q| && q[j].state == Unsent ==> Qos2(q[j]) || (j == |q| - 1 && q[j].control == PINGREQ)
  {
    hide TryPack, Request.Pack, Inv, SendOne, Footprint, TotalSize, Qos2;
    SendFromKeeps(s, 0, false, env);
    var s1 := SendFrom(s, 0, false, env).0;
    HeldBackRest(s1.trace.queue);
    RequestYields(s1, ReqPing, stale);
    PingIsLast(s1, stale);
  }

  lemma PingIsLast(s: Session, stale: Stale)
    requires Fits(s) && OnlyHeldBack(s.trace.queue, |s.trace.queue|)
    requires Yields(s, ReqPing, stale, TryPack(s, ReqPing, stale).0, TryPack(s, ReqPing, stale).1)
    ensures var q := TryPack(s, ReqPing, stale).0.trace.queue;
            forall j :: 0 <= j < |q| && q[j].state == Unsent ==> Qos2(q[j]) || (j == |q| - 1 && q[j].control == PINGREQ)
  {
    hide TryPack, Requested, Qos2;
    var (s', rv) := TryPack(s, ReqPing, stale);
    var k: nat :| CompleteHead(s.trace.queue, k) && Requested(s, ReqPing, stale, k, s', rv);
    RequestedQueue(s, ReqPing, stale, k, s', rv);
    var q, q' := s.trace.queue, s'.trace.queue;
    forall j | 0 <= j < |q'| && q'[j].state == Unsent
      ensures Qos2(q'[j]) || (j == |q'| - 1 && q'[j].control == PINGREQ)
    {
      var rest := if q' == q || q' == q[k..] then q' else q'[..|q'| - 1];
      assert rest == q || rest == q[k..];
      if j < |rest| { assert rest[j] == q'[j]; }
    }
  }

  lemma HeldBackRest(q: seq<Msg>)
    requires OnlyHeldBack(q, |q|)
    ensures OnlyHeldBack(Cleaned(q), |Cleaned(q)|)
  {}

  // ----- Errors -------------------------------------------------------------------------------------------

  /** `s` is in error for good, and has queued no packet since `s0`. */
  predicate Stuck(s0: Session, s: Session) {
    Final(s.error) && s.trace.packets == s0.trace.packets
  }

  lemma {:induction false} SendFromStuck(s0: Session, s: Session, i: nat, inflight: bool, env: Env)
    requires Fits(s) && Stuck(s0, s) && i <= |s.trace.queue|
    ensures Stuck(s0, SendFrom(s, i, inflight, env).0)
    decreases |s.trace.queue| - i
  {
    hide SendOne, Stuck, Fits;
    if i < |s.trace.queue| {
      SendOneStuck(s0, s, i, inflight, env);
      var (s1, rv) := SendOne(s, i, inflight, env);
      if rv == Ok { SendFromStuck(s0, s1, i + 1, inflight || Held(s.trace.queue[i]), env); }
    }
  }

  lemma SendOneStuck(s0: Session, s: Session, i: nat, inflight: bool, env: Env)
    requires Fits(s) && Stuck(s0, s) && i < |s.trace.queue|
    ensures Stuck(s0, SendOne(s, i, inflight, env).0)
  {
    hide Held, TimedOut, AfterSend, Footprint, TotalSize;
  }

  lemma RequestStuck(s: Session, req: Request, stale: Stale)
    requires Fits(s) && Sendable(req.Control()) && Final(s.error)
    ensures TryPack(s, req, stale) == (s, s.error)
  {}

  lemma SendStuck(s0: Session, s: Session, env: Env, stale: Stale)
    requires Fits(s) && Stuck(s0, s)
    ensures Stuck(s0, Send(s, env, stale).0)
  {
    hide TryPack, SendOne;
    SendFromStuck(s0, s, 0, false, env);
    var s1 := SendFrom(s, 0, false, env).0;
    RequestStuck(s1, ReqPing, stale);
  }

  lemma HandleStuck(s0: Session, s: Session, r: Response, stale: Stale)
    requires Fits(s) && Stuck(s0, s)
    ensures Stuck(s0, Handle(s, r, stale).0)
  {
    hide TryPack, Find, Footprint, TotalSize;
    match r
    case RPublish(_, qos, _, _, id, _) =>
      RequestStuck(s, ReqPubxxx(PUBACK, id), stale);
      RequestStuck(s, ReqPubxxx(PUBREC, id), stale);
    case RPubrec(id) => RequestStuck(Release(s, PUBLISH, id).0, ReqPubxxx(PUBREL, id), stale);
    case RPubrel(id) =>
      if Queued(s, PUBREC, id) {
        RequestStuck(Finishing(Noting(s, Released(id)), Find(s.trace.queue, PUBREC, id)), ReqPubxxx(PUBCOMP, id),
            stale);
      }
    case _ =>
  }

  lemma ConnectStuck(s: Session, connection: Connection, stale: Stale)
    requires Fits(s) && Final(s.error)
    ensures Stuck(s, Connect(s, connection, stale).0)
  {
    hide TryPack, Footprint;
    RequestStuck(s.(keepAlive := connection.keepAlive), ReqConnect(connection), stale);
  }

  lemma DrawingStuck(s: Session, req: Request, stale: Stale)
    requires Fits(s) && Final(s.error) && Sendable(req.Control())
    ensures Stuck(s, TryPack(Draw(s), req, stale).0)
  {
    hide TryPack, Footprint, TotalSize;
    DrawKeeps(s);
    RequestStuck(Draw(s), req, stale);
  }

  lemma PublishStuck(s: Session, topic: seq<byte>, payload: seq<byte>, flags: byte, stale: Stale)
    requires Fits(s) && Final(s.error)
    ensures Stuck(s, Publish(s, topic, payload, flags, stale).0)
  {
    hide TryPack, Footprint, TotalSize;
    DrawingStuck(s, ReqPublish(topic, Draw(s).lfsr as u16, payload, flags), stale);
  }

  lemma SubscribeStuck(s: Session, topic: seq<byte>, maxQos: byte, stale: Stale)
    requires Fits(s) && Final(s.error)
    ensures Stuck(s, Subscribe(s, topic, maxQos, stale).0)
  {
    hide TryPack, Footprint, TotalSize;
    DrawingStuck(s, ReqSubscribe(Draw(s).lfsr as u16, topic, maxQos), stale);
  }

  lemma UnsubscribeStuck(s: Session, topic: seq<byte>, stale: Stale)
    requires Fits(s) && Final(s.error)
    ensures Stuck(s, Unsubscribe(s, topic, stale).0)
  {
    hide TryPack, Footprint, TotalSize;
    DrawingStuck(s, ReqUnsubscribe(Draw(s).lfsr as u16, topic), stale);
  }

  lemma StepStuck(s0: Session, s: Session, c: Call)
    requires Fits(s) && Stuck(s0, s)
    ensures Stuck(s0, Step(s, c).0)
  {
    hide Connect, Publish, Subscribe, Unsubscribe, TryPack, Send, Handle;
    match c
    case CallConnect(connection, stale) => ConnectStuck(s, connection, stale);
    case CallPublish(topic, payload, flags, stale) => PublishStuck(s, topic, payload, flags, stale);
    case CallSubscribe(topic, maxQos, stale) => SubscribeStuck(s, topic, maxQos, stale);
    case CallUnsubscribe(topic, stale) => UnsubscribeStuck(s, topic, stale);
    case CallPing(stale) => RequestStuck(s, ReqPing, stale);
    case CallDisconnect(stale) => RequestStuck(s, ReqDisconnect, stale);
    case CallSend(env, stale) => SendStuck(s0, s, env, stale);
    case Response(r, stale) => HandleStuck(s0, s, r, stale);
    case Failure(_) =>
  }

  /**
   After the first error - a full send buffer is enough - no packet is ever queued again, not even an acknowledgement.
   */
  lemma {:induction false} ErrorsAreFinal(s: Session, calls: seq<Call>)
    requires Fits(s) && Final(s.error)
    ensures Stuck(s, Run(s, calls))
    decreases |calls|
  {
    hide Step;
    if calls != [] {
      ErrorsAreFinal(s, calls[..|calls| - 1]);
      StepStuck(s, Run(s, calls[..|calls| - 1]), calls[|calls| - 1]);
    }
  }
}
