/**
 What a user of the MQTT client can rely on, whatever the calls, the network and the broker do:
 the requirements of MQTT 3.1.1 read off the discipline that every run keeps.
 */
module MqttGuarantees {
  import opened Bytes
  import opened MqttTypes
  import opened MqttPacket
  import opened MqttCodec
  import opened MqttConnect
  import opened MqttQueue
  import opened MqttSession
  import opened MqttDiscipline
  import opened MqttRuns
  import E = MqttEffects
  import R = MqttReceive

  /** `s` is what some run of calls made of a new session. */
  ghost predicate Reached(s: Session) {
    Fits(s) && exists memSize: nat, headerSize: nat, lastSend: int, calls: seq<Call> ::
      Usable(memSize, headerSize) && s == Run(Init(memSize, headerSize, lastSend), calls)
  }

  lemma ReachedKeeps(s: Session)
    requires Reached(s)
    ensures Inv(s.trace)
  {
    var memSize: nat, headerSize: nat, lastSend: int, calls: seq<Call> :|
      Usable(memSize, headerSize) && s == Run(Init(memSize, headerSize, lastSend), calls);
    Reachable(memSize, headerSize, lastSend, calls);
  }

  /** Section 2.3.1: an acknowledgement finds the one message it is for. */
  lemma AcknowledgementIsUnambiguous(s: Session, control: nat, id: u16, i: nat, j: nat)
    requires Reached(s) && (DrawsId(control) || control == PUBREC || control == PUBREL)
    requires i < |s.trace.queue| && Matches(s.trace.queue[i], control, id)
    requires j < |s.trace.queue| && Matches(s.trace.queue[j], control, id)
    ensures i == j == Find(s.trace.queue, control, id)
  {
    ReachedKeeps(s);
    NoTwoClash(s.trace.queue, i, j);
    NoTwoClash(s.trace.queue, Find(s.trace.queue, control, id), i);
  }

  lemma NoTwoClash(q: seq<Msg>, i: nat, j: nat)
    requires Distinct(q) && i < |q| && j < |q| && Clash(q[i], q[j])
    ensures i == j
  {}

  /** Section 4.6: of the queued QoS 2 PUBLISHes at most one is on its way, and it is the first one not complete. */
  lemma OneQos2InFlight(s: Session, i: nat, j: nat)
    requires Reached(s) && i < |s.trace.queue| && Qos2(s.trace.queue[i]) && s.trace.queue[i].state == AwaitingAck
    requires j < |s.trace.queue| && Qos2(s.trace.queue[j]) && j != i
    ensures if j < i then s.trace.queue[j].state == Complete else s.trace.queue[j].state != AwaitingAck
  {
    ReachedKeeps(s);
  }

  /** Section 4.6: QoS 2 PUBLISHes are sent in the order they were published, resends included. */
  lemma Qos2InPublishOrder(s: Session, a: nat, b: nat)
    requires Reached(s) && a < b < |s.trace.log| && SentQos2(s.trace.log[a]) && SentQos2(s.trace.log[b])
    ensures s.trace.log[a].serial <= s.trace.log[b].serial
  {
    ReachedKeeps(s);
  }

  /** Section 4.6: all other packets are sent for the first time in the order they were queued. */
  lemma FirstSentInQueueOrder(s: Session, a: nat, b: nat)
    requires Reached(s) && a < |s.trace.log| && b < |s.trace.log| && s.trace.log[a].Sent? && s.trace.log[b].Sent?
    requires s.trace.log[b].serial < s.trace.log[a].serial && !SentQos2(s.trace.log[b])
    ensures SentBefore(s.trace.log, s.trace.log[b].serial, a)
  {
    ReachedKeeps(s);
  }

  /** Section 3.3.1.1: a packet goes out as it was queued; only a QoS 1 PUBLISH changes when resent, by its DUP flag. */
  lemma SentAsQueued(s: Session, n: nat, k: nat)
    requires Reached(s) && n < |s.trace.packets|
    requires k < |Transmissions(s.trace.log, n)|
    ensures var packet, sent := s.trace.packets[n], Transmissions(s.trace.log, n)[k];
            && packet != [] && |sent| == |packet| && sent[1..] == packet[1..]
            && sent[0] / 16 == packet[0] / 16 && QosOf(sent[0]) == QosOf(packet[0])
                && RetainOf(sent[0]) == RetainOf(packet[0])
            && (DupOf(sent[0]) == if k > 0 && packet[0] / 16 == PUBLISH && QosOf(packet[0]) == 1 then 1
                else DupOf(packet[0]))
  {
    ReachedKeeps(s);
    assert Recorded(s.trace, n);
    var packet := s.trace.packets[n];
    assert Transmissions(s.trace.log, n)[k] == if k == 0 then packet else Resent(ControlOf(packet), packet);
    ResentFacts(ControlOf(packet), packet);
  }

  /** A packet that expects no answer is sent at most once. */
  lemma SentAtMostOnce(s: Session, n: nat)
    requires Reached(s) && n < |s.trace.packets| && s.trace.packets[n] != []
    requires OneShot(ControlOf(s.trace.packets[n]), s.trace.packets[n])
    ensures |Transmissions(s.trace.log, n)| <= 1
  {
    ReachedKeeps(s);
    assert Recorded(s.trace, n);
  }

  /** Section 4.3.3, at most once: a PUBREL lies between two deliveries of QoS 2 PUBLISHes with the same id. */
  lemma DeliveredAtMostOnce(s: Session, id: u16, a: nat, b: nat)
    requires Reached(s) && a < b < |s.trace.log| && Delivery(s.trace.log[a], id) && Delivery(s.trace.log[b], id)
    ensures ReleasedBetween(s.trace.log, id, a, b)
  {
    ReachedKeeps(s);
  }

  /** After a send without error, nothing is left unsent but QoS 2 PUBLISHes and the PINGREQ it may have queued. */
  lemma SendLeavesNothingElse(s: Session, env: Env, stale: Stale)
    requires Reached(s) && Send(s, env, stale).1 == Ok
    ensures var q := Send(s, env, stale).0.trace.queue;
            forall j :: 0 <= j < |q| && q[j].state == Unsent ==> Qos2(q[j]) || (j == |q| - 1 && q[j].control == PINGREQ)
  {
    hide Send, Inv;
    ReachedKeeps(s);
    E.OnlyHeldBackLeft(s, env, stale);
  }

  // ----- Runs in parts ------------------------------------------------------------------------------------

  lemma RunNone(s: Session)
    requires Fits(s)
    ensures Run(s, []) == s
  {}

  lemma RunOne(s: Session, before: seq<Call>, c: Call, s1: Session)
    requires Fits(s) && Run(s, before) == s1
    ensures Run(s, before + [c]) == Step(s1, c).0
  {
    hide Step;
    assert (before + [c])[..|before|] == before;
  }

  // ----- States only advance -----------------------------------------------------------------------------

  function Rank(s: State): nat {
    match s case Unsent => 0 case AwaitingAck => 1 case Complete => 2
  }

  /** How far packet `n` has come; what mqtt_mq_clean has removed was complete. */
  function Progress(t: Trace, n: nat): nat {
    if n < t.removed then 2 else if n < t.removed + |t.queue| then Rank(t.queue[n - t.removed].state) else 0
  }

  /** From `t` to `t'`, nothing is forgotten and no message falls back. */
  predicate Advances(t: Trace, t': Trace) {
    && t.packets <= t'.packets && t.log <= t'.log && t.removed <= t'.removed
    && forall n :: 0 <= n < |t.packets| ==> Progress(t, n) <= Progress(t', n)
  }

  lemma AdvancesOn(t: Trace, t': Trace, t'': Trace)
    requires Advances(t, t') && Advances(t', t'')
    ensures Advances(t, t'')
  {
    forall n | 0 <= n < |t.packets|
      ensures Progress(t, n) <= Progress(t'', n)
    {
      assert Progress(t, n) <= Progress(t', n) <= Progress(t'', n);
    }
  }

  predicate Counts(t: Trace) {
    |t.packets| == t.removed + |t.queue|
  }

  lemma AppendAdvances(t: Trace, m: Msg)
    requires Counts(t)
    ensures Advances(t, Append(t, m)) && Counts(Append(t, m))
  {}

  lemma CleanAdvances(t: Trace)
    requires Counts(t)
    ensures Advances(t, Clean(t)) && Counts(Clean(t))
  {
    DoneIsLongest(t.queue);
  }

  lemma FinishAdvances(t: Trace, k: nat)
    requires Counts(t) && k < |t.queue|
    ensures Advances(t, Finish(t, k)) && Counts(Finish(t, k))
  {}

  lemma TransmitAdvances(t: Trace, i: nat, now: int)
    requires Counts(t) && i < |t.queue| && t.queue[i].bytes != [] && t.queue[i].state != Complete
    ensures Advances(t, Transmit(t, i, now)) && Counts(Transmit(t, i, now))
  {}

  lemma NoteAdvances(t: Trace, e: Event)
    requires Counts(t)
    ensures Advances(t, Note(t, e)) && Counts(Note(t, e))
  {}

  predicate Follows(s: Session, s': Session) {
    Advances(s.trace, s'.trace) && Counts(s'.trace)
  }

  lemma TryOnceAdvances(s: Session, req: Request, stale: Stale)
    requires Fits(s) && Sendable(req.Control()) && Counts(s.trace)
    ensures TryOnce(s, req, stale).Accepted? ==> Follows(s, TryOnce(s, req, stale).session)
  {
    var p := req.Pack(RoomIn(s));
    if p.Packed? { AppendAdvances(s.trace, NewMessage(req, p.bytes, stale)); }
  }

  lemma TryPackAdvances(s: Session, req: Request, stale: Stale)
    requires Fits(s) && Sendable(req.Control()) && Counts(s.trace)
    ensures Follows(s, TryPack(s, req, stale).0)
  {
    hide Cleaned, Done;
    CleanAdvances(s.trace);
    TryOnceAdvances(s, req, stale);
    var c := Cleaning(s);
    TryOnceAdvances(c, req, stale);
    var second := TryOnce(c, req, stale);
    if second.Accepted? { AdvancesOn(s.trace, c.trace, second.session.trace); }
  }

  lemma SendOneAdvances(s: Session, i: nat, inflight: bool, env: Env)
    requires Fits(s) && Counts(s.trace) && i < |s.trace.queue|
    ensures Follows(s, SendOne(s, i, inflight, env).0)
  {
    if s.trace.queue[i].state != Complete { TransmitAdvances(s.trace, i, env.clock(2 * i + 1)); }
  }

  lemma {:induction false} SendFromAdvances(s: Session, i: nat, inflight: bool, env: Env)
    requires Fits(s) && Counts(s.trace) && i <= |s.trace.queue|
    ensures Follows(s, SendFrom(s, i, inflight, env).0)
    decreases |s.trace.queue| - i
  {
    hide SendOne;
    if i < |s.trace.queue| {
      var (s1, rv) := SendOne(s, i, inflight, env);
      SendOneAdvances(s, i, inflight, env);
      if rv == Ok {
        var inflight' := inflight || Held(s.trace.queue[i]);
        SendFromAdvances(s1, i + 1, inflight', env);
        AdvancesOn(s.trace, s1.trace, SendFrom(s1, i + 1, inflight', env).0.trace);
      }
    }
  }

  lemma SendAdvances(s: Session, env: Env, stale: Stale)
    requires Fits(s) && Counts(s.trace)
    ensures Follows(s, Send(s, env, stale).0)
  {
    hide Advances, Counts, TryPack, SendFrom;
    SameFollows(s);
    SendFromAdvances(s, 0, false, env);
    var s1 := SendFrom(s, 0, false, env).0;
    TryPackAdvances(s1, ReqPing, stale);
    AdvancesOn(s.trace, s1.trace, TryPack(s1, ReqPing, stale).0.trace);
  }

  lemma ReleaseAdvances(s: Session, control: nat, id: int)
    requires Fits(s) && Counts(s.trace)
    ensures Follows(s, Release(s, control, id).0)
  {
    if Queued(s, control, id) { FinishAdvances(s.trace, Find(s.trace.queue, control, id)); }
  }

  lemma SameFollows(s: Session)
    requires Counts(s.trace)
    ensures Follows(s, s)
  {}

  lemma PublishAdvances(s: Session, p: Response, stale: Stale)
    requires Fits(s) && Counts(s.trace) && p.RPublish?
    ensures Follows(s, HandlePublish(s, p, stale).0)
  {
    var req := ReqPubxxx(if p.qos == 1 then PUBACK else PUBREC, p.id);
    TryPackAdvances(s, req, stale);
    var s1 := if p.qos == 1 || p.qos == 2 then TryPack(s, req, stale).0 else s;
    NoteAdvances(s1.trace, Delivered(p));
    AdvancesOn(s.trace, s1.trace, Note(s1.trace, Delivered(p)));
  }

  lemma PubrecAdvances(s: Session, id: u16, stale: Stale)
    requires Fits(s) && Counts(s.trace)
    ensures Follows(s, HandlePubrec(s, id, stale).0)
  {
    hide Advances, Counts, TryPack, Release, Find;
    SameFollows(s);
    ReleaseAdvances(s, PUBLISH, id);
    var s1 := Release(s, PUBLISH, id).0;
    TryPackAdvances(s1, ReqPubxxx(PUBREL, id), stale);
    AdvancesOn(s.trace, s1.trace, TryPack(s1, ReqPubxxx(PUBREL, id), stale).0.trace);
  }

  lemma PubrelAdvances(s: Session, id: u16, stale: Stale)
    requires Fits(s) && Counts(s.trace)
    ensures Follows(s, HandlePubrel(s, id, stale).0)
  {
    if Queued(s, PUBREC, id) {
      var k := Find(s.trace.queue, PUBREC, id);
      NoteAdvances(s.trace, Released(id));
      var s1 := Noting(s, Released(id));
      FinishAdvances(s1.trace, k);
      var s2 := Finishing(s1, k);
      AdvancesOn(s.trace, s1.trace, s2.trace);
      TryPackAdvances(s2, ReqPubxxx(PUBCOMP, id), stale);
      AdvancesOn(s.trace, s2.trace, TryPack(s2, ReqPubxxx(PUBCOMP, id), stale).0.trace);
    }
  }

  lemma HandleAdvances(s: Session, r: Response, stale: Stale)
    requires Fits(s) && Counts(s.trace)
    ensures Follows(s, Handle(s, r, stale).0)
  {
    hide Advances, Counts;
    match r
    case RConnack(_, _) => ReleaseAdvances(s, CONNECT, ANY);
    case RPublish(_, _, _, _, _, _) => PublishAdvances(s, r, stale);
    case RPuback(id) => ReleaseAdvances(s, PUBLISH, id);
    case RPubrec(id) => PubrecAdvances(s, id, stale);
    case RPubrel(id) => PubrelAdvances(s, id, stale);
    case RPubcomp(id) => ReleaseAdvances(s, PUBREL, id);
    case RSuback(id, _) => ReleaseAdvances(s, SUBSCRIBE, id);
    case RUnsuback(id) => ReleaseAdvances(s, UNSUBSCRIBE, id);
    case RPingresp => ReleaseAdvances(s, PINGREQ, ANY);
  }

  /** The calls that draw an id. */
  lemma DrawingAdvances(s: Session, req: Request, stale: Stale)
    requires Fits(s) && Sendable(req.Control()) && Counts(s.trace)
    ensures Follows(s, TryPack(Draw(s), req, stale).0)
  {
    hide Advances, Counts, Draw, TryPack;
    DrawKeeps(s);
    TryPackAdvances(Draw(s), req, stale);
  }

  lemma ConnectAdvances(s: Session, connection: Connection, stale: Stale)
    requires Fits(s) && Counts(s.trace)
    ensures Follows(s, Connect(s, connection, stale).0)
  {
    hide Advances, Counts, TryPack, Footprint;
    var s1 := s.(keepAlive := connection.keepAlive, error := if s.error == ConnectNotCalled then Ok else s.error);
    TryPackAdvances(s1, ReqConnect(connection), stale);
  }

  lemma PublishCallAdvances(s: Session, topic: seq<byte>, payload: seq<byte>, flags: byte, stale: Stale)
    requires Fits(s) && Counts(s.trace)
    ensures Follows(s, Publish(s, topic, payload, flags, stale).0)
  {
    hide Follows, TryPack, Footprint, TotalSize;
    DrawingAdvances(s, ReqPublish(topic, Draw(s).lfsr as u16, payload, flags), stale);
  }

  lemma SubscribeCallAdvances(s: Session, topic: seq<byte>, maxQos: byte, stale: Stale)
    requires Fits(s) && Counts(s.trace)
    ensures Follows(s, Subscribe(s, topic, maxQos, stale).0)
  {
    hide Follows, TryPack, Footprint, TotalSize;
    DrawingAdvances(s, ReqSubscribe(Draw(s).lfsr as u16, topic, maxQos), stale);
  }

  lemma UnsubscribeCallAdvances(s: Session, topic: seq<byte>, stale: Stale)
    requires Fits(s) && Counts(s.trace)
    ensures Follows(s, Unsubscribe(s, topic, stale).0)
  {
    hide Follows, TryPack, Footprint, TotalSize;
    DrawingAdvances(s, ReqUnsubscribe(Draw(s).lfsr as u16, topic), stale);
  }

  lemma StepAdvances(s: Session, c: Call)
    requires Fits(s) && Counts(s.trace)
    ensures Follows(s, Step(s, c).0)
  {
    hide Connect, Publish, Subscribe, Unsubscribe, TryPack, Send, Handle, Advances, Counts;
    SameFollows(s);
    match c
    case CallConnect(connection, stale) => ConnectAdvances(s, connection, stale);
    case CallPublish(topic, payload, flags, stale) => PublishCallAdvances(s, topic, payload, flags, stale);
    case CallSubscribe(topic, maxQos, stale) => SubscribeCallAdvances(s, topic, maxQos, stale);
    case CallUnsubscribe(topic, stale) => UnsubscribeCallAdvances(s, topic, stale);
    case CallPing(stale) => TryPackAdvances(s, ReqPing, stale);
    case CallDisconnect(stale) => TryPackAdvances(s, ReqDisconnect, stale);
    case CallSend(env, stale) => SendAdvances(s, env, stale);
    case Response(r, stale) => HandleAdvances(s, r, stale);
    case Failure(_) =>
  }

  /** However a run goes on, every message only advances: unsent, waiting for an answer, complete. */
  lemma {:induction false} RunAdvances(s: Session, calls: seq<Call>)
    requires Fits(s) && Counts(s.trace)
    ensures Follows(s, Run(s, calls))
    decreases |calls|
  {
    if calls != [] {
      var before := calls[..|calls| - 1];
      RunAdvances(s, before);
      StepAdvances(Run(s, before), calls[|calls| - 1]);
      AdvancesOn(s.trace, Run(s, before).trace, Run(s, calls).trace);
    }
  }

  // ----- The receive half is a run of responses ----------------------------------------------------------

  lemma {:induction false} RunContinues(s: Session, before: seq<Call>, after: seq<Call>)
    requires Fits(s)
    ensures Run(s, before + after) == Run(Run(s, before), after)
    decreases |after|
  {
    hide Step, Fits;
    if after == [] {
      assert before + after == before;
    } else {
      assert (before + after)[..|before + after| - 1] == before + after[..|after| - 1];
      RunContinues(s, before, after[..|after| - 1]);
    }
  }

  lemma RunSingle(s: Session, c: Call)
    requires Fits(s)
    ensures Run(s, [c]) == Step(s, c).0
  {
    RunNone(s);
    RunOne(s, [], c, s);
    assert [] + [c] == [c];
  }

  lemma RunFailure(s: Session, e: Fault)
    requires Fits(s)
    ensures Run(s, [Failure(e)]) == s.(error := e)
  {
    hide Handle, Connect, Publish, Subscribe, Unsubscribe, TryPack, Send, Run;
    RunSingle(s, Failure(e));
  }

  lemma RunResponse(s: Session, r: Response, stale: Stale)
    requires Fits(s)
    ensures Run(s, [Call.Response(r, stale)]) == Handle(s, r, stale).0
  {
    hide Handle, Connect, Publish, Subscribe, Unsubscribe, TryPack, Send, Run;
    RunSingle(s, Call.Response(r, stale));
  }

  /** Calls that only the receive half makes. */
  predicate OnlyReceived(calls: seq<Call>) {
    forall k :: 0 <= k < |calls| ==> calls[k].Response? || calls[k].Failure?
  }

  /** What __mqtt_recv does to the session is a run of responses and failures, so all of the above holds across it. */
  lemma {:induction false} RecvIsRun(s: Session, buffer: seq<byte>, net: seq<seq<byte>>, size: nat, stale: Stale)
    returns (calls: seq<Call>)
    requires Fits(s) && |buffer| <= size && R.Sound(buffer + R.Flat(net))
    ensures OnlyReceived(calls) && Run(s, calls) == R.Recv(s, buffer, net, size, stale).session
    decreases |buffer| + |R.Flat(net)|
  {
    hide Unpack, Run, Step, Handle, Fits, R.Take, R.Flat, R.Sound;
    var (portion, net') := R.Take(net, size - |buffer|);
    var b := buffer + portion;
    R.TurnIsSound(buffer, net, net', b, size);
    RunNone(s);
    match Unpack(b)
    case More =>
      calls := if |b| == size then [Failure(RecvBufferTooSmall)] else [];
      RunFailure(s, RecvBufferTooSmall);
    case Bad(e) =>
      calls := [Failure(e)];
      RunFailure(s, e);
    case Packet(consumed, _, response) =>
      calls := [Call.Response(response, stale)];
      RunResponse(s, response, stale);
      var (s', rv) := Handle(s, response, stale);
      if rv == Ok {
        var rest := RecvIsRun(s', b[consumed..], net', size, stale);
        RunContinues(s, calls, rest);
        calls := calls + rest;
      }
  }
}
