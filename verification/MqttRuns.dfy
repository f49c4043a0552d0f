/** Every call of the MQTT client keeps the discipline, so every run of a session does. */
module MqttRuns {
  import opened Bytes
  import opened MqttTypes
  import opened MqttPacket
  import opened MqttCodec
  import opened MqttConnect
  import opened MqttQueue
  import opened MqttSession
  import opened MqttDiscipline
  import PacketId

  // ----- Queueing a request ------------------------------------------------------------------------------

  /** No queued message clashes with the one `req` will become. */
  predicate Admissible(q: seq<Msg>, req: Request, stale: Stale) {
    Sendable(req.Control()) && Fresh(q, NewMessage(req, [], stale))
  }

  lemma CleaningKeeps(s: Session, req: Request, stale: Stale)
    requires Fits(s) && Inv(s.trace) && Admissible(s.trace.queue, req, stale)
    ensures Inv(Cleaning(s).trace) && Admissible(Cleaning(s).trace.queue, req, stale)
  {
    CleanKeeps(s.trace);
  }

  /** The message `req` became is the last of the queue, not sent yet. */
  predicate QueuedLast(s: Session, req: Request, stale: Stale) {
    var q := s.trace.queue;
    q != [] && q[|q| - 1].control == req.Control() && q[|q| - 1].id == IdOf(req, stale) && q[|q| - 1].state == Unsent
  }

  lemma QueueingKeeps(s: Session, req: Request, bytes: seq<byte>, stale: Stale)
    requires Fits(s) && Inv(s.trace) && Admissible(s.trace.queue, req, stale)
    requires 0 < |bytes| <= RoomIn(s) && bytes[0] / 16 == req.Control()
    ensures Inv(Queueing(s, req, bytes, stale).trace)
  {
    var m := NewMessage(req, bytes, stale);
    forall i | 0 <= i < |s.trace.queue|
      ensures !Clash(s.trace.queue[i], m)
    {
      assert !Clash(s.trace.queue[i], NewMessage(req, [], stale));
    }
    AppendKeeps(s.trace, m);
  }

  predicate Kept(s: Session, s': Session) {
    Inv(s'.trace) && s'.trace.log == s.trace.log
  }

  lemma TryOnceKeeps(s: Session, req: Request, stale: Stale)
    requires Fits(s) && Inv(s.trace) && Admissible(s.trace.queue, req, stale)
    ensures var r := TryOnce(s, req, stale);
            r.Accepted? ==> Kept(s, r.session) && QueuedLast(r.session, req, stale)
  {
    var p := req.Pack(RoomIn(s));
    if p.Packed? {
      req.PackFits(RoomIn(s));
      QueueingKeeps(s, req, p.bytes, stale);
    }
  }

  lemma CleaningKeepsLog(s: Session)
    requires Fits(s)
    ensures Cleaning(s).trace.log == s.trace.log
  {}

  lemma TryPackKeeps(s: Session, req: Request, stale: Stale)
    requires Fits(s) && Inv(s.trace) && Admissible(s.trace.queue, req, stale)
    ensures var (s', rv) := TryPack(s, req, stale);
            Kept(s, s') && (rv == Ok ==> QueuedLast(s', req, stale))
  {
    hide Cleaned, Done, Inv, QueuedLast, Admissible;
    CleaningKeeps(s, req, stale);
    TryOnceKeeps(s, req, stale);
    TryOnceKeeps(Cleaning(s), req, stale);
    CleaningKeepsLog(s);
  }

  lemma WordOfId(v: bv16)
    ensures (v as u16) as bv16 == v
  {}

  lemma DrawKeeps(s: Session)
    requires Fits(s)
    ensures Draw(s).trace == s.trace && Draw(s).error == s.error
  {}

  /** A drawn id is carried by no queued message, and is not zero. */
  lemma DrawnIdIsFresh(s: Session)
    requires Fits(s)
    ensures Draw(s).lfsr != 0
    ensures forall i :: 0 <= i < |s.trace.queue| ==> s.trace.queue[i].id != Draw(s).lfsr as u16
  {
    FewMessages(s);
    var q, id := s.trace.queue, Draw(s).lfsr;
    var n := PacketId.NextIdFresh(Used(q), s.lfsr);
    forall i | 0 <= i < |q|
      ensures q[i].id != id as u16
    {
      assert Used(q)[i] == q[i].id as bv16;
      WordOfId(id);
    }
  }

  lemma UnusedAdmissible(q: seq<Msg>, req: Request, stale: Stale)
    requires DrawsId(req.Control()) && forall i :: 0 <= i < |q| ==> q[i].id != IdOf(req, stale)
    ensures Admissible(q, req, stale)
  {}

  lemma DrawingKeeps(s: Session, req: Request, stale: Stale)
    requires Fits(s) && Inv(s.trace)
    requires DrawsId(req.Control()) && IdOf(req, stale) == Draw(s).lfsr as u16
    ensures Inv(TryPack(Draw(s), req, stale).0.trace)
  {
    DrawnIdIsFresh(s);
    UnusedAdmissible(s.trace.queue, req, stale);
    TryPackKeeps(Draw(s), req, stale);
  }

  // ----- The send half -----------------------------------------------------------------------------------

  predicate HeldBefore(q: seq<Msg>, i: nat)
    requires i <= |q|
  {
    exists j :: 0 <= j < i && Held(q[j])
  }

  lemma HeldBeforeNext(q: seq<Msg>, i: nat)
    requires i < |q|
    ensures HeldBefore(q, i + 1) <==> HeldBefore(q, i) || Held(q[i])
  {
    if HeldBefore(q, i) {
      var j :| 0 <= j < i && Held(q[j]);
      assert j < i + 1;
    }
  }

  lemma HeldBeforeSent(q: seq<Msg>, i: nat, now: int)
    requires i < |q| && Wf(q[i]) && q[i].state != Complete
    ensures HeldBefore(q[i := AfterSend(q[i], now)], i + 1) <==> HeldBefore(q, i) || Held(q[i])
  {
    ResentFacts(q[i].control, q[i].bytes);
    var q' := q[i := AfterSend(q[i], now)];
    assert Held(q'[i]) <==> Held(q[i]);
    if HeldBefore(q, i) {
      var j :| 0 <= j < i && Held(q[j]);
      assert Held(q'[j]);
    }
    if HeldBefore(q', i + 1) && !Held(q[i]) {
      var j :| 0 <= j < i + 1 && Held(q'[j]);
      assert Held(q[j]);
    }
  }

  lemma TransmittingKeeps(s: Session, i: nat, now: int, inflight: bool)
    requires Fits(s) && Inv(s.trace) && i < |s.trace.queue|
    requires inflight <==> HeldBefore(s.trace.queue, i)
    requires s.trace.queue[i].state != Complete && !(Held(s.trace.queue[i]) && inflight)
             && OnlyHeldBack(s.trace.queue, i)
    ensures Inv(Transmitting(s, i, now).trace)
    ensures inflight || Held(s.trace.queue[i]) <==> HeldBefore(Transmitting(s, i, now).trace.queue, i + 1)
  {
    assert Wf(s.trace.queue[i]);
    HeldBeforeSent(s.trace.queue, i, now);
    TransmitKeeps(s.trace, i, now);
  }

  lemma SendOneKeeps(s: Session, i: nat, inflight: bool, env: Env)
    requires Fits(s) && Inv(s.trace) && i < |s.trace.queue|
    requires (inflight <==> HeldBefore(s.trace.queue, i)) && OnlyHeldBack(s.trace.queue, i)
    ensures var (s', rv) := SendOne(s, i, inflight, env);
            && Inv(s'.trace)
            && (rv == Ok ==> (inflight || Held(s.trace.queue[i]) <==> HeldBefore(s'.trace.queue, i + 1)))
            && (rv == Ok ==> OnlyHeldBack(s'.trace.queue, i + 1))
  {
    var m := s.trace.queue[i];
    HeldBeforeNext(s.trace.queue, i);
    if (m.state == Unsent || TimedOut(s, i, env)) && !(Held(m) && inflight) && env.net(i) == Ok {
      var s1 := if TimedOut(s, i, env) then s.(timeouts := s.timeouts + 1) else s;
      TransmittingKeeps(s1, i, env.clock(2 * i + 1), inflight);
    }
  }

  lemma {:induction false} SendFromKeeps(s: Session, i: nat, inflight: bool, env: Env)
    requires Fits(s) && Inv(s.trace) && i <= |s.trace.queue|
    requires (inflight <==> HeldBefore(s.trace.queue, i)) && OnlyHeldBack(s.trace.queue, i)
    ensures Inv(SendFrom(s, i, inflight, env).0.trace)
    ensures SendFrom(s, i, inflight, env).1 == Ok
            ==> OnlyHeldBack(SendFrom(s, i, inflight, env).0.trace.queue, |s.trace.queue|)
    decreases |s.trace.queue| - i
  {
    hide Inv, SendOne;
    if i < |s.trace.queue| {
      SendOneKeeps(s, i, inflight, env);
      var (s1, rv) := SendOne(s, i, inflight, env);
      if rv == Ok { SendFromKeeps(s1, i + 1, inflight || Held(s.trace.queue[i]), env); }
    }
  }

  lemma BareAdmissible(q: seq<Msg>, req: Request, stale: Stale)
    requires req.ReqConnect? || req.ReqPing? || req.ReqDisconnect?
             || (req.ReqPubxxx? && (req.control == PUBACK || req.control == PUBCOMP))
    ensures Admissible(q, req, stale)
  {}

  lemma SendKeeps(s: Session, env: Env, stale: Stale)
    requires Fits(s) && Inv(s.trace)
    ensures Inv(Send(s, env, stale).0.trace)
  {
    SendFromKeeps(s, 0, false, env);
    var s1 := SendFrom(s, 0, false, env).0;
    BareAdmissible(s1.trace.queue, ReqPing, stale);
    TryPackKeeps(s1, ReqPing, stale);
  }

  // ----- The receive half --------------------------------------------------------------------------------

  lemma ReleaseKeeps(s: Session, control: nat, id: int)
    requires Fits(s) && Inv(s.trace) && control != PUBREC
    ensures Inv(Release(s, control, id).0.trace) && Release(s, control, id).0.trace.log == s.trace.log
  {
    if Queued(s, control, id) { FinishKeeps(s.trace, Find(s.trace.queue, control, id)); }
  }

  lemma ReleaseQueued(s: Session, control: nat, id: int, other: nat, id': u16)
    requires Fits(s) && !Queued(s, other, id')
    ensures !Queued(Release(s, control, id).0, other, id')
  {
    NotQueued(s.trace.queue, other, id');
    if Queued(s, control, id) {
      var q' := Finishing(s, Find(s.trace.queue, control, id)).trace.queue;
      NotQueued(q', other, id');
    }
  }

  lemma NotQueued(q: seq<Msg>, control: nat, id: u16)
    ensures Find(q, control, id) == |q| <==> forall i :: 0 <= i < |q| ==> !(q[i].control == control && q[i].id == id)
  {
    assert forall i :: 0 <= i < |q| ==> (Matches(q[i], control, id) <==> q[i].control == control && q[i].id == id);
  }

  lemma AckAdmissible(q: seq<Msg>, control: nibble, id: u16, stale: Stale)
    requires control == PUBREC || control == PUBREL
    requires Find(q, control, id) == |q|
    ensures Admissible(q, ReqPubxxx(control, id), stale)
  {
    NotQueued(q, control, id);
  }

  lemma PublishKeeps(s: Session, p: Response, stale: Stale)
    requires Fits(s) && Inv(s.trace) && p.RPublish?
    ensures Inv(HandlePublish(s, p, stale).0.trace)
  {
    if p.qos == 2 {
      if !Queued(s, PUBREC, p.id) { Qos2PublishKeeps(s, p, stale); }
    } else {
      if p.qos == 1 {
        BareAdmissible(s.trace.queue, ReqPubxxx(PUBACK, p.id), stale);
        TryPackKeeps(s, ReqPubxxx(PUBACK, p.id), stale);
      }
      var s1 := if p.qos == 1 then TryPack(s, ReqPubxxx(PUBACK, p.id), stale).0 else s;
      NoteKeeps(s1.trace, Delivered(p));
    }
  }

  lemma Qos2PublishKeeps(s: Session, p: Response, stale: Stale)
    requires Fits(s) && Inv(s.trace) && p.RPublish? && p.qos == 2 && !Queued(s, PUBREC, p.id)
    ensures Inv(HandlePublish(s, p, stale).0.trace)
  {
    NotQueued(s.trace.queue, PUBREC, p.id);
    AckAdmissible(s.trace.queue, PUBREC, p.id, stale);
    TryPackKeeps(s, ReqPubxxx(PUBREC, p.id), stale);
    var (s1, rv) := TryPack(s, ReqPubxxx(PUBREC, p.id), stale);
    if rv == Ok {
      var q := s1.trace.queue;
      assert Owed(q[|q| - 1], p.id);
      assert !Open(s.trace.log, p.id);
      NoteKeeps(s1.trace, Delivered(p));
    }
  }

  lemma PubrecKeeps(s: Session, id: u16, stale: Stale)
    requires Fits(s) && Inv(s.trace)
    ensures Inv(HandlePubrec(s, id, stale).0.trace)
  {
    if !Queued(s, PUBREL, id) {
      ReleaseKeeps(s, PUBLISH, id);
      ReleaseQueued(s, PUBLISH, id, PUBREL, id);
      var s1 := Release(s, PUBLISH, id).0;
      AckAdmissible(s1.trace.queue, PUBREL, id, stale);
      TryPackKeeps(s1, ReqPubxxx(PUBREL, id), stale);
    }
  }

  lemma PubrelKeeps(s: Session, id: u16, stale: Stale)
    requires Fits(s) && Inv(s.trace)
    ensures Inv(HandlePubrel(s, id, stale).0.trace)
  {
    if Queued(s, PUBREC, id) {
      var k := Find(s.trace.queue, PUBREC, id);
      var s1 := Noting(s, Released(id));
      NoteKeeps(s.trace, Released(id));
      OpenAppend(s.trace.log, Released(id), id);
      FinishKeeps(s1.trace, k);
      var s2 := Finishing(s1, k);
      BareAdmissible(s2.trace.queue, ReqPubxxx(PUBCOMP, id), stale);
      TryPackKeeps(s2, ReqPubxxx(PUBCOMP, id), stale);
    }
  }

  lemma HandleKeeps(s: Session, r: Response, stale: Stale)
    requires Fits(s) && Inv(s.trace)
    ensures Inv(Handle(s, r, stale).0.trace)
  {
    hide Inv;
    match r
    case RConnack(_, _) => ReleaseKeeps(s, CONNECT, ANY);
    case RPublish(_, _, _, _, _, _) => PublishKeeps(s, r, stale);
    case RPuback(id) => ReleaseKeeps(s, PUBLISH, id);
    case RPubrec(id) => PubrecKeeps(s, id, stale);
    case RPubrel(id) => PubrelKeeps(s, id, stale);
    case RPubcomp(id) => ReleaseKeeps(s, PUBREL, id);
    case RSuback(id, _) => ReleaseKeeps(s, SUBSCRIBE, id);
    case RUnsuback(id) => ReleaseKeeps(s, UNSUBSCRIBE, id);
    case RPingresp => ReleaseKeeps(s, PINGREQ, ANY);
  }

  // ----- Runs --------------------------------------------------------------------------------------------

  lemma ConnectKeeps(s: Session, connection: Connection, stale: Stale)
    requires Fits(s) && Inv(s.trace)
    ensures Inv(Connect(s, connection, stale).0.trace)
  {
    hide Inv;
    var s1 := s.(keepAlive := connection.keepAlive, error := if s.error == ConnectNotCalled then Ok else s.error);
    BareAdmissible(s.trace.queue, ReqConnect(connection), stale);
    TryPackKeeps(s1, ReqConnect(connection), stale);
  }

  lemma BareKeeps(s: Session, req: Request, stale: Stale)
    requires Fits(s) && Inv(s.trace) && (req.ReqPing? || req.ReqDisconnect?)
    ensures Inv(TryPack(s, req, stale).0.trace)
  {
    BareAdmissible(s.trace.queue, req, stale);
    TryPackKeeps(s, req, stale);
  }

  lemma PublishCallKeeps(s: Session, topic: seq<byte>, payload: seq<byte>, flags: byte, stale: Stale)
    requires Fits(s) && Inv(s.trace)
    ensures Inv(Publish(s, topic, payload, flags, stale).0.trace)
  {
    hide Inv, TryPack;
    DrawingKeeps(s, ReqPublish(topic, Draw(s).lfsr as u16, payload, flags), stale);
  }

  lemma SubscribeCallKeeps(s: Session, topic: seq<byte>, maxQos: byte, stale: Stale)
    requires Fits(s) && Inv(s.trace)
    ensures Inv(Subscribe(s, topic, maxQos, stale).0.trace)
  {
    hide Inv, TryPack;
    DrawingKeeps(s, ReqSubscribe(Draw(s).lfsr as u16, topic, maxQos), stale);
  }

  lemma UnsubscribeCallKeeps(s: Session, topic: seq<byte>, stale: Stale)
    requires Fits(s) && Inv(s.trace)
    ensures Inv(Unsubscribe(s, topic, stale).0.trace)
  {
    hide Inv, TryPack;
    DrawingKeeps(s, ReqUnsubscribe(Draw(s).lfsr as u16, topic), stale);
  }

  lemma StepKeeps(s: Session, c: Call)
    requires Fits(s) && Inv(s.trace)
    ensures Inv(Step(s, c).0.trace)
  {
    hide Inv, Connect, Publish, Subscribe, Unsubscribe, TryPack, Send, Handle;
    match c
    case CallConnect(connection, stale) => ConnectKeeps(s, connection, stale);
    case CallPublish(topic, payload, flags, stale) => PublishCallKeeps(s, topic, payload, flags, stale);
    case CallSubscribe(topic, maxQos, stale) => SubscribeCallKeeps(s, topic, maxQos, stale);
    case CallUnsubscribe(topic, stale) => UnsubscribeCallKeeps(s, topic, stale);
    case CallPing(stale) => BareKeeps(s, ReqPing, stale);
    case CallDisconnect(stale) => BareKeeps(s, ReqDisconnect, stale);
    case CallSend(env, stale) => SendKeeps(s, env, stale);
    case Response(r, stale) => HandleKeeps(s, r, stale);
    case Failure(_) =>
  }

  predicate Usable(memSize: nat, headerSize: nat) {
    headerSize > 0 && memSize < PacketId.FULL * headerSize
  }

  /** The discipline holds in every state a session can reach. */
  lemma {:induction false} Reachable(memSize: nat, headerSize: nat, lastSend: int, calls: seq<Call>)
    requires Usable(memSize, headerSize)
    ensures Inv(Run(Init(memSize, headerSize, lastSend), calls).trace)
    decreases |calls|
  {
    if calls != [] {
      Reachable(memSize, headerSize, lastSend, calls[..|calls| - 1]);
      StepKeeps(Run(Init(memSize, headerSize, lastSend), calls[..|calls| - 1]), calls[|calls| - 1]);
    }
  }
}
