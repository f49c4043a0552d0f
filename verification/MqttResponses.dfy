/**
 What a response does (libs/mqtt.c, the switch of __mqtt_recv): which message it completes, what is queued in turn, and
 what the receive loop sees of it.
 */
module MqttResponses {
  import opened Bytes
  import opened MqttTypes
  import opened MqttPacket
  import opened MqttCodec
  import opened MqttQueue
  import opened MqttSession
  import opened MqttRequests

  /**
   Is `m` a message that this response answers? CONNACK and PINGRESP answer one that is not complete, others by id.
   */
  predicate Answers(r: Response, m: Msg) {
    match r
    case RConnack(_, _) => m.control == 1 && m.state != Complete
    case RPuback(id) => m.control == 3 && m.id == id
    case RPubrec(id) => m.control == 3 && m.id == id
    case RPubrel(id) => m.control == 5 && m.id == id
    case RPubcomp(id) => m.control == 6 && m.id == id
    case RSuback(id, _) => m.control == 8 && m.id == id
    case RUnsuback(id) => m.control == 10 && m.id == id
    case RPingresp => m.control == 12 && m.state != Complete
    case RPublish(_, _, _, _, _, _) => false
  }

  /** Is a message of this type and id in the queue? */
  predicate Holds(q: seq<Msg>, control: nat, id: u16) {
    exists i :: 0 <= i < |q| && q[i].control == control && q[i].id == id
  }

  predicate Awaits(q: seq<Msg>, r: Response) {
    exists i :: 0 <= i < |q| && Answers(r, q[i])
  }

  /** Message `i` is the first one answered; it is complete now, and nothing else differs. */
  predicate FirstCompleted(s: Session, r: Response, i: nat, s': Session) {
    var q := s.trace.queue;
    && i < |q| && Answers(r, q[i]) && (forall j :: 0 <= j < i ==> !Answers(r, q[j]))
    && s' == s.(trace := s.trace.(queue := q[i := q[i].(state := Complete)]))
  }

  function WithError(s: Session, e: Status): Session {
    s.(error := e)
  }

  function Noted(s: Session, e: Event): Session {
    s.(trace := s.trace.(log := s.trace.log + [e]))
  }

  /** What the answer itself says: a refused connection or subscription is an error. */
  function Saying(r: Response): Status {
    match r
    case RConnack(_, code) =>
      if code == 0 then Ok else if code == 2 then ConnectClientIdRefused else ConnectionRefused
    case RSuback(_, codes) => if codes != [] && codes[0] == 128 then SubscribeFailed else Ok
    case _ => Ok
  }

  /** An answer that completes a message, and asks for nothing more. */
  ghost predicate PlainAnswer(s: Session, r: Response, s': Session, rv: Status) {
    if !Awaits(s.trace.queue, r) then s' == WithError(s, AckOfUnknown) && rv == AckOfUnknown
    else
      && rv == Saying(r)
      && exists i: nat, done: Session ::
           FirstCompleted(s, r, i, done) && s' == if rv == Ok then done else WithError(done, rv)
  }

  /** An answer that completes a message, and is answered by an acknowledgement of type `control`. */
  ghost predicate AnsweredAnswer(s: Session, r: Response, control: nibble, id: u16, stale: Stale, s': Session,
                                 rv: Status)
    requires 4 <= control <= 7
  {
    if !Awaits(s.trace.queue, r) then s' == WithError(s, AckOfUnknown) && rv == AckOfUnknown
    else exists i: nat, done: Session ::
      FirstCompleted(s, r, i, done) && Yields(done, ReqPubxxx(control, id), stale, s', rv)
  }

  /** The acknowledgement is requested, and the callback gets the message if that was accepted. */
  ghost predicate AcknowledgedFirst(s: Session, req: Request, p: Response, stale: Stale, s': Session, rv: Status)
    requires Proper(req)
  {
    exists s1: Session :: Yields(s, req, stale, s1, rv) && s' == if rv == Ok then Noted(s1, Delivered(p)) else s1
  }

  /** A PUBLISH: QoS 1 and 2 are acknowledged before the callback gets it, unless its PUBREC is queued already. */
  ghost predicate PublishDid(s: Session, p: Response, stale: Stale, s': Session, rv: Status)
    requires p.RPublish?
  {
    if p.qos == 2 && Holds(s.trace.queue, 5, p.id) then s' == s && rv == Ok
    else if p.qos == 1 || p.qos == 2 then
      AcknowledgedFirst(s, ReqPubxxx(if p.qos == 1 then 4 else 5, p.id), p, stale, s', rv)
    else s' == Noted(s, Delivered(p)) && rv == Ok
  }

  /** What a response does. */
  ghost predicate Responded(s: Session, r: Response, stale: Stale, s': Session, rv: Status) {
    match r
    case RPublish(_, _, _, _, _, _) => PublishDid(s, r, stale, s', rv)
    case RPubrec(id) =>
      if Holds(s.trace.queue, 6, id) then s' == s && rv == Ok else AnsweredAnswer(s, r, 6, id, stale, s', rv)
    case RPubrel(id) =>
      if !Awaits(s.trace.queue, r) then s' == WithError(s, AckOfUnknown) && rv == AckOfUnknown
      else AnsweredAnswer(Noted(s, Released(id)), r, 7, id, stale, s', rv)
    case _ => PlainAnswer(s, r, s', rv)
  }

  // ----- The switch ---------------------------------------------------------------------------------------

  /** The type and id by which the switch looks for the message. */
  function Wanted(r: Response): (nat, int)
    requires !r.RPublish?
  {
    match r
    case RConnack(_, _) => (CONNECT, ANY)
    case RPuback(id) => (PUBLISH, id)
    case RPubrec(id) => (PUBLISH, id)
    case RPubrel(id) => (PUBREC, id)
    case RPubcomp(id) => (PUBREL, id)
    case RSuback(id, _) => (SUBSCRIBE, id)
    case RUnsuback(id) => (UNSUBSCRIBE, id)
    case RPingresp => (PINGREQ, ANY)
  }

  lemma WantedAnswers(r: Response, m: Msg)
    requires !r.RPublish?
    ensures Matches(m, Wanted(r).0, Wanted(r).1) <==> Answers(r, m)
  {}

  lemma FindsFirst(s: Session, r: Response)
    requires Fits(s) && !r.RPublish?
    ensures var k := Find(s.trace.queue, Wanted(r).0, Wanted(r).1);
            && (k < |s.trace.queue| <==> Awaits(s.trace.queue, r))
            && (k < |s.trace.queue| ==> FirstCompleted(s, r, k, Finishing(s, k)))
  {
    hide Find, Matches, Answers, Wanted, Footprint;
    var q := s.trace.queue;
    forall i | 0 <= i < |q|
      ensures Matches(q[i], Wanted(r).0, Wanted(r).1) <==> Answers(r, q[i])
    {
      WantedAnswers(r, q[i]);
    }
  }

  lemma QueuedIff(s: Session, control: nat, id: u16)
    ensures Queued(s, control, id) <==> Holds(s.trace.queue, control, id)
  {
    var q, k := s.trace.queue, Find(s.trace.queue, control, id);
    if Holds(q, control, id) {
      var i :| 0 <= i < |q| && q[i].control == control && q[i].id == id;
      assert Matches(q[i], control, id);
    }
  }

  lemma ReleaseDoes(s: Session, r: Response)
    requires Fits(s) && !r.RPublish?
    ensures var (s', rv) := Release(s, Wanted(r).0, Wanted(r).1);
            if !Awaits(s.trace.queue, r) then s' == WithError(s, AckOfUnknown) && rv == AckOfUnknown
            else rv == Ok && FirstCompleted(s, r, Find(s.trace.queue, Wanted(r).0, Wanted(r).1), s')
  {
    hide Find, Awaits, FirstCompleted, Footprint, Finish;
    FindsFirst(s, r);
  }

  lemma PlainDoes(s: Session, r: Response, stale: Stale)
    requires Fits(s) && !r.RPublish? && !r.RPubrec? && !r.RPubrel?
    ensures var (s', rv) := Handle(s, r, stale); PlainAnswer(s, r, s', rv)
  {
    hide Release, Find, Awaits, FirstCompleted, Footprint;
    ReleaseDoes(s, r);
  }

  lemma PubrecDoes(s: Session, id: u16, stale: Stale)
    requires Fits(s)
    ensures var (s', rv) := HandlePubrec(s, id, stale); Responded(s, RPubrec(id), stale, s', rv)
  {
    hide Release, Find, Awaits, FirstCompleted, Holds, TryPack, Yields, Footprint;
    var r := RPubrec(id);
    QueuedIff(s, PUBREL, id);
    ReleaseDoes(s, r);
    var s1 := Release(s, PUBLISH, id).0;
    RequestYields(s1, ReqPubxxx(6, id), stale);
    ErrorIsResult(s1, ReqPubxxx(6, id), stale);
  }

  lemma ErrorIsResult(s: Session, req: Request, stale: Stale)
    requires Fits(s) && Sendable(req.Control())
    ensures var (s', rv) := TryPack(s, req, stale); rv != Ok ==> s'.error == rv
  {
    hide Request.Pack, Footprint;
  }

  lemma PubrelDoes(s: Session, id: u16, stale: Stale)
    requires Fits(s)
    ensures var (s', rv) := HandlePubrel(s, id, stale); Responded(s, RPubrel(id), stale, s', rv)
  {
    hide Find, Awaits, FirstCompleted, TryPack, Yields, Footprint, Finish;
    var r := RPubrel(id);
    FindsFirst(s, r);
    if Queued(s, PUBREC, id) {
      var noted := Noting(s, Released(id));
      FindsFirst(noted, r);
      var done := Finishing(noted, Find(s.trace.queue, PUBREC, id));
      RequestYields(done, ReqPubxxx(7, id), stale);
      ErrorIsResult(done, ReqPubxxx(7, id), stale);
    }
  }

  lemma PublishDoes(s: Session, p: Response, stale: Stale)
    requires Fits(s) && p.RPublish?
    ensures var (s', rv) := HandlePublish(s, p, stale); PublishDid(s, p, stale, s', rv)
  {
    hide TryPack, Yields, Footprint, Holds, Queued;
    QueuedIff(s, PUBREC, p.id);
    if (p.qos == 1 || p.qos == 2) && !(p.qos == 2 && Queued(s, PUBREC, p.id)) {
      var req := ReqPubxxx(if p.qos == 1 then 4 else 5, p.id);
      RequestYields(s, req, stale);
      ErrorIsResult(s, req, stale);
      var (s1, rv) := TryPack(s, req, stale);
      assert s1.(error := s1.error) == s1;
      var (s', rv') := HandlePublish(s, p, stale);
      assert (s', rv') == (if rv != Ok then s1 else Noted(s1, Delivered(p)), rv);
      assert Yields(s, req, stale, s1, rv);
      assert AcknowledgedFirst(s, req, p, stale, s', rv');
    }
  }

  /** The switch of __mqtt_recv */
  lemma ResponseDoes(s: Session, r: Response, stale: Stale)
    requires Fits(s)
    ensures var (s', rv) := Handle(s, r, stale); Responded(s, r, stale, s', rv)
  {
    hide HandlePublish, HandlePubrec, HandlePubrel, PublishDid, PlainAnswer, AnsweredAnswer, Footprint;
    match r
    case RPublish(_, _, _, _, _, _) => PublishDoes(s, r, stale);
    case RPubrec(id) => PubrecDoes(s, id, stale);
    case RPubrel(id) => PubrelDoes(s, id, stale);
    case _ => PlainDoes(s, r, stale);
  }
}
