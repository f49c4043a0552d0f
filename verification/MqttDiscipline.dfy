/**
 What every step of a client session keeps: the discipline of packet ids, the order of QoS 2
 transmissions, how often and with which flags each packet goes out, and the debt of a PUBREC for
 every QoS 2 delivery that has not been released.
 */
module MqttDiscipline {
  import opened Bytes
  import opened MqttTypes
  import opened MqttPacket
  import opened MqttQueue
  import opened MqttSession

  // ----- The queued messages ---------------------------------------------------------------------------

  predicate Wf(m: Msg) {
    m.bytes != [] && Sendable(m.control) && m.bytes[0] / 16 == m.control
  }

  predicate AllWf(q: seq<Msg>) {
    forall i :: 0 <= i < |q| ==> Wf(q[i])
  }

  /** The types whose id the client draws. */
  predicate DrawsId(control: nat) {
    control == PUBLISH || control == SUBSCRIBE || control == UNSUBSCRIBE
  }

  /** Two messages an acknowledgement could be confused about. */
  predicate Clash(m: Msg, n: Msg) {
    && m.id == n.id
    && ((DrawsId(m.control) && DrawsId(n.control)) || (m.control == n.control
        && (m.control == PUBREC || m.control == PUBREL)))
  }

  predicate Distinct(q: seq<Msg>) {
    forall i, j :: 0 <= i < j < |q| ==> !Clash(q[i], q[j])
  }

  /** No QoS 2 PUBLISH is on its way while an earlier one is not complete. */
  predicate OneInFlight(q: seq<Msg>) {
    forall i, j :: 0 <= i < j < |q| && Held(q[i]) && Qos2(q[j]) ==> q[j].state != AwaitingAck
  }

  // ----- The order of QoS 2 transmissions ---------------------------------------------------------------

  predicate SentQos2(e: Event) {
    e.Sent? && e.bytes != [] && e.bytes[0] / 16 == PUBLISH && QosOf(e.bytes[0]) == 2
  }

  predicate LogInOrder(log: seq<Event>) {
    forall a, b :: 0 <= a < b < |log| && SentQos2(log[a]) && SentQos2(log[b]) ==> log[a].serial <= log[b].serial
  }

  /** A QoS 2 PUBLISH that is not complete comes no earlier than any that has been sent. */
  predicate NoneOvertaken(t: Trace) {
    forall a, j :: 0 <= a < |t.log| && 0 <= j < |t.queue| && SentQos2(t.log[a]) && Held(t.queue[j])
        ==> t.log[a].serial <= t.removed + j
  }

  predicate SentWereQueued(t: Trace) {
    forall a :: 0 <= a < |t.log| && t.log[a].Sent? ==> t.log[a].serial < t.removed + |t.queue|
  }

  predicate InOrder(t: Trace) {
    LogInOrder(t.log) && NoneOvertaken(t) && SentWereQueued(t)
  }

  // ----- The order of first transmissions ---------------------------------------------------------------

  predicate SentBefore(log: seq<Event>, n: nat, a: nat)
    requires a <= |log|
  {
    exists c :: 0 <= c < a && log[c].Sent? && log[c].serial == n
  }

  /** Whatever is sent, apart from QoS 2 PUBLISHes, was sent before anything queued behind it. */
  predicate FirstsInOrder(log: seq<Event>) {
    forall a, b :: 0 <= a < |log| && 0 <= b < |log| && log[a].Sent? && log[b].Sent? && log[b].serial < log[a].serial
        && !SentQos2(log[b])
      ==> SentBefore(log, log[b].serial, a)
  }

  /** Nothing behind an unsent message has been sent, unless that is a QoS 2 PUBLISH. */
  predicate NonePassed(t: Trace) {
    forall a, i :: 0 <= a < |t.log| && 0 <= i < |t.queue| && t.log[a].Sent? && t.queue[i].state == Unsent
        && !Qos2(t.queue[i])
      ==> t.log[a].serial <= t.removed + i
  }

  // ----- The transmissions of a packet ------------------------------------------------------------------

  /** The bytes sent for packet `n`, one entry a transmission. */
  function Transmissions(log: seq<Event>, n: nat): seq<seq<byte>> {
    if log == [] then []
    else
      var before, e := Transmissions(log[..|log| - 1], n), log[|log| - 1];
      if e.Sent? && e.serial == n then before + [e.bytes] else before
  }

  function ControlOf(packet: seq<byte>): nat
    requires packet != []
  {
    packet[0] / 16
  }

  /** A packet goes out as it was queued, and any later time as it may be resent; if no answer is due, once. */
  predicate Regular(packet: seq<byte>, sent: seq<seq<byte>>) {
    && packet != []
    && (forall k :: 0 <= k < |sent| ==> sent[k] == if k == 0 then packet else Resent(ControlOf(packet), packet))
    && (OneShot(ControlOf(packet), packet) ==> |sent| <= 1)
  }

  /** How a queued message stands to its packet and its transmissions. */
  predicate Reflects(m: Msg, packet: seq<byte>, sent: seq<seq<byte>>)
    requires packet != []
  {
    && m.control == ControlOf(packet)
    && (m.state == Unsent ==> sent == [] && m.bytes == packet)
    && (m.state == AwaitingAck
        ==> sent != [] && m.bytes == Resent(ControlOf(packet), packet) && !OneShot(ControlOf(packet), packet))
  }

  predicate Recorded(t: Trace, n: nat)
    requires n < |t.packets| == t.removed + |t.queue|
  {
    var sent := Transmissions(t.log, n);
    && Regular(t.packets[n], sent)
    && (n >= t.removed ==> Reflects(t.queue[n - t.removed], t.packets[n], sent))
  }

  predicate AllRecorded(t: Trace) {
    && |t.packets| == t.removed + |t.queue|
    && forall n :: 0 <= n < |t.packets| ==> Recorded(t, n)
  }

  // ----- QoS 2 deliveries -------------------------------------------------------------------------------

  predicate Delivery(e: Event, id: u16) {
    e.Delivered? && e.publish.RPublish? && e.publish.qos == 2 && e.publish.id == id
  }

  /** A QoS 2 PUBLISH with this id has been delivered, and not been released since. */
  predicate Open(log: seq<Event>, id: u16) {
    log != [] && (var e := log[|log| - 1]; Delivery(e, id) || (e != Released(id) && Open(log[..|log| - 1], id)))
  }

  /** The PUBREC for an open delivery. */
  predicate Owed(m: Msg, id: u16) {
    m.control == PUBREC && m.id == id && m.state != Complete
  }

  predicate OwedIn(q: seq<Msg>, id: u16) {
    exists j :: 0 <= j < |q| && Owed(q[j], id)
  }

  predicate OpenAreOwed(t: Trace) {
    forall id: u16 :: Open(t.log, id) ==> OwedIn(t.queue, id)
  }

  /** Between two deliveries with the same id there is a release of that id. */
  predicate AtMostOnce(log: seq<Event>) {
    forall id: u16, a, b :: 0 <= a < b < |log| && Delivery(log[a], id) && Delivery(log[b], id)
        ==> ReleasedBetween(log, id, a, b)
  }

  predicate ReleasedBetween(log: seq<Event>, id: u16, a: nat, b: nat)
    requires a < b < |log|
  {
    exists c :: a < c < b && log[c] == Released(id)
  }

  predicate Inv(t: Trace) {
    AllWf(t.queue) && Distinct(t.queue) && OneInFlight(t.queue) && InOrder(t) && FirstsInOrder(t.log) && NonePassed(t)
        && AllRecorded(t) && OpenAreOwed(t) && AtMostOnce(t.log)
  }

  // ----- Append ------------------------------------------------------------------------------------------

  predicate Fresh(q: seq<Msg>, m: Msg) {
    forall i :: 0 <= i < |q| ==> !Clash(q[i], m)
  }

  lemma AppendRecorded(t: Trace, m: Msg)
    requires Inv(t) && Wf(m) && m.state == Unsent
    ensures AllRecorded(Append(t, m))
  {
    var t' := Append(t, m);
    forall n | 0 <= n < |t'.packets|
      ensures Recorded(t', n)
    {
      if n < |t.packets| {
        assert Recorded(t, n);
      } else {
        NotYetSent(t.log, n, t.removed + |t.queue|);
      }
    }
  }

  lemma {:induction false} NotYetSent(log: seq<Event>, n: nat, queued: nat)
    requires forall a :: 0 <= a < |log| && log[a].Sent? ==> log[a].serial < queued
    requires n >= queued
    ensures Transmissions(log, n) == []
  {
    if log != [] { NotYetSent(log[..|log| - 1], n, queued); }
  }

  lemma AppendOwed(t: Trace, m: Msg)
    requires OpenAreOwed(t)
    ensures OpenAreOwed(Append(t, m))
  {
    forall id: u16 | Open(t.log, id)
      ensures OwedIn(t.queue + [m], id)
    {
      var j :| 0 <= j < |t.queue| && Owed(t.queue[j], id);
      assert (t.queue + [m])[j] == t.queue[j];
    }
  }

  lemma AppendKeeps(t: Trace, m: Msg)
    requires Inv(t) && Wf(m) && m.state == Unsent && Fresh(t.queue, m)
    ensures Inv(Append(t, m))
  {
    AppendRecorded(t, m);
    AppendOwed(t, m);
    var t' := Append(t, m);
    assert OneInFlight(t'.queue);
    assert InOrder(t');
  }

  // ----- Clean -------------------------------------------------------------------------------------------

  lemma CleanRecorded(t: Trace)
    requires AllRecorded(t)
    ensures AllRecorded(Clean(t))
  {
    forall n | 0 <= n < |t.packets|
      ensures Recorded(Clean(t), n)
    {
      assert Recorded(t, n);
    }
  }

  lemma CleanOwed(t: Trace)
    requires OpenAreOwed(t)
    ensures OpenAreOwed(Clean(t))
  {
    DoneIsLongest(t.queue);
    forall id: u16 | Open(t.log, id)
      ensures OwedIn(Cleaned(t.queue), id)
    {
      var j :| 0 <= j < |t.queue| && Owed(t.queue[j], id);
      assert Cleaned(t.queue)[j - Done(t.queue)] == t.queue[j];
    }
  }

  lemma CleanKeeps(t: Trace)
    requires Inv(t)
    ensures Inv(Clean(t))
  {
    CleanRecorded(t);
    CleanOwed(t);
    var t', k := Clean(t), Done(t.queue);
    forall a, j | 0 <= a < |t'.log| && 0 <= j < |t'.queue| && SentQos2(t'.log[a]) && Held(t'.queue[j])
      ensures t'.log[a].serial <= t'.removed + j
    {
      assert Held(t.queue[k + j]);
    }
    forall a, i | 0 <= a < |t'.log| && 0 <= i < |t'.queue| && t'.log[a].Sent? && t'.queue[i].state == Unsent
        && !Qos2(t'.queue[i])
      ensures t'.log[a].serial <= t'.removed + i
    {
      assert t'.queue[i] == t.queue[k + i];
    }
  }

  // ----- Finish ------------------------------------------------------------------------------------------

  lemma FinishRecorded(t: Trace, k: nat)
    requires AllRecorded(t) && k < |t.queue|
    ensures AllRecorded(Finish(t, k))
  {
    forall n | 0 <= n < |t.packets|
      ensures Recorded(Finish(t, k), n)
    {
      assert Recorded(t, n);
    }
  }

  lemma FinishOwed(t: Trace, k: nat)
    requires OpenAreOwed(t) && k < |t.queue| && (t.queue[k].control == PUBREC ==> !Open(t.log, t.queue[k].id))
    ensures OpenAreOwed(Finish(t, k))
  {
    forall id: u16 | Open(t.log, id)
      ensures OwedIn(Finish(t, k).queue, id)
    {
      var j :| 0 <= j < |t.queue| && Owed(t.queue[j], id);
      assert Finish(t, k).queue[j] == t.queue[j];
    }
  }

  lemma FinishKeeps(t: Trace, k: nat)
    requires Inv(t) && k < |t.queue| && (t.queue[k].control == PUBREC ==> !Open(t.log, t.queue[k].id))
    ensures Inv(Finish(t, k))
  {
    FinishRecorded(t, k);
    FinishOwed(t, k);
    FinishDistinct(t.queue, k);
    var q' := Finish(t, k).queue;
    assert forall j :: 0 <= j < |q'| && Held(q'[j]) ==> Held(t.queue[j]);
  }

  lemma FinishDistinct(q: seq<Msg>, k: nat)
    requires Distinct(q) && OneInFlight(q) && k < |q|
    ensures Distinct(q[k := q[k].(state := Complete)]) && OneInFlight(q[k := q[k].(state := Complete)])
  {
    var q' := q[k := q[k].(state := Complete)];
    forall i, j | 0 <= i < j < |q'|
      ensures !Clash(q'[i], q'[j])
      ensures Held(q'[i]) && Qos2(q'[j]) ==> q'[j].state != AwaitingAck
    {
      assert !Clash(q[i], q[j]);
      assert Held(q[i]) && Qos2(q[j]) ==> q[j].state != AwaitingAck;
    }
  }

  // ----- Note --------------------------------------------------------------------------------------------

  lemma TransmissionsAppend(log: seq<Event>, e: Event, n: nat)
    ensures Transmissions(log + [e], n) == Transmissions(log, n) + if e.Sent? && e.serial == n then [e.bytes] else []
  {
    assert (log + [e])[..|log|] == log;
  }

  lemma OpenAppend(log: seq<Event>, e: Event, id: u16)
    ensures Open(log + [e], id) <==> Delivery(e, id) || (e != Released(id) && Open(log, id))
  {
    assert (log + [e])[..|log|] == log;
  }

  /** A delivery that is no longer open has been released. */
  lemma {:induction false} ClosedByRelease(log: seq<Event>, id: u16, a: nat) returns (c: nat)
    requires a < |log| && Delivery(log[a], id) && !Open(log, id)
    ensures a < c < |log| && log[c] == Released(id)
    decreases |log|
  {
    var e := log[|log| - 1];
    if e == Released(id) {
      c := |log| - 1;
    } else {
      c := ClosedByRelease(log[..|log| - 1], id, a);
    }
  }

  lemma NoteAtMostOnce(log: seq<Event>, e: Event)
    requires AtMostOnce(log) && forall id: u16 :: Delivery(e, id) ==> !Open(log, id)
    ensures AtMostOnce(log + [e])
  {
    var log' := log + [e];
    forall id: u16, a, b | 0 <= a < b < |log'| && Delivery(log'[a], id) && Delivery(log'[b], id)
      ensures ReleasedBetween(log', id, a, b)
    {
      if b < |log| {
        assert Delivery(log[a], id) && Delivery(log[b], id);
        assert ReleasedBetween(log, id, a, b);
        var c :| a < c < b && log[c] == Released(id);
        assert log'[c] == Released(id);
      } else {
        var c := ClosedByRelease(log, id, a);
        assert log'[c] == Released(id);
      }
    }
  }

  lemma OtherEventKeepsOrder(log: seq<Event>, e: Event)
    requires FirstsInOrder(log) && !e.Sent?
    ensures FirstsInOrder(log + [e])
  {
    var log' := log + [e];
    forall a, b | 0 <= a < |log'| && 0 <= b < |log'| && log'[a].Sent? && log'[b].Sent?
        && log'[b].serial < log'[a].serial && !SentQos2(log'[b])
      ensures SentBefore(log', log'[b].serial, a)
    {
      assert SentBefore(log, log[b].serial, a);
      var c :| 0 <= c < a && log[c].Sent? && log[c].serial == log[b].serial;
      assert log'[c] == log[c];
    }
  }

  lemma NoteRecorded(t: Trace, e: Event)
    requires AllRecorded(t) && !e.Sent?
    ensures AllRecorded(Note(t, e))
  {
    forall n | 0 <= n < |t.packets|
      ensures Recorded(Note(t, e), n)
    {
      assert Recorded(t, n);
      TransmissionsAppend(t.log, e, n);
    }
  }

  lemma NoteKeeps(t: Trace, e: Event)
    requires Inv(t) && !e.Sent?
    requires forall id: u16 :: Delivery(e, id) ==> !Open(t.log, id) && OwedIn(t.queue, id)
    ensures Inv(Note(t, e))
  {
    NoteRecorded(t, e);
    NoteAtMostOnce(t.log, e);
    OtherEventKeepsOrder(t.log, e);
    forall id: u16 | Open(t.log + [e], id)
      ensures OwedIn(t.queue, id)
    {
      OpenAppend(t.log, e, id);
    }
  }

  // ----- Transmit ----------------------------------------------------------------------------------------

  lemma ResentFacts(control: nat, bytes: seq<byte>)
    requires bytes != []
    ensures var r := Resent(control, bytes);
            && r[0] / 16 == bytes[0] / 16 && QosOf(r[0]) == QosOf(bytes[0])
            && Resent(control, r) == r && OneShot(control, r) == OneShot(control, bytes)
            && (control == PUBLISH && QosOf(bytes[0]) == 1 ==> DupOf(r[0]) == 1 && RetainOf(r[0]) == RetainOf(bytes[0]))
            && (!(control == PUBLISH && QosOf(bytes[0]) == 1) ==> r == bytes)
  {
    DupFlagOnly(bytes[0]);
    var b := bytes[0];
    assert WithDup(WithDup(b)) == WithDup(b) by {
      DupFlagOnly(WithDup(b));
      FieldsOf(WithDup(b));
      FieldsOf(WithDup(WithDup(b)));
    }
  }

  predicate OnlyHeldBack(q: seq<Msg>, i: nat)
    requires i <= |q|
  {
    forall j :: 0 <= j < i && q[j].state == Unsent ==> Qos2(q[j])
  }

  /** When the send loop sends message `i`. */
  predicate MayGo(q: seq<Msg>, i: nat)
    requires i < |q|
  {
    q[i].state != Complete && OnlyHeldBack(q, i) && (Qos2(q[i]) ==> forall j :: 0 <= j < i ==> !Held(q[j]))
  }

  lemma TransmitQueue(q: seq<Msg>, i: nat, now: int)
    requires AllWf(q) && Distinct(q) && OneInFlight(q) && i < |q| && MayGo(q, i)
    ensures var q' := q[i := AfterSend(q[i], now)];
            && AllWf(q') && Distinct(q') && OneInFlight(q')
            && (Qos2(q'[i]) <==> Qos2(q[i])) && (Held(q'[i]) ==> Held(q[i]))
  {
    ResentFacts(q[i].control, q[i].bytes);
    var q' := q[i := AfterSend(q[i], now)];
    forall a, b | 0 <= a < b < |q'|
      ensures !Clash(q'[a], q'[b])
      ensures Held(q'[a]) && Qos2(q'[b]) ==> q'[b].state != AwaitingAck
    {
      assert !Clash(q[a], q[b]);
      assert Held(q[a]) && Qos2(q[b]) ==> q[b].state != AwaitingAck;
    }
  }

  lemma TransmitInOrder(t: Trace, i: nat, now: int)
    requires Inv(t) && i < |t.queue| && MayGo(t.queue, i)
    ensures InOrder(Transmit(t, i, now))
  {
    TransmitQueue(t.queue, i, now);
    var t', e := Transmit(t, i, now), Sent(t.removed + i, t.queue[i].bytes);
    assert Wf(t.queue[i]);
    assert SentQos2(e) ==> Qos2(t.queue[i]) && Held(t.queue[i]);
    assert forall j :: 0 <= j < |t.queue| && Held(t'.queue[j]) ==> Held(t.queue[j]);
    forall a, b | 0 <= a < b < |t'.log| && SentQos2(t'.log[a]) && SentQos2(t'.log[b])
      ensures t'.log[a].serial <= t'.log[b].serial
    {
      assert a < |t.log| && SentQos2(t.log[a]);
    }
  }

  lemma {:induction false} SentSome(log: seq<Event>, n: nat) returns (c: nat)
    requires Transmissions(log, n) != []
    ensures c < |log| && log[c].Sent? && log[c].serial == n && log[c].bytes
            == Transmissions(log, n)[|Transmissions(log, n)| - 1]
    decreases |log|
  {
    var e := log[|log| - 1];
    if e.Sent? && e.serial == n { c := |log| - 1; } else { c := SentSome(log[..|log| - 1], n); }
  }

  /** The message about to be sent was sent before anything behind it, or nothing behind it was sent. */
  lemma TurnComes(t: Trace, i: nat, a: nat)
    requires Inv(t) && i < |t.queue| && MayGo(t.queue, i) && !Qos2(t.queue[i])
    requires a < |t.log| && t.log[a].Sent? && t.removed + i < t.log[a].serial
    ensures SentBefore(t.log, t.removed + i, a)
  {
    var n, m := t.removed + i, t.queue[i];
    assert Recorded(t, n) && Wf(m);
    var b := SentSome(t.log, n);
    ResentFacts(m.control, t.packets[n]);
    assert !SentQos2(t.log[b]);
  }

  lemma TransmitFirsts(t: Trace, i: nat, now: int)
    requires Inv(t) && i < |t.queue| && MayGo(t.queue, i)
    ensures FirstsInOrder(Transmit(t, i, now).log)
  {
    var log, log' := t.log, Transmit(t, i, now).log;
    assert Wf(t.queue[i]);
    forall a, b | 0 <= a < |log'| && 0 <= b < |log'| && log'[a].Sent? && log'[b].Sent?
        && log'[b].serial < log'[a].serial && !SentQos2(log'[b])
      ensures SentBefore(log', log'[b].serial, a)
    {
      if a == |log| {
        assert log'[b] == log[b];
      } else {
        if b == |log| { TurnComes(t, i, a); }
        assert SentBefore(log, log'[b].serial, a);
        var c :| 0 <= c < a && log[c].Sent? && log[c].serial == log'[b].serial;
        assert log'[c] == log[c];
      }
    }
  }

  lemma TransmitRecords(t: Trace, i: nat, now: int)
    requires Inv(t) && i < |t.queue| && MayGo(t.queue, i)
    ensures Recorded(Transmit(t, i, now), t.removed + i)
  {
    var n, m := t.removed + i, t.queue[i];
    var packet, sent := t.packets[n], Transmissions(t.log, n);
    assert Recorded(t, n) && Wf(m);
    TransmissionsAppend(t.log, Sent(n, m.bytes), n);
    ResentFacts(m.control, packet);
  }

  lemma TransmitRecorded(t: Trace, i: nat, now: int)
    requires Inv(t) && i < |t.queue| && MayGo(t.queue, i)
    ensures AllRecorded(Transmit(t, i, now))
  {
    var t' := Transmit(t, i, now);
    forall n | 0 <= n < |t'.packets|
      ensures Recorded(t', n)
    {
      if n == t.removed + i {
        TransmitRecords(t, i, now);
      } else {
        assert Recorded(t, n);
        TransmissionsAppend(t.log, Sent(t.removed + i, t.queue[i].bytes), n);
      }
    }
  }

  lemma TransmitOwed(t: Trace, i: nat, now: int)
    requires Inv(t) && i < |t.queue|
    ensures OpenAreOwed(Transmit(t, i, now))
  {
    var t', e := Transmit(t, i, now), Sent(t.removed + i, t.queue[i].bytes);
    forall id: u16 | Open(t'.log, id)
      ensures OwedIn(t'.queue, id)
    {
      OpenAppend(t.log, e, id);
      var j :| 0 <= j < |t.queue| && Owed(t.queue[j], id);
      assert Owed(t'.queue[j], id);
    }
  }

  lemma TransmitKeeps(t: Trace, i: nat, now: int)
    requires Inv(t) && i < |t.queue| && MayGo(t.queue, i)
    ensures Inv(Transmit(t, i, now))
  {
    TransmitQueue(t.queue, i, now);
    TransmitInOrder(t, i, now);
    TransmitFirsts(t, i, now);
    TransmitRecorded(t, i, now);
    TransmitOwed(t, i, now);
    NoteAtMostOnce(t.log, Sent(t.removed + i, t.queue[i].bytes));
  }
}
