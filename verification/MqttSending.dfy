/**
 What a send does (libs/mqtt.c, __mqtt_send), message by message and in numbers: which messages go out, at which time a
 late answer makes one go out again, how each is left, and when a PINGREQ is queued.
 */
module MqttSending {
  import opened Bytes
  import opened MqttTypes
  import opened MqttPacket
  import opened MqttCodec
  import opened MqttQueue
  import opened MqttSession
  import opened MqttDiscipline
  import opened MqttRequests
  import opened MqttRuns
  import opened MqttGuarantees

  // ----- Message by message -------------------------------------------------------------------------------

  /** A PUBLISH of QoS 2 whose exchange has not got to its PUBREC. */
  predicate Unfinished2(m: Msg) {
    m.control == 3 && m.bytes != [] && m.bytes[0] / 2 % 4 == 2 && m.state != Complete
  }

  /** Such a PUBLISH waits for the ones before it. */
  predicate Waits(q: seq<Msg>, k: nat)
    requires k < |q|
  {
    Unfinished2(q[k]) && exists j :: 0 <= j < k && Unfinished2(q[j])
  }

  /** The answer to a message is late: the clock is read for it in turn. */
  predicate Late(q: seq<Msg>, k: nat, env: Env, timeout: int)
    requires k < |q|
  {
    q[k].state == AwaitingAck && env.clock(2 * k) > q[k].timeSent + timeout
  }

  /** Message `k` is to be sent: it is new, or its answer is late, and it does not wait. */
  predicate IsSent(q: seq<Msg>, k: nat, env: Env, timeout: int)
    requires k < |q|
  {
    (q[k].state == Unsent || Late(q, k, env, timeout)) && !Waits(q, k)
  }

  /** From message `i` on, no message in front of `k` fails to go out. */
  predicate Clear(q: seq<Msg>, i: nat, k: nat, env: Env, timeout: int)
    requires k <= |q|
  {
    forall j :: i <= j < k && IsSent(q, j, env, timeout) ==> env.net(j) == Ok
  }

  /** Message `k` goes out, when the loop is at message `i`. */
  predicate GoesOut(q: seq<Msg>, i: nat, k: nat, env: Env, timeout: int)
    requires k < |q|
  {
    i <= k && Clear(q, i, k, env, timeout) && IsSent(q, k, env, timeout) && env.net(k) == Ok
  }

  /** Message `k` is the one that fails to go out. */
  predicate Fails(q: seq<Msg>, i: nat, k: nat, env: Env, timeout: int)
    requires k < |q|
  {
    i <= k && Clear(q, i, k, env, timeout) && IsSent(q, k, env, timeout) && env.net(k) != Ok
  }

  /** PUBACK, PUBCOMP, DISCONNECT, and a PUBLISH of QoS 0: nothing will answer them. */
  predicate NeedsNoAnswer(m: Msg)
    requires m.bytes != []
  {
    m.control == 4 || m.control == 7 || m.control == 14 || (m.control == 3 && m.bytes[0] / 2 % 4 == 0)
  }

  /** The first byte with bit 3, DUP, set. */
  function Again(first: byte): nat {
    if first / 8 % 2 == 1 then first else first + 8
  }

  /** How a message is left that went out at time `now`; a PUBLISH of QoS 1 is marked for the next time. */
  predicate Left(m: Msg, m': Msg, now: int)
    requires m.bytes != []
  {
    && m'.control == m.control && m'.id == m.id && m'.timeSent == now
    && m'.state == (if NeedsNoAnswer(m) then Complete else AwaitingAck)
    && |m'.bytes| == |m.bytes| && m'.bytes[1..] == m.bytes[1..]
    && m'.bytes[0] == if m.control == 3 && m.bytes[0] / 2 % 4 == 1 then Again(m.bytes[0]) else m.bytes[0]
  }

  /** Late messages up to one that fails to go out; those that wait count as well. */
  function LateOnes(q: seq<Msg>, i: nat, env: Env, timeout: int): nat
    requires i <= |q|
    decreases |q| - i
  {
    if i == |q| then 0
    else
      (if Late(q, i, env, timeout) then 1 else 0)
      + if IsSent(q, i, env, timeout) && env.net(i) != Ok then 0 else LateOnes(q, i + 1, env, timeout)
  }

  /** What became of message `k` and of its transmissions. */
  predicate Fate(s: Session, s': Session, k: nat, out: bool, now: int)
    requires k < |s.trace.queue| == |s'.trace.queue| && s.trace.queue[k].bytes != []
  {
    var m, m', n := s.trace.queue[k], s'.trace.queue[k], s.trace.removed + k;
    if out then Left(m, m', now) && Transmissions(s'.trace.log, n) == Transmissions(s.trace.log, n) + [m.bytes]
    else m' == m && Transmissions(s'.trace.log, n) == Transmissions(s.trace.log, n)
  }

  /** Nothing but states, times, marks, the log, the error, the time of the last send and the timeouts may differ. */
  predicate SameOtherwise(s: Session, s': Session) {
    && |s'.trace.queue| == |s.trace.queue|
    && s' == s.(trace := s.trace.(queue := s'.trace.queue, log := s'.trace.log), error := s'.error,
                lastSend := s'.lastSend, timeouts := s'.timeouts)
  }

  predicate AllPacked(q: seq<Msg>) {
    forall i :: 0 <= i < |q| ==> q[i].bytes != []
  }

  /** What the loop over the queue does from message `i` on. */
  predicate LoopDid(s: Session, i: nat, env: Env, s': Session, rv: Status)
    requires AllPacked(s.trace.queue) && i <= |s.trace.queue|
  {
    var q, timeout := s.trace.queue, s.responseTimeout;
    && SameOtherwise(s, s')
    && (forall k :: 0 <= k < |q| ==> Fate(s, s', k, GoesOut(q, i, k, env, timeout), env.clock(2 * k + 1)))
    && (Clear(q, i, |q|, env, timeout) ==> rv == Ok && s'.error == s.error)
    && (forall k :: 0 <= k < |q| && Fails(q, i, k, env, timeout) ==> rv == s'.error == env.net(k))
    && LastSent(q, i, env, timeout, s.lastSend, s'.lastSend)
    && s'.timeouts == s.timeouts + LateOnes(q, i, env, timeout)
  }

  predicate LastOut(q: seq<Msg>, i: nat, k: nat, env: Env, timeout: int)
    requires k < |q|
  {
    GoesOut(q, i, k, env, timeout) && forall j :: k < j < |q| ==> !GoesOut(q, i, j, env, timeout)
  }

  /** The time of the last message that goes out. */
  predicate LastSent(q: seq<Msg>, i: nat, env: Env, timeout: int, before: int, after: int) {
    && (forall k :: 0 <= k < |q| && LastOut(q, i, k, env, timeout) ==> after == env.clock(2 * k + 1))
    && (NoneOut(q, i, env, timeout) ==> after == before)
  }

  predicate NoneOut(q: seq<Msg>, i: nat, env: Env, timeout: int) {
    forall j :: 0 <= j < |q| ==> !GoesOut(q, i, j, env, timeout)
  }

  // ----- One turn of the loop -----------------------------------------------------------------------------

  predicate Unfinished2Before(q: seq<Msg>, i: nat)
    requires i <= |q|
  {
    exists j :: 0 <= j < i && Unfinished2(q[j])
  }

  /** What one turn does, message `i` being `m`. */
  predicate TurnDid(s: Session, i: nat, env: Env, s': Session, rv: Status)
    requires i < |s.trace.queue| && s.trace.queue[i].bytes != []
  {
    var q, m, timeout, now := s.trace.queue, s.trace.queue[i], s.responseTimeout, env.clock(2 * i + 1);
    var counted := s.(timeouts := s.timeouts + if Late(q, i, env, timeout) then 1 else 0);
    if !IsSent(q, i, env, timeout) then s' == counted && rv == Ok
    else if env.net(i) != Ok then s' == counted.(error := env.net(i)) && rv == env.net(i)
    else
      && |s'.trace.queue| == |q| && Left(m, s'.trace.queue[i], now) && rv == Ok
      && s' == counted.(lastSend := now, trace := s.trace.(
                 queue := q[i := s'.trace.queue[i]], log := s.trace.log + [Sent(s.trace.removed + i, m.bytes)]))
  }

  lemma HeldIsUnfinished(m: Msg)
    ensures Held(m) <==> Unfinished2(m)
  {}

  lemma SentIsLeft(m: Msg, now: int)
    requires m.bytes != []
    ensures Left(m, AfterSend(m, now), now)
  {
    DupIsSet(m.bytes[0]);
  }

  lemma DupIsSet(first: byte)
    ensures WithDup(first) == Again(first)
  {
    FieldsOf(first);
    var low := first % 16;
    assert first == 16 * (first / 16) + low && first / 8 == 2 * (first / 16) + low / 8;
    assert first % 8 == low % 8;
  }

  lemma TurnDoes(s: Session, i: nat, inflight: bool, env: Env)
    requires Fits(s) && i < |s.trace.queue| && (inflight <==> Unfinished2Before(s.trace.queue, i))
    ensures var (s', rv) := SendOne(s, i, inflight, env); TurnDid(s, i, env, s', rv)
  {
    hide AfterSend, Left, Footprint, Held, Unfinished2;
    var m := s.trace.queue[i];
    HeldIsUnfinished(m);
    SentIsLeft(m, env.clock(2 * i + 1));
  }

  lemma LeftUnfinished(m: Msg, m': Msg, now: int)
    requires m.bytes != [] && m.state != Complete && Left(m, m', now)
    ensures m'.bytes != [] && (Unfinished2(m') <==> Unfinished2(m))
  {}

  /** Behind message `i` nothing changes by what becomes of it. */
  lemma SameBehind(q: seq<Msg>, q': seq<Msg>, i: nat, k: nat, env: Env, timeout: int)
    requires |q'| == |q| && i < k < |q| && q' == q[i := q'[i]] && (Unfinished2(q'[i]) <==> Unfinished2(q[i]))
    ensures IsSent(q', k, env, timeout) == IsSent(q, k, env, timeout)
    ensures Late(q', k, env, timeout) == Late(q, k, env, timeout)
  {
    hide Unfinished2;
    if Unfinished2Before(q, k) {
      var j :| 0 <= j < k && Unfinished2(q[j]);
      assert Unfinished2(q'[j]);
    }
    if Unfinished2Before(q', k) {
      var j :| 0 <= j < k && Unfinished2(q'[j]);
      assert Unfinished2(q[j]);
    }
    WaitsIff(q, k);
    WaitsIff(q', k);
  }

  lemma WaitsIff(q: seq<Msg>, k: nat)
    requires k < |q|
    ensures Waits(q, k) <==> Unfinished2(q[k]) && Unfinished2Before(q, k)
  {}

  lemma {:induction false} SameLate(q: seq<Msg>, q': seq<Msg>, i: nat, k: nat, env: Env, timeout: int)
    requires |q'| == |q| && i < k <= |q| && q' == q[i := q'[i]] && (Unfinished2(q'[i]) <==> Unfinished2(q[i]))
    ensures LateOnes(q', k, env, timeout) == LateOnes(q, k, env, timeout)
    decreases |q| - k
  {
    hide IsSent, Late, Unfinished2;
    if k < |q| {
      SameBehind(q, q', i, k, env, timeout);
      SameLate(q, q', i, k + 1, env, timeout);
    }
  }

  /** What is sent behind message `i` is so in either view. */
  lemma NextView(q: seq<Msg>, q': seq<Msg>, i: nat, env: Env, timeout: int)
    requires |q'| == |q| && i < |q| && q' == q[i := q'[i]] && (Unfinished2(q'[i]) <==> Unfinished2(q[i]))
    requires IsSent(q, i, env, timeout) ==> env.net(i) == Ok
    ensures forall k :: i < k <= |q| ==> (Clear(q', i + 1, k, env, timeout) <==> Clear(q, i, k, env, timeout))
    ensures forall k :: i < k < |q| ==> (GoesOut(q', i + 1, k, env, timeout) <==> GoesOut(q, i, k, env, timeout))
    ensures forall k :: i < k < |q| ==> (Fails(q', i + 1, k, env, timeout) <==> Fails(q, i, k, env, timeout))
    ensures LateOnes(q', i + 1, env, timeout) == LateOnes(q, i + 1, env, timeout)
  {
    hide IsSent, Late, Unfinished2;
    forall k | i < k < |q|
      ensures IsSent(q', k, env, timeout) == IsSent(q, k, env, timeout)
    {
      SameBehind(q, q', i, k, env, timeout);
    }
    SameLate(q, q', i, i + 1, env, timeout);
    hide LateOnes;
    forall k | i < k <= |q|
      ensures Clear(q', i + 1, k, env, timeout) <==> Clear(q, i, k, env, timeout)
    {
      ClearFrom(q, q', i, k, env, timeout);
    }
  }

  lemma ClearFrom(q: seq<Msg>, q': seq<Msg>, i: nat, k: nat, env: Env, timeout: int)
    requires |q'| == |q| && i < k <= |q|
    requires forall j :: i < j < |q| ==> IsSent(q', j, env, timeout) == IsSent(q, j, env, timeout)
    requires IsSent(q, i, env, timeout) ==> env.net(i) == Ok
    ensures Clear(q', i + 1, k, env, timeout) <==> Clear(q, i, k, env, timeout)
  {
    hide IsSent;
  }

  lemma TransmissionsNext(s: Session, s1: Session, i: nat, k: nat, out: bool, now: int)
    requires i < |s.trace.queue| && k < |s.trace.queue| && AllPacked(s.trace.queue)
    requires |s1.trace.queue| == |s.trace.queue| && s1.trace.removed == s.trace.removed
    requires if out then Left(s.trace.queue[i], s1.trace.queue[i], now)
                         && s1.trace.queue == s.trace.queue[i := s1.trace.queue[i]]
                         && s1.trace.log == s.trace.log + [Sent(s.trace.removed + i, s.trace.queue[i].bytes)]
             else s1.trace.queue == s.trace.queue && s1.trace.log == s.trace.log
    ensures Fate(s, s1, k, out && k == i, now)
  {
    hide Left;
    TransmissionsAppend(s.trace.log, Sent(s.trace.removed + i, s.trace.queue[i].bytes), s.trace.removed + k);
  }

  lemma FatesJoin(s: Session, s1: Session, s': Session, k: nat, first: bool, second: bool, now: int)
    requires k < |s.trace.queue| == |s1.trace.queue| == |s'.trace.queue| && s1.trace.removed == s.trace.removed
    requires s.trace.queue[k].bytes != [] && s1.trace.queue[k].bytes != [] && !(first && second)
    requires Fate(s, s1, k, first, now) && Fate(s1, s', k, second, now)
    ensures Fate(s, s', k, first || second, now)
  {
    hide Left, Transmissions;
  }

  /** The rest of the loop behind a turn that went well. */
  lemma TurnThenRest(s: Session, i: nat, env: Env, s1: Session, s': Session, rv: Status)
    requires i < |s.trace.queue| && AllPacked(s.trace.queue) && AllPacked(s1.trace.queue)
    requires TurnDid(s, i, env, s1, Ok)
    requires |s1.trace.queue| == |s.trace.queue| && LoopDid(s1, i + 1, env, s', rv)
    ensures LoopDid(s, i, env, s', rv)
  {
    hide IsSent, Late, Left, Fate, Clear, GoesOut, Fails, Unfinished2, LateOnes, LastSent;
    var q, q1, timeout, now := s.trace.queue, s1.trace.queue, s.responseTimeout, env.clock(2 * i + 1);
    TurnFrame(s, i, env, s1);
    NextView(q, q1, i, env, timeout);
    HereView(q, i, env, timeout);
    FatesOfLoop(s, i, env, s1, s', rv);
    LastOfLoop(q, q1, i, env, timeout, s.lastSend, s'.lastSend);
  }

  /** What a turn that went well leaves as it was. */
  lemma TurnFrame(s: Session, i: nat, env: Env, s1: Session)
    requires i < |s.trace.queue| && AllPacked(s.trace.queue) && TurnDid(s, i, env, s1, Ok)
    ensures var q, q1, timeout := s.trace.queue, s1.trace.queue, s.responseTimeout;
            && |q1| == |q| && q1 == q[i := q1[i]] && SameOtherwise(s, s1) && s1.error == s.error
            && (Unfinished2(q1[i]) <==> Unfinished2(q[i]))
            && (IsSent(q, i, env, timeout) ==> env.net(i) == Ok)
            && s1.timeouts == s.timeouts + (if Late(q, i, env, timeout) then 1 else 0)
            && s1.lastSend == (if IsSent(q, i, env, timeout) then env.clock(2 * i + 1) else s.lastSend)
  {
    hide Left, Unfinished2;
    var q := s.trace.queue;
    if IsSent(q, i, env, s.responseTimeout) {
      LeftUnfinished(q[i], s1.trace.queue[i], env.clock(2 * i + 1));
    }
  }

  lemma HereView(q: seq<Msg>, i: nat, env: Env, timeout: int)
    requires i < |q| && (IsSent(q, i, env, timeout) ==> env.net(i) == Ok)
    ensures GoesOut(q, i, i, env, timeout) <==> IsSent(q, i, env, timeout)
    ensures !Fails(q, i, i, env, timeout)
    ensures forall k :: 0 <= k < i ==> !GoesOut(q, i, k, env, timeout) && !Fails(q, i, k, env, timeout)
    ensures LateOnes(q, i, env, timeout)
         == (if Late(q, i, env, timeout) then 1 else 0) + LateOnes(q, i + 1, env, timeout)
  {
    hide IsSent, Late;
  }

  lemma FatesOfLoop(s: Session, i: nat, env: Env, s1: Session, s': Session, rv: Status)
    requires i < |s.trace.queue| && AllPacked(s.trace.queue) && AllPacked(s1.trace.queue)
    requires TurnDid(s, i, env, s1, Ok)
    requires |s1.trace.queue| == |s.trace.queue| && LoopDid(s1, i + 1, env, s', rv)
    ensures |s'.trace.queue| == |s.trace.queue|
    ensures forall k :: 0 <= k < |s.trace.queue|
              ==> Fate(s, s', k, GoesOut(s.trace.queue, i, k, env, s.responseTimeout), env.clock(2 * k + 1))
  {
    var q, q1, timeout := s.trace.queue, s1.trace.queue, s.responseTimeout;
    TurnFrame(s, i, env, s1);
    NextView(q, q1, i, env, timeout);
    HereView(q, i, env, timeout);
    hide IsSent, Late, Left, Fate, Clear, GoesOut, Fails, Unfinished2, LateOnes;
    forall k | 0 <= k < |q|
      ensures Fate(s, s', k, GoesOut(q, i, k, env, timeout), env.clock(2 * k + 1))
    {
      if k <= i { OnlyLater(q1, i, k, env, timeout); }
      FateOfOne(s, i, env, s1, s', k, GoesOut(q1, i + 1, k, env, timeout));
    }
  }

  lemma FateOfOne(s: Session, i: nat, env: Env, s1: Session, s': Session, k: nat, later: bool)
    requires i < |s.trace.queue| && k < |s.trace.queue| && AllPacked(s.trace.queue) && AllPacked(s1.trace.queue)
    requires TurnDid(s, i, env, s1, Ok) && |s'.trace.queue| == |s1.trace.queue| == |s.trace.queue|
    requires Fate(s1, s', k, later, env.clock(2 * k + 1)) && (k <= i ==> !later)
    ensures Fate(s, s', k, (k == i && IsSent(s.trace.queue, i, env, s.responseTimeout)) || later, env.clock(2 * k + 1))
  {
    hide IsSent, Late, Left, Fate, Unfinished2;
    var sent := IsSent(s.trace.queue, i, env, s.responseTimeout);
    TransmissionsNext(s, s1, i, k, sent, env.clock(2 * i + 1));
    FateNow(s, s1, k, sent && k == i, env.clock(2 * i + 1), env.clock(2 * k + 1));
    FatesJoin(s, s1, s', k, sent && k == i, later, env.clock(2 * k + 1));
  }

  lemma OnlyLater(q: seq<Msg>, i: nat, k: nat, env: Env, timeout: int)
    requires k < |q| && k <= i
    ensures !GoesOut(q, i + 1, k, env, timeout)
  {}

  lemma FateNow(s: Session, s1: Session, k: nat, out: bool, now: int, now': int)
    requires k < |s.trace.queue| == |s1.trace.queue| && s.trace.queue[k].bytes != []
    requires Fate(s, s1, k, out, now) && (out ==> now' == now)
    ensures Fate(s, s1, k, out, now')
  {}

  lemma LastOfLoop(q: seq<Msg>, q1: seq<Msg>, i: nat, env: Env, timeout: int, before: int, after: int)
    requires |q1| == |q| && i < |q| && q1 == q[i := q1[i]] && (Unfinished2(q1[i]) <==> Unfinished2(q[i]))
    requires IsSent(q, i, env, timeout) ==> env.net(i) == Ok
    requires LastSent(q1, i + 1, env, timeout, if IsSent(q, i, env, timeout) then env.clock(2 * i + 1) else before,
                      after)
    ensures LastSent(q, i, env, timeout, before, after)
  {
    hide IsSent, Late, Clear, GoesOut, Fails, Unfinished2, LateOnes;
    NextView(q, q1, i, env, timeout);
    HereView(q, i, env, timeout);
    LastView(q, q1, i, i + 1, env, timeout);
    hide LastOut, NoneOut;
    forall k | 0 <= k < |q| && LastOut(q, i, k, env, timeout)
      ensures after == env.clock(2 * k + 1)
    {
      LastIsOut(q, i, k, env, timeout);
    }
  }

  lemma LastIsOut(q: seq<Msg>, i: nat, k: nat, env: Env, timeout: int)
    requires k < |q| && LastOut(q, i, k, env, timeout)
    ensures GoesOut(q, i, k, env, timeout)
  {}

  lemma LastView(q: seq<Msg>, q1: seq<Msg>, i: nat, next: nat, env: Env, timeout: int)
    requires |q1| == |q| && i < |q| && next == i + 1
    requires forall k :: i < k < |q| ==> (GoesOut(q1, next, k, env, timeout) <==> GoesOut(q, i, k, env, timeout))
    requires forall k :: 0 <= k < i ==> !GoesOut(q, i, k, env, timeout)
    ensures forall k :: i < k < |q| && LastOut(q, i, k, env, timeout) ==> LastOut(q1, next, k, env, timeout)
    ensures LastOut(q, i, i, env, timeout) ==> NoneOut(q1, next, env, timeout)
    ensures NoneOut(q, i, env, timeout) ==> NoneOut(q1, next, env, timeout) && !GoesOut(q, i, i, env, timeout)
  {
    forall k | 0 <= k <= i
      ensures !GoesOut(q1, next, k, env, timeout)
    {
      OnlyLater(q1, i, k, env, timeout);
    }
    hide GoesOut;
  }

  lemma AllPackedNext(s: Session, i: nat, env: Env, s1: Session, rv: Status)
    requires i < |s.trace.queue| && AllPacked(s.trace.queue) && TurnDid(s, i, env, s1, rv)
    ensures AllPacked(s1.trace.queue)
  {}

  /** A turn in which the message fails to go out ends the loop. */
  lemma TurnFails(s: Session, i: nat, env: Env, s1: Session, rv: Status)
    requires i < |s.trace.queue| && AllPacked(s.trace.queue) && TurnDid(s, i, env, s1, rv) && rv != Ok
    ensures LoopDid(s, i, env, s1, rv)
  {
    hide Late, Left, Unfinished2, IsSent;
    var q, timeout := s.trace.queue, s.responseTimeout;
    forall k | 0 <= k < |q|
      ensures Fate(s, s1, k, GoesOut(q, i, k, env, timeout), env.clock(2 * k + 1))
      ensures Fails(q, i, k, env, timeout) ==> rv == s1.error == env.net(k)
    {
      FailsHere(q, i, k, env, timeout);
    }
    assert NotClear(q, i, env, timeout);
    LateUpToHere(q, i, env, timeout);
    forall k | 0 <= k < |q|
      ensures !GoesOut(q, i, k, env, timeout)
    {
      FailsHere(q, i, k, env, timeout);
    }
  }

  predicate NotClear(q: seq<Msg>, i: nat, env: Env, timeout: int)
    requires i < |q|
  {
    IsSent(q, i, env, timeout) && env.net(i) != Ok
  }

  lemma FailsHere(q: seq<Msg>, i: nat, k: nat, env: Env, timeout: int)
    requires i < |q| && k < |q| && NotClear(q, i, env, timeout)
    ensures !GoesOut(q, i, k, env, timeout) && (Fails(q, i, k, env, timeout) ==> k == i)
    ensures !Clear(q, i, |q|, env, timeout)
  {
    hide IsSent;
  }

  lemma LateUpToHere(q: seq<Msg>, i: nat, env: Env, timeout: int)
    requires i < |q| && NotClear(q, i, env, timeout)
    ensures LateOnes(q, i, env, timeout) == if Late(q, i, env, timeout) then 1 else 0
  {
    hide IsSent, Late;
  }

  lemma {:induction false} LoopDoes(s: Session, i: nat, inflight: bool, env: Env)
    requires Fits(s) && i <= |s.trace.queue| && (inflight <==> Unfinished2Before(s.trace.queue, i))
    ensures AllPacked(s.trace.queue)
    ensures var (s', rv) := SendFrom(s, i, inflight, env); LoopDid(s, i, env, s', rv)
    decreases |s.trace.queue| - i
  {
    hide SendOne, TurnDid, Footprint;
    var q := s.trace.queue;
    if i == |q| {
      LoopEnds(s, env);
    } else {
      hide LoopDid;
      TurnDoes(s, i, inflight, env);
      var (s1, rv) := SendOne(s, i, inflight, env);
      AllPackedNext(s, i, env, s1, rv);
      if rv != Ok {
        TurnFails(s, i, env, s1, rv);
      } else {
        TurnFrame(s, i, env, s1);
        var inflight' := inflight || Held(q[i]);
        NextInFlight(q, s1.trace.queue, i, inflight);
        LoopDoes(s1, i + 1, inflight', env);
        var (s', rv') := SendFrom(s1, i + 1, inflight', env);
        TurnThenRest(s, i, env, s1, s', rv');
      }
    }
  }

  lemma LoopEnds(s: Session, env: Env)
    requires AllPacked(s.trace.queue)
    ensures LoopDid(s, |s.trace.queue|, env, s, Ok)
  {
    hide Left, IsSent, Late;
  }

  lemma NextInFlight(q: seq<Msg>, q': seq<Msg>, i: nat, inflight: bool)
    requires |q'| == |q| && i < |q| && q' == q[i := q'[i]] && (Unfinished2(q'[i]) <==> Unfinished2(q[i]))
    requires inflight <==> Unfinished2Before(q, i)
    ensures (inflight || Held(q[i])) <==> Unfinished2Before(q', i + 1)
  {
    HeldIsUnfinished(q[i]);
    hide Held, Unfinished2;
    if inflight {
      var j :| 0 <= j < i && Unfinished2(q[j]);
      assert Unfinished2(q'[j]);
    }
    if Held(q[i]) { assert Unfinished2(q'[i]); }
    if Unfinished2Before(q', i + 1) {
      var j :| 0 <= j < i + 1 && Unfinished2(q'[j]);
      if j < i { assert Unfinished2(q[j]); }
    }
  }

  // ----- The whole send -----------------------------------------------------------------------------------

  /**
   A send: in error, other than a full send buffer, it does nothing. Else it goes through the queue; and when nothing
   has gone out for three quarters of the keep-alive time, it asks for a PINGREQ to be queued.
   */
  ghost predicate SendDid(s: Session, env: Env, stale: Stale, s': Session, rv: Status)
    requires AllPacked(s.trace.queue)
  {
    if s.error != Ok && s.error != SendBufferIsFull then s' == s && rv == s.error
    else exists s1: Session, rv1: Status ::
      && LoopDid(s, 0, env, s1, rv1)
      && if rv1 != Ok then s' == s1 && rv == rv1
         else if env.clock(2 * |s.trace.queue|) > s1.lastSend + s.keepAlive * 3 / 4 then
           Yields(s1, ReqPing, stale, s', rv)
         else s' == s1 && rv == Ok
  }

  /** __mqtt_send */
  lemma SendDoes(s: Session, env: Env, stale: Stale)
    requires Fits(s)
    ensures AllPacked(s.trace.queue)
    ensures var (s', rv) := Send(s, env, stale); SendDid(s, env, stale, s', rv)
  {
    hide SendFrom, Yields, TryPack, Footprint, LoopDid;
    LoopDoes(s, 0, false, env);
    var (s1, rv1) := SendFrom(s, 0, false, env);
    LoopFrame(s, env, s1, rv1);
    RequestYields(s1, ReqPing, stale);
    ErrorIsResult(s1, stale);
  }

  lemma LoopFrame(s: Session, env: Env, s': Session, rv: Status)
    requires AllPacked(s.trace.queue) && LoopDid(s, 0, env, s', rv)
    ensures |s'.trace.queue| == |s.trace.queue| && s'.keepAlive == s.keepAlive
  {}

  lemma ErrorIsResult(s: Session, stale: Stale)
    requires Fits(s)
    ensures var (s', rv) := TryPack(s, ReqPing, stale); rv != Ok ==> s'.error == rv
  {
    hide Request.Pack, Footprint;
  }

  // ----- The response timeout -----------------------------------------------------------------------------

  lemma {:induction false} LoopKeepsTimeout(s: Session, i: nat, inflight: bool, env: Env)
    requires Fits(s) && i <= |s.trace.queue|
    ensures SendFrom(s, i, inflight, env).0.responseTimeout == s.responseTimeout
    decreases |s.trace.queue| - i
  {
    hide Fits, TimedOut, Held, Transmit;
    if i < |s.trace.queue| {
      var (s1, rv) := SendOne(s, i, inflight, env);
      if rv == Ok { LoopKeepsTimeout(s1, i + 1, inflight || Held(s.trace.queue[i]), env); }
    }
  }

  lemma PackKeepsTimeout(s: Session, req: Request, stale: Stale)
    requires Fits(s) && Sendable(req.Control())
    ensures TryPack(s, req, stale).0.responseTimeout == s.responseTimeout
  {
    hide Request.Pack, Footprint;
  }

  lemma DrawKeepsTimeout(s: Session)
    requires Fits(s)
    ensures Draw(s).responseTimeout == s.responseTimeout
  {}

  lemma HandleKeepsTimeout(s: Session, r: Response, stale: Stale)
    requires Fits(s)
    ensures Handle(s, r, stale).0.responseTimeout == s.responseTimeout
  {
    hide TryPack, Find, Footprint, Finish;
    match r
    case RPublish(_, qos, _, _, id, _) =>
      PackKeepsTimeout(s, ReqPubxxx(PUBACK, id), stale);
      PackKeepsTimeout(s, ReqPubxxx(PUBREC, id), stale);
    case RPubrec(id) =>
      ReleaseKeepsTimeout(s, PUBLISH, id);
      PackKeepsTimeout(Release(s, PUBLISH, id).0, ReqPubxxx(PUBREL, id), stale);
    case RPubrel(id) =>
      if Queued(s, PUBREC, id) {
        PackKeepsTimeout(Finishing(Noting(s, Released(id)), Find(s.trace.queue, PUBREC, id)), ReqPubxxx(PUBCOMP, id),
                         stale);
      }
    case _ =>
  }

  lemma ReleaseKeepsTimeout(s: Session, control: nat, id: int)
    requires Fits(s)
    ensures Release(s, control, id).0.responseTimeout == s.responseTimeout
  {
    hide Find, Footprint, Finish;
  }

  lemma StepKeepsTimeout(s: Session, c: Call)
    requires Fits(s)
    ensures Step(s, c).0.responseTimeout == s.responseTimeout
  {
    hide TryPack, SendFrom, Handle, Draw, Footprint;
    DrawKeepsTimeout(s);
    match c
    case CallConnect(connection, stale) =>
      PackKeepsTimeout(s.(keepAlive := connection.keepAlive,
                          error := if s.error == ConnectNotCalled then Ok else s.error), ReqConnect(connection), stale);
    case CallPublish(topic, payload, flags, stale) =>
      PackKeepsTimeout(Draw(s), ReqPublish(topic, Draw(s).lfsr as u16, payload, flags), stale);
    case CallSubscribe(topic, maxQos, stale) =>
      PackKeepsTimeout(Draw(s), ReqSubscribe(Draw(s).lfsr as u16, topic, maxQos), stale);
    case CallUnsubscribe(topic, stale) =>
      PackKeepsTimeout(Draw(s), ReqUnsubscribe(Draw(s).lfsr as u16, topic), stale);
    case CallPing(stale) => PackKeepsTimeout(s, ReqPing, stale);
    case CallDisconnect(stale) => PackKeepsTimeout(s, ReqDisconnect, stale);
    case CallSend(env, stale) =>
      LoopKeepsTimeout(s, 0, false, env);
      PackKeepsTimeout(SendFrom(s, 0, false, env).0, ReqPing, stale);
    case Response(r, stale) => HandleKeepsTimeout(s, r, stale);
    case Failure(_) =>
  }

  lemma {:induction false} RunKeepsTimeout(s: Session, calls: seq<Call>)
    requires Fits(s)
    ensures Run(s, calls).responseTimeout == s.responseTimeout
    decreases |calls|
  {
    hide Step;
    if calls != [] {
      RunKeepsTimeout(s, calls[..|calls| - 1]);
      StepKeepsTimeout(Run(s, calls[..|calls| - 1]), calls[|calls| - 1]);
    }
  }

  lemma ReachedFits(s: Session)
    requires Reached(s)
    ensures Fits(s)
  {}

  lemma TimeoutIsThirty(s: Session)
    requires Reached(s)
    ensures s.responseTimeout == 30
  {
    hide Run;
    var memSize: nat, headerSize: nat, lastSend: int, calls: seq<Call> :|
      Usable(memSize, headerSize) && s == Run(Init(memSize, headerSize, lastSend), calls);
    RunKeepsTimeout(Init(memSize, headerSize, lastSend), calls);
  }

  /**
   In every session: a send without error sends a message again whose answer has not come, unless that is a QoS 2
   PUBLISH behind an unfinished one, exactly if more than 30 seconds have passed since it was sent last.
   */
  lemma LateIsSentAgain(s: Session, env: Env, stale: Stale, k: nat)
    requires Reached(s) && Send(s, env, stale).1 == Ok
    requires k < |s.trace.queue| && s.trace.queue[k].state == AwaitingAck && !Waits(s.trace.queue, k)
    ensures var m, n, s' := s.trace.queue[k], s.trace.removed + k, Send(s, env, stale).0;
            Transmissions(s'.trace.log, n)
            == Transmissions(s.trace.log, n) + if env.clock(2 * k) > m.timeSent + 30 then [m.bytes] else []
  {
    hide Send, Yields, Footprint, LoopDid, Transmissions, Waits, Reached;
    ReachedFits(s);
    TimeoutIsThirty(s);
    SendDoes(s, env, stale);
    var s', rv := Send(s, env, stale).0, Send(s, env, stale).1;
    var s1: Session, rv1: Status :|
      LoopDid(s, 0, env, s1, rv1)
      && if rv1 != Ok then s' == s1 && rv == rv1
         else if env.clock(2 * |s.trace.queue|) > s1.lastSend + s.keepAlive * 3 / 4 then
           Yields(s1, ReqPing, stale, s', rv)
         else s' == s1 && rv == Ok;
    LoopSends(s, env, s1, k);
    if Yields(s1, ReqPing, stale, s', rv) { YieldsKeepsLog(s1, ReqPing, stale, s', rv); }
  }

  lemma YieldsKeepsLog(s: Session, req: Request, stale: Stale, s': Session, rv: Status)
    requires Proper(req) && Yields(s, req, stale, s', rv)
    ensures s'.trace.log == s.trace.log
  {
    hide HasPlace, PacketOf, Remaining, Objection;
  }

  lemma LoopSends(s: Session, env: Env, s1: Session, k: nat)
    requires AllPacked(s.trace.queue) && LoopDid(s, 0, env, s1, Ok) && k < |s.trace.queue|
    ensures var m, n := s.trace.queue[k], s.trace.removed + k;
            Transmissions(s1.trace.log, n) == Transmissions(s.trace.log, n)
               + if IsSent(s.trace.queue, k, env, s.responseTimeout) then [m.bytes] else []
  {
    hide IsSent, Late, Left, LateOnes, LastSent, Transmissions;
    AllClear(s, env, s1);
    var out := GoesOut(s.trace.queue, 0, k, env, s.responseTimeout);
    assert out <==> IsSent(s.trace.queue, k, env, s.responseTimeout);
    assert Fate(s, s1, k, out, env.clock(2 * k + 1));
  }

  lemma AllClear(s: Session, env: Env, s1: Session)
    requires AllPacked(s.trace.queue) && LoopDid(s, 0, env, s1, Ok)
    ensures Clear(s.trace.queue, 0, |s.trace.queue|, env, s.responseTimeout)
  {
    hide Late, Left, LateOnes, LastSent, Fate;
    var q, timeout := s.trace.queue, s.responseTimeout;
    if !Clear(q, 0, |q|, env, timeout) {
      var k := FirstFailure(q, 0, env, timeout);
    }
  }

  lemma {:induction false} FirstFailure(q: seq<Msg>, i: nat, env: Env, timeout: int) returns (k: nat)
    requires i <= |q| && !Clear(q, i, |q|, env, timeout)
    ensures k < |q| && Fails(q, i, k, env, timeout)
    decreases |q| - i
  {
    hide IsSent;
    if IsSent(q, i, env, timeout) && env.net(i) != Ok {
      k := i;
    } else {
      k := FirstFailure(q, i + 1, env, timeout);
    }
  }
}
