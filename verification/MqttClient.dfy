/**
 The MQTT client (libs/mqtt.c, struct mqtt_client) with its buffers, updated in place. Every method is
 proved to do to the session the client stands for what the module MqttSession says.
 */
module MqttClient {
  import opened Bytes
  import opened MqttTypes
  import opened MqttPacket
  import opened MqttCodec
  import opened MqttConnect
  import opened MqttQueue
  import PacketId
  import S = MqttSession
  import R = MqttReceive

  /** The bytes behind the packets are free to be written. */
  lemma {:induction false} LayoutWithin(mem: seq<byte>, mem': seq<byte>, slots: seq<Header>, q: seq<Msg>)
    requires Layout(mem, slots, q) && |mem'| == |mem|
    requires TotalSize(q) <= |mem| && mem'[..TotalSize(q)] == mem[..TotalSize(q)]
    ensures Layout(mem', slots, q)
  {
    forall i | 0 <= i < |q|
      ensures Describes(Get(slots, i), mem', q, i)
    {
      var h := Get(slots, i);
      assert Describes(h, mem, q, i);
      TotalSizeSplit(q, i);
      Subslice(mem', 0, TotalSize(q), h.start, h.start + h.size);
      Subslice(mem, 0, TotalSize(q), h.start, h.start + h.size);
    }
  }

  /** pack_call(client->mq.curr, client->mq.curr_sz, ...): the queue is not touched. */
  method PackInto(mq: MessageQueue, req: Request) returns (rv: Returned)
    requires mq.Valid()
    modifies mq.mem
    ensures mq.Valid() && mq.HeadersSpared(|mq.contents| + 1)
    ensures rv == ReturnOf(req.Pack(mq.currSz))
    ensures rv.Wrote? ==> rv.n <= mq.currSz && mq.mem[mq.curr..mq.curr + rv.n] == req.Pack(mq.currSz).bytes
  {
    hide Room;
    ghost var before := mq.mem[..];
    rv := PackRequest(req, mq.mem, mq.curr, mq.currSz);
    if mq.currSz > 0 { RoomEnds(mq.contents, mq.mem.Length, mq.headerSize); }
    assert mq.mem[..][..mq.curr] == before[..mq.curr];
    LayoutWithin(before, mq.mem[..], mq.slots[..], mq.contents);
    if rv.Wrote? { req.PackFits(mq.currSz); }
  }

  lemma StepWhenEven(x: bv16)
    requires x & 1 == 0
    ensures PacketId.Step(x) == x >> 1
  {}

  lemma StepWhenOdd(x: bv16)
    requires x & 1 != 0
    ensures PacketId.Step(x) == (x >> 1) ^ 0xB400
  {
    assert x & 1 == 1;
  }

  /** One turn of the register, bit by bit. */
  method Turn(x: bv16) returns (y: bv16)
    ensures y == PacketId.Step(x)
  {
    hide PacketId.Step;
    if x & 1 == 0 { StepWhenEven(x); } else { StepWhenOdd(x); }
    var lsb := x & 1;
    y := x >> 1;
    if lsb != 0 { y := y ^ 0xB400; }
  }

  class Client {
    const mq: MessageQueue
    const recvMem: array<byte>
    const responseTimeout: int := 30
    var lfsr: bv16
    var error: Status
    var lastSend: int
    var keepAlive: nat
    var timeouts: nat
    /** recv_buffer.curr, as an offset, and recv_buffer.curr_sz. */
    var recvCurr: nat
    var recvFree: nat
    ghost var removed: nat
    ghost var packets: seq<seq<byte>>
    ghost var log: seq<S.Event>

    /** The session this client is in. */
    ghost function Session(): S.Session
      reads this, mq
    {
      S.Session(S.Trace(mq.contents, removed, packets, log), lfsr, error, lastSend, keepAlive, timeouts,
                mq.mem.Length, mq.headerSize, responseTimeout)
    }

    ghost predicate Valid()
      reads this, mq, mq.mem, mq.slots
    {
      && mq.Valid() && mq.mem != recvMem
      && S.Fits(Session())
      && recvCurr + recvFree == recvMem.Length
    }

    /** mqtt_init */
    constructor (sendbuf: array<byte>, headerSize: nat, recvbuf: array<byte>, lastSend: int)
      requires headerSize > 0 && sendbuf != recvbuf && sendbuf.Length < PacketId.FULL * headerSize
      ensures Valid() && Session() == S.Init(sendbuf.Length, headerSize, lastSend)
      ensures mq.mem == sendbuf && recvMem == recvbuf && recvCurr == 0 && fresh(mq) && fresh(mq.slots)
    {
      mq := new MessageQueue(sendbuf, headerSize);
      recvMem := recvbuf;
      lfsr, error, this.lastSend, keepAlive, timeouts := 0, ConnectNotCalled, lastSend, 0, 0;
      recvCurr, recvFree := 0, recvbuf.Length;
      removed, packets, log := 0, [], [];
    }

    /** The part of MQTT_CLIENT_TRY_PACK behind a successful pack_call, and the fields the caller sets. */
    method Enqueue(n: nat, req: Request, stale: S.Stale)
      requires Valid() && S.Sendable(req.Control()) && req.Pack(mq.currSz).Packed? && n == |req.Pack(mq.currSz).bytes|
      requires 0 < n <= mq.currSz && mq.mem[mq.curr..mq.curr + n] == req.Pack(mq.currSz).bytes
      modifies this`packets, mq, mq.slots
      ensures Valid() && Session() == S.Queueing(old(Session()), req, req.Pack(old(mq.currSz)).bytes, stale)
    {
      hide Request.Pack, Layout, S.IdOf, Footprint;
      ghost var bytes := req.Pack(mq.currSz).bytes;
      ghost var q := mq.contents;
      S.AppendFits(Session(), S.NewMessage(req, bytes, stale));
      mq.Register(n, Header.Header(0, 0, Unsent, stale.timeSent, 0, stale.id));
      var length := mq.Length();
      mq.Update(length - 1, Unsent, stale.timeSent, req.Control(), S.IdOf(req, stale));
      assert mq.contents == q + [S.NewMessage(req, bytes, stale)];
      packets := packets + [bytes];
    }

    /** mqtt_mq_clean */
    method Clean()
      requires Valid()
      modifies this`removed, mq, mq.mem, mq.slots
      ensures Valid() && Session() == S.Cleaning(old(Session()))
    {
      S.CleanFits(Session());
      removed := removed + Done(mq.contents);
      mq.Clean();
    }

    /** pack_call and, when it succeeds, mqtt_mq_register. */
    method TryOnce(req: Request, stale: S.Stale) returns (tmp: Returned)
      requires Valid() && S.Sendable(req.Control())
      modifies this`packets, mq, mq.mem, mq.slots
      ensures Valid()
      ensures match S.TryOnce(old(Session()), req, stale)
              case Rejected(e) => tmp == Error(e) && Session() == old(Session())
              case OutOfRoom => tmp == Zero && Session() == old(Session())
              case Accepted(s) => tmp.Wrote? && Session() == s
    {
      hide Request.Pack, Cleaned, Done;
      tmp := PackInto(mq, req);
      if tmp.Wrote? {
        req.PackFits(mq.currSz);
        Enqueue(tmp.n, req, stale);
      }
    }

    /** MQTT_CLIENT_TRY_PACK */
    method TryPack(req: Request, stale: S.Stale) returns (rv: Status)
      requires Valid() && S.Sendable(req.Control())
      modifies this`error, this`removed, this`packets, mq, mq.mem, mq.slots
      ensures Valid()
      ensures (Session(), rv) == S.TryPack(old(Session()), req, stale)
    {
      hide S.TryOnce, S.Cleaning, MessageQueue.Valid, Footprint, TotalSize, Layout, Room;
      if error != Ok { return error; }
      var tmp := TryOnce(req, stale);
      if tmp == Zero {
        Clean();
        tmp := TryOnce(req, stale);
        if tmp == Zero {
          error := SendBufferIsFull;
          return SendBufferIsFull;
        }
      }
      if tmp.Error? {
        error := tmp.e;
        return tmp.e;
      }
      return Ok;
    }

    /** The inner loop of __mqtt_next_pid. */
    method InUse(id: bv16) returns (pidExists: bool)
      requires mq.Valid()
      ensures pidExists <==> id in S.Used(mq.contents)
    {
      pidExists := false;
      var k := 0;
      var length := mq.Length();
      while k < length
        invariant 0 <= k <= length == |mq.contents|
        invariant id !in S.Used(mq.contents)[..k]
      {
        var queued := mq.IdAt(k);
        assert S.Used(mq.contents)[k] == queued as bv16;
        if queued as bv16 == id { return true; }
        assert S.Used(mq.contents)[..k + 1] == S.Used(mq.contents)[..k] + [queued as bv16];
        k := k + 1;
      }
      assert S.Used(mq.contents)[..k] == S.Used(mq.contents);
    }

    /** __mqtt_next_pid */
    method NextPid()
      requires Valid()
      modifies this`lfsr
      ensures Valid() && Session() == S.Draw(old(Session()))
    {
      hide PacketId.Step, PacketId.After, MessageQueue.Valid, Footprint;
      ghost var before, used, k := lfsr, S.Used(mq.contents), 0;
      S.FewMessages(Session());
      if lfsr == 0 { lfsr := 163; }
      PacketId.NoStep(lfsr);
      var pidExists := true;
      while pidExists
        invariant 0 <= k <= |used| + 1
        invariant lfsr == PacketId.After(k, PacketId.Seeded(before))
        invariant forall j :: 1 <= j < k ==> PacketId.After(j, PacketId.Seeded(before)) in used
        invariant k > 0 ==> (pidExists <==> lfsr in used)
        invariant k == 0 ==> pidExists
        decreases |used| + 1 - k, pidExists
      {
        PacketId.StillUnused(used, before, k);
        PacketId.OneMoreStep(PacketId.Seeded(before), k);
        lfsr := Turn(lfsr);
        k := k + 1;
        pidExists := InUse(lfsr);
      }
      PacketId.FirstIsNext(used, before, lfsr, k);
    }

    // ----- The API calls ------------------------------------------------------------------------------------

    /** mqtt_connect */
    method Connect(connection: Connection, stale: S.Stale) returns (rv: Status)
      requires Valid()
      modifies this, mq, mq.mem, mq.slots
      ensures Valid() && recvCurr == old(recvCurr) && recvFree == old(recvFree)
      ensures (Session(), rv) == S.Connect(old(Session()), connection, stale)
    {
      keepAlive := connection.keepAlive;
      if error == ConnectNotCalled { error := Ok; }
      rv := TryPack(ReqConnect(connection), stale);
    }

    /** mqtt_publish */
    method Publish(topic: seq<byte>, payload: seq<byte>, flags: byte, stale: S.Stale) returns (rv: Status)
      requires Valid()
      modifies this, mq, mq.mem, mq.slots
      ensures Valid() && recvCurr == old(recvCurr) && recvFree == old(recvFree)
      ensures (Session(), rv) == S.Publish(old(Session()), topic, payload, flags, stale)
    {
      hide S.TryPack, S.Draw;
      NextPid();
      rv := TryPack(ReqPublish(topic, lfsr as u16, payload, flags), stale);
    }

    /** mqtt_subscribe */
    method Subscribe(topic: seq<byte>, maxQos: byte, stale: S.Stale) returns (rv: Status)
      requires Valid()
      modifies this, mq, mq.mem, mq.slots
      ensures Valid() && recvCurr == old(recvCurr) && recvFree == old(recvFree)
      ensures (Session(), rv) == S.Subscribe(old(Session()), topic, maxQos, stale)
    {
      hide S.TryPack, S.Draw;
      NextPid();
      rv := TryPack(ReqSubscribe(lfsr as u16, topic, maxQos), stale);
    }

    /** mqtt_unsubscribe, with the id drawn under the lock. */
    method Unsubscribe(topic: seq<byte>, stale: S.Stale) returns (rv: Status)
      requires Valid()
      modifies this, mq, mq.mem, mq.slots
      ensures Valid() && recvCurr == old(recvCurr) && recvFree == old(recvFree)
      ensures (Session(), rv) == S.Unsubscribe(old(Session()), topic, stale)
    {
      hide S.TryPack, S.Draw;
      NextPid();
      rv := TryPack(ReqUnsubscribe(lfsr as u16, topic), stale);
    }

    // ----- __mqtt_send --------------------------------------------------------------------------------------

    /** The switch of __mqtt_send: the state a message is put in. */
    static method SentState(control: nat, first: byte, ghost bytes: seq<byte>) returns (state: State)
      requires bytes != [] && bytes[0] == first
      ensures state == if S.OneShot(control, bytes) then Complete else AwaitingAck
    {
      state := AwaitingAck;
      if control == PUBACK || control == PUBCOMP || control == DISCONNECT {
        state := Complete;
      } else if control == PUBLISH && QosOf(first) == 0 {
        state := Complete;
      }
    }

    /** The changes to message `k` when it went out whole. */
    method MarkSent(k: nat, h: Header, first: byte, now: int)
      requires mq.Valid() && k < |mq.contents| && mq.contents[k].bytes != []
      requires mq.HeaderOf(k) == h && mq.contents[k].bytes[0] == first
      modifies mq`contents, mq.mem, mq.slots
      ensures mq.Valid() && mq.contents == old(mq.contents)[k := S.AfterSend(old(mq.contents)[k], now)]
    {
      ghost var q := mq.contents;
      var state := SentState(h.control, first, q[k].bytes);
      if h.control == PUBLISH && QosOf(first) == 1 { mq.Poke(k, WithDup(first)); }
      mq.Update(k, state, now, h.control, h.id);
      assert mq.contents[k] == S.AfterSend(q[k], now);
    }

    /** Whether message `i` is to be sent now, and whether it counts as a QoS 2 PUBLISH in flight. */
    method Due(i: nat, h: Header, first: byte, inflight: bool, env: S.Env) returns (resend: bool, held: bool)
      requires Valid() && i < |mq.contents| && h == mq.HeaderOf(i) && first == mq.contents[i].bytes[0]
      modifies this`timeouts
      ensures timeouts == old(timeouts) + if S.TimedOut(old(Session()), i, env) then 1 else 0
      ensures held == S.Held(mq.contents[i])
      ensures resend == ((mq.contents[i].state == Unsent || S.TimedOut(old(Session()), i, env)) && !(held && inflight))
    {
      resend := false;
      if h.state == Unsent {
        resend := true;
      } else if h.state == AwaitingAck {
        if env.clock(2 * i) > h.timeSent + responseTimeout {
          resend := true;
          timeouts := timeouts + 1;
        }
      }
      held := false;
      if h.control == PUBLISH && (h.state == Unsent || h.state == AwaitingAck) {
        if QosOf(first) == 2 {
          if inflight { resend := false; }
          held := true;
        }
      }
    }

    /** What follows a sendall that took the whole message. */
    method Transmit(i: nat, h: Header, first: byte, now: int)
      requires Valid() && i < |mq.contents| && h == mq.HeaderOf(i) && first == mq.contents[i].bytes[0]
      modifies this`lastSend, this`log, mq`contents, mq.mem, mq.slots
      ensures Valid() && Session() == S.Transmitting(old(Session()), i, now)
    {
      ghost var expected := S.Transmitting(Session(), i, now);
      log := log + [S.Sent(removed + i, mq.contents[i].bytes)];
      lastSend := now;
      MarkSent(i, h, first, now);
      assert Session() == expected;
    }

    /** One turn of the loop of __mqtt_send. */
    method SendOne(i: nat, inflight: bool, env: S.Env) returns (rv: Status, held: bool)
      requires Valid() && i < |mq.contents|
      modifies this`timeouts, this`error, this`lastSend, this`log, mq`contents, mq.mem, mq.slots
      ensures Valid() && (Session(), rv) == S.SendOne(old(Session()), i, inflight, env)
      ensures held == S.Held(old(mq.contents)[i])
    {
      hide S.Transmitting, S.TimedOut, S.Held;
      var h, first := mq.Look(i);
      var resend;
      resend, held := Due(i, h, first, inflight, env);
      if !resend { return Ok, held; }
      var sent := env.net(i);
      if sent != Ok {
        error := sent;
        return sent, held;
      }
      Transmit(i, h, first, env.clock(2 * i + 1));
      return Ok, held;
    }

    /** The loop of __mqtt_send over the queue. */
    method SendLoop(env: S.Env) returns (rv: Status)
      requires Valid()
      modifies this`timeouts, this`error, this`lastSend, this`log, mq`contents, mq.mem, mq.slots
      ensures Valid() && (Session(), rv) == S.SendFrom(old(Session()), 0, false, env)
    {
      hide S.SendOne, MessageQueue.Valid;
      var inflight, i := false, 0;
      var len := mq.Length();
      while i < len
        invariant Valid() && 0 <= i <= len == |mq.contents|
        invariant S.SendFrom(Session(), i, inflight, env) == S.SendFrom(old(Session()), 0, false, env)
      {
        var one, held := SendOne(i, inflight, env);
        if one != Ok { return one; }
        inflight := inflight || held;
        i := i + 1;
      }
      return Ok;
    }

    /** __mqtt_send */
    method Send(env: S.Env, stale: S.Stale) returns (rv: Status)
      requires Valid()
      modifies this, mq, mq.mem, mq.slots
      ensures Valid() && recvCurr == old(recvCurr) && recvFree == old(recvFree)
      ensures (Session(), rv) == S.Send(old(Session()), env, stale)
    {
      hide S.SendFrom, S.TryPack, MessageQueue.Valid;
      if error != Ok && error != SendBufferIsFull { return error; }
      rv := SendLoop(env);
      if rv != Ok { return rv; }
      var len := mq.Length();
      if env.clock(2 * len) > lastSend + keepAlive * 3 / 4 {
        rv := TryPack(ReqPing, stale);
        if rv != Ok { error := rv; }
      }
    }

    // ----- __mqtt_recv --------------------------------------------------------------------------------------

    /** Release the message that answers to `control` and `id`, or fail. */
    method Release(control: nat, id: int) returns (rv: Status)
      requires Valid()
      modifies this`error, mq`contents, mq.slots
      ensures Valid() && (Session(), rv) == S.Release(old(Session()), control, id)
    {
      var k := mq.FindMessage(control, id);
      var length := mq.Length();
      if k == length {
        error := AckOfUnknown;
        return AckOfUnknown;
      }
      Finish(k);
      return Ok;
    }

    /** msg->state = MQTT_QUEUED_COMPLETE */
    method Finish(k: nat)
      requires Valid() && k < |mq.contents|
      modifies mq`contents, mq.slots
      ensures Valid() && Session() == S.Finishing(old(Session()), k)
    {
      ghost var expected := S.Finishing(Session(), k);
      var h, _ := mq.Look(k);
      mq.Update(k, Complete, h.timeSent, h.control, h.id);
      assert Session() == expected;
    }

    method HandleConnack(code: byte) returns (rv: Status)
      requires Valid()
      modifies this`error, mq`contents, mq.slots
      ensures Valid() && (Session(), rv) == S.HandleConnack(old(Session()), code)
    {
      hide S.Release;
      rv := Release(CONNECT, ANY);
      if rv == Ok && code != 0 {
        error := if code == 2 then ConnectClientIdRefused else ConnectionRefused;
        rv := error;
      }
    }

    method HandlePublish(p: Response, stale: S.Stale) returns (rv: Status)
      requires Valid() && p.RPublish?
      modifies this`error, this`removed, this`packets, this`log, mq, mq.mem, mq.slots
      ensures Valid() && (Session(), rv) == S.HandlePublish(old(Session()), p, stale)
    {
      hide S.TryPack, MessageQueue.Valid;
      if p.qos == 1 {
        rv := TryPack(ReqPubxxx(PUBACK, p.id), stale);
        if rv != Ok { error := rv; return rv; }
      } else if p.qos == 2 {
        var k := mq.FindMessage(PUBREC, p.id);
        var length := mq.Length();
        if k < length { return Ok; }
        rv := TryPack(ReqPubxxx(PUBREC, p.id), stale);
        if rv != Ok { error := rv; return rv; }
      }
      log := log + [S.Delivered(p)];
      return Ok;
    }

    method HandlePubrec(id: u16, stale: S.Stale) returns (rv: Status)
      requires Valid()
      modifies this`error, this`removed, this`packets, mq, mq.mem, mq.slots
      ensures Valid() && (Session(), rv) == S.HandlePubrec(old(Session()), id, stale)
    {
      hide S.TryPack, S.Release, MessageQueue.Valid;
      var k := mq.FindMessage(PUBREL, id);
      var length := mq.Length();
      if k < length { return Ok; }
      rv := Release(PUBLISH, id);
      if rv != Ok { return rv; }
      rv := TryPack(ReqPubxxx(PUBREL, id), stale);
      if rv != Ok { error := rv; }
    }

    method HandlePubrel(id: u16, stale: S.Stale) returns (rv: Status)
      requires Valid()
      modifies this`error, this`removed, this`packets, this`log, mq, mq.mem, mq.slots
      ensures Valid() && (Session(), rv) == S.HandlePubrel(old(Session()), id, stale)
    {
      hide S.TryPack, S.Finishing, MessageQueue.Valid;
      var k := mq.FindMessage(PUBREC, id);
      var length := mq.Length();
      if k == length {
        error := AckOfUnknown;
        return AckOfUnknown;
      }
      log := log + [S.Released(id)];
      Finish(k);
      rv := TryPack(ReqPubxxx(PUBCOMP, id), stale);
      if rv != Ok { error := rv; }
    }

    method HandleSuback(id: u16, codes: seq<byte>) returns (rv: Status)
      requires Valid()
      modifies this`error, mq`contents, mq.slots
      ensures Valid() && (Session(), rv) == S.HandleSuback(old(Session()), id, codes)
    {
      hide S.Release;
      rv := Release(SUBSCRIBE, id);
      if rv == Ok && codes != [] && codes[0] == 0x80 {
        error := SubscribeFailed;
        rv := SubscribeFailed;
      }
    }

    /** The switch of __mqtt_recv. */
    method Handle(r: Response, stale: S.Stale) returns (rv: Status)
      requires Valid()
      modifies this`error, this`removed, this`packets, this`log, mq, mq.mem, mq.slots
      ensures Valid() && (Session(), rv) == S.Handle(old(Session()), r, stale)
    {
      hide S.Release, S.HandleConnack, S.HandlePublish, S.HandlePubrec, S.HandlePubrel, S.HandleSuback,
           MessageQueue.Valid;
      match r
      case RConnack(_, code) => rv := HandleConnack(code);
      case RPublish(_, _, _, _, _, _) => rv := HandlePublish(r, stale);
      case RPuback(id) => rv := Release(PUBLISH, id);
      case RPubrec(id) => rv := HandlePubrec(id, stale);
      case RPubrel(id) => rv := HandlePubrel(id, stale);
      case RPubcomp(id) => rv := Release(PUBREL, id);
      case RSuback(id, codes) => rv := HandleSuback(id, codes);
      case RUnsuback(id) => rv := Release(UNSUBSCRIBE, id);
      case RPingresp => rv := Release(PINGREQ, ANY);
    }

    /** mqtt_pal_recvall into the free part of the receive buffer. */
    method RecvAll(net: seq<seq<byte>>) returns (left: seq<seq<byte>>)
      requires Valid()
      modifies this`recvCurr, this`recvFree, recvMem
      ensures Valid() && Session() == old(Session())
      ensures var (portion, net') := R.Take(net, old(recvFree));
              left == net' && recvMem[..recvCurr] == old(recvMem[..recvCurr]) + portion
    {
      ghost var before := recvMem[..recvCurr];
      var (portion, net') := R.Take(net, recvFree);
      Copy(recvMem, recvCurr, portion);
      assert recvMem[..recvCurr] == before;
      recvCurr := recvCurr + |portion|;
      recvFree := recvFree - |portion|;
      assert recvMem[..recvCurr] == before + portion;
      left := net';
    }

    /** Drops the first `consumed` bytes of the receive buffer. */
    method Shift(consumed: nat)
      requires Valid() && consumed <= recvCurr
      modifies this`recvCurr, this`recvFree, recvMem
      ensures Valid() && Session() == old(Session())
      ensures recvMem[..recvCurr] == old(recvMem[..recvCurr])[consumed..]
    {
      Memmove(recvMem, 0, consumed, recvCurr - consumed);
      recvCurr := recvCurr - consumed;
      recvFree := recvFree + consumed;
    }

    /** Cuts a packet out of the buffer and handles it, or says why there is none; `again` when the loop goes on. */
    method RecvOne(stale: S.Stale) returns (rv: Status, again: bool)
      requires Valid() && Unpack(recvMem[..recvCurr]) != Overrun
      modifies this, mq, mq.mem, mq.slots, recvMem
      ensures Valid()
      ensures match Unpack(old(recvMem[..recvCurr]))
              case More =>
                && !again && recvMem[..recvCurr] == old(recvMem[..recvCurr])
                && (if old(recvFree) == 0 then rv == RecvBufferTooSmall
                    && Session() == old(Session()).(error := RecvBufferTooSmall)
                    else rv == Ok && Session() == old(Session()))
              case Bad(e) =>
                !again && recvMem[..recvCurr] == old(recvMem[..recvCurr]) && rv == e
                    && Session() == old(Session()).(error := e)
              case Overrun => true
              case Packet(consumed, _, response) =>
                (Session(), rv) == S.Handle(old(Session()), response, stale) && again == (rv == Ok)
                && recvMem[..recvCurr] == old(recvMem[..recvCurr])[consumed..]
    {
      hide Unpack, S.Handle, MessageQueue.Valid;
      var u := UnpackResponse(recvMem, recvCurr);
      again := false;
      match u
      case More =>
        rv := Ok;
        if recvFree == 0 {
          error := RecvBufferTooSmall;
          rv := RecvBufferTooSmall;
        }
      case Bad(e) =>
        error := e;
        rv := e;
      case Packet(consumed, _, response) =>
        rv := Handle(response, stale);
        Shift(consumed);
        again := rv == Ok;
    }

    /** __mqtt_recv; `net` is what the network has to offer, `left` what it still has afterwards. */
    method Recv(net: seq<seq<byte>>, stale: S.Stale) returns (rv: Status, left: seq<seq<byte>>)
      requires Valid() && R.Sound(recvMem[..recvCurr] + R.Flat(net))
      modifies this, mq, mq.mem, mq.slots, recvMem
      ensures Valid()
      ensures R.Received(Session(), recvMem[..recvCurr], left, rv)
           == R.Recv(old(Session()), old(recvMem[..recvCurr]), net, recvMem.Length, stale)
    {
      hide Unpack, S.Handle, S.Fits, R.Sound, R.Flat, R.Take, MessageQueue.Valid;
      left := net;
      rv := Ok;
      var again := true;
      while again
        invariant Valid()
        invariant again ==> R.Sound(recvMem[..recvCurr] + R.Flat(left))
        invariant if again then R.Recv(Session(), recvMem[..recvCurr], left, recvMem.Length, stale)
                                == R.Recv(old(Session()), old(recvMem[..recvCurr]), net, recvMem.Length, stale)
                  else R.Received(Session(), recvMem[..recvCurr], left, rv)
                       == R.Recv(old(Session()), old(recvMem[..recvCurr]), net, recvMem.Length, stale)
        decreases recvCurr + |R.Flat(left)|, again
      {
        ghost var buffer, offered := recvMem[..recvCurr], left;
        left := RecvAll(left);
        ghost var b := recvMem[..recvCurr];
        R.TurnIsSound(buffer, offered, left, b, recvMem.Length);
        rv, again := RecvOne(stale);
      }
    }
  }
}
