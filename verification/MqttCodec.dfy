/**
 Packing and unpacking (libs/mqtt.c) as the loops over a byte buffer that they are, proved
 against the packet formats of the module MqttPacket. No pack function writes outside the room it
 was given.
 */
module MqttCodec {
  import opened Bytes
  import opened MqttTypes
  import opened MqttPacket
  import opened MqttConnect
  import opened Wrappers

  /** A request the client can pack. */
  datatype Request =
    | ReqConnect(connection: Connection)
    | ReqPublish(topic: seq<byte>, id: u16, payload: seq<byte>, flags: byte)
    | ReqPubxxx(control: nibble, id: u16)
    | ReqSubscribe(id: u16, topic: seq<byte>, maxQos: byte)
    | ReqUnsubscribe(id: u16, topic: seq<byte>)
    | ReqPing
    | ReqDisconnect
  {
    /** The control type the caller stores in the queued message. */
    function Control(): nibble {
      match this
      case ReqConnect(_) => CONNECT
      case ReqPublish(_, _, _, _) => PUBLISH
      case ReqPubxxx(control, _) => control
      case ReqSubscribe(_, _, _) => SUBSCRIBE
      case ReqUnsubscribe(_, _) => UNSUBSCRIBE
      case ReqPing => PINGREQ
      case ReqDisconnect => DISCONNECT
    }

    function Pack(room: nat): Packing {
      match this
      case ReqConnect(connection) => PackConnect(connection, room)
      case ReqPublish(topic, id, payload, flags) => PackPublish(topic, id, payload, flags, room)
      case ReqPubxxx(control, id) => PackPubxxx(control, id, room)
      case ReqSubscribe(id, topic, maxQos) => PackSubscribe(id, topic, maxQos, room)
      case ReqUnsubscribe(id, topic) => PackUnsubscribe(id, topic, room)
      case ReqPing => PackBare(PINGREQ, room)
      case ReqDisconnect => PackBare(DISCONNECT, room)
    }

    lemma PackFits(room: nat)
      requires Pack(room).Packed?
      ensures 2 <= |Pack(room).bytes| <= room
      ensures Pack(room).bytes[0] / 16 == Control()
    {
      hide PackWith, PublishBody, ConnectBody, ConnectRemaining;
      match this
      case ReqConnect(c) =>
        BodyFillsRemaining(c);
        PackWithFits(CONNECT, 0, ConnectRemaining(c), ConnectBody(c), room);
      case ReqPublish(topic, id, payload, flags) =>
        PublishBodyFits(topic, id, payload, flags);
        PackWithFits(PUBLISH, PublishFlags(flags), PublishRemaining(topic, payload, flags),
            PublishBody(topic, id, payload, flags), room);
      case ReqPubxxx(control, id) => PackWithFits(control, if control == PUBREL then 2 else 0, 2, U16(id), room);
      case ReqSubscribe(id, topic, maxQos) =>
        PackWithFits(SUBSCRIBE, 2, 5 + |topic|, U16(id) + PackStr(topic) + [maxQos], room);
      case ReqUnsubscribe(id, topic) => PackWithFits(UNSUBSCRIBE, 2, 4 + |topic|, U16(id) + PackStr(topic), room);
      case ReqPing => PackWithFits(PINGREQ, 0, 0, [], room);
      case ReqDisconnect => PackWithFits(DISCONNECT, 0, 0, [], room);
    }
  }

  lemma PackWithFits(control: nibble, flags: nibble, remaining: nat, body: seq<byte>, room: nat)
    requires PackWith(control, flags, remaining, body, room).Packed? && |body| <= remaining
    ensures 2 <= |PackWith(control, flags, remaining, body, room).bytes| <= room
    ensures PackWith(control, flags, remaining, body, room).bytes[0] / 16 == control
  {
    hide Varint;
  }

  lemma PublishBodyFits(topic: seq<byte>, id: u16, payload: seq<byte>, flags: byte)
    ensures |PublishBody(topic, id, payload, flags)| <= PublishRemaining(topic, payload, flags)
  {}

  /** The value a pack function returns: the number of bytes written, 0, or a negative error. */
  datatype Returned = Wrote(n: nat) | Zero | Error(e: Status)

  function ReturnOf(p: Packing): Returned {
    match p
    case Packed(bytes) => Wrote(|bytes|)
    case NoRoom => Zero
    case Refused(e) => Error(e)
  }

  twostate predicate OnlyWithin(buf: array<byte>, off: nat, room: nat)
    reads buf
  {
    forall i :: 0 <= i < buf.Length && !(off <= i < off + room) ==> buf[i] == old(buf[i])
  }

  /** memcpy */
  method Copy(buf: array<byte>, at: nat, s: seq<byte>)
    requires at + |s| <= buf.Length
    modifies buf
    ensures buf[at..at + |s|] == s
    ensures forall i :: 0 <= i < buf.Length && !(at <= i < at + |s|) ==> buf[i] == old(buf[i])
  {
    forall i | 0 <= i < |s| { buf[at + i] := s[i]; }
  }

  lemma VarintByte(n: nat)
    ensures Varint(n) == if n > 127 then [n % 128 + 128] + Varint(n / 128) else [n]
  {}

  /** The loop of mqtt_pack_fixed_header: the remaining length goes behind buf[off]; 0 when the buffer is full. */
  method PackLength(buf: array<byte>, off: nat, bufsz: nat, remaining: nat) returns (size: nat)
    requires bufsz > 0 && off + bufsz <= buf.Length
    modifies buf
    ensures OnlyWithin(buf, off + 1, bufsz - 1)
    ensures size == if |Varint(remaining)| < bufsz then |Varint(remaining)| else 0
    ensures size > 0 ==> buf[off + 1..off + 1 + size] == Varint(remaining)
  {
    hide Varint;
    var left, pos, rest, more := bufsz, off, remaining, true;
    ghost var toCome := Varint(remaining);
    while more
      invariant off <= pos < off + bufsz && left == bufsz - (pos - off)
      invariant OnlyWithin(buf, off + 1, bufsz - 1)
      invariant toCome == if more then Varint(rest) else []
      invariant Varint(remaining) == buf[off + 1..pos + 1] + toCome
      decreases rest, more
    {
      ghost var written := buf[off + 1..pos + 1];
      VarintByte(rest);
      left, pos := left - 1, pos + 1;
      if left == 0 { return 0; }
      buf[pos] := if rest > 127 then rest % 128 + 128 else rest;
      assert buf[off + 1..pos + 1] == written + [buf[pos]];
      more := rest > 127;
      rest := rest / 128;
      toCome := if more then Varint(rest) else [];
      assert written + ([buf[pos]] + toCome) == buf[off + 1..pos + 1] + toCome;
    }
    return pos - off;
  }

  /** mqtt_pack_fixed_header */
  method PackFixedHeader(buf: array<byte>, off: nat, bufsz: nat, control: nibble, flags: nibble, remaining: nat)
    returns (rv: Returned)
    requires off + bufsz <= buf.Length
    modifies buf
    ensures OnlyWithin(buf, off, bufsz)
    ensures rv == match PackWith(control, flags, remaining, [], bufsz)
                  case Packed(header) => Wrote(|header|)
                  case NoRoom => Zero
                  case Refused(e) => Error(e)
    ensures rv.Wrote? ==> rv.n + remaining <= bufsz && buf[off..off + rv.n] == HeaderBytes(control, flags, remaining)
  {
    hide Varint;
    var violation := RuleViolation(control, flags);
    if violation != Ok { return Error(violation); }
    if bufsz == 0 { return Zero; }
    buf[off] := control * 16 + flags;
    if remaining >= MAX_REMAINING { return Error(InvalidRemainingLength); }
    var size := PackLength(buf, off, bufsz, remaining);
    if size == 0 { return Zero; }
    assert buf[off..off + 1 + size] == [buf[off]] + buf[off + 1..off + 1 + size];
    if bufsz - 1 - size < remaining { return Zero; }
    return Wrote(1 + size);
  }

  // ----- The pieces of a packet -------------------------------------------------------------------------

  lemma Chain(p: seq<byte>, a: seq<byte>, b: seq<byte>, c: seq<byte>)
    ensures ((p + a) + b) + c == p + (a + (b + c)) == p + ((a + b) + c)
  {}

  /** `piece` has been written at `pos`, behind what was written from `start` on. */
  twostate predicate Appended(buf: array<byte>, start: nat, pos: nat, piece: seq<byte>)
    reads buf
  {
    && start <= pos && pos + |piece| <= buf.Length
    && buf[start..pos + |piece|] == old(buf[start..pos]) + piece
    && OnlyWithin(buf, pos, |piece|)
  }

  /** *buf++ = b */
  method PackByte(buf: array<byte>, ghost start: nat, pos: nat, b: byte) returns (next: nat)
    requires start <= pos < buf.Length
    modifies buf
    ensures next == pos + 1 && Appended(buf, start, pos, [b])
  {
    buf[pos] := b;
    assert buf[start..pos + 1] == old(buf[start..pos]) + [b];
    return pos + 1;
  }

  /** __mqtt_pack_uint16 */
  method PackUint16(buf: array<byte>, ghost start: nat, pos: nat, n: u16) returns (next: nat)
    requires start <= pos && pos + 2 <= buf.Length
    modifies buf
    ensures next == pos + 2 && Appended(buf, start, pos, U16(n))
  {
    buf[pos] := n / 256;
    buf[pos + 1] := n % 256;
    assert buf[start..pos + 2] == old(buf[start..pos]) + U16(n);
    return pos + 2;
  }

  /** memcpy, and the step behind it */
  method PackBytes(buf: array<byte>, ghost start: nat, pos: nat, s: seq<byte>) returns (next: nat)
    requires start <= pos && pos + |s| <= buf.Length
    modifies buf
    ensures next == pos + |s| && Appended(buf, start, pos, s)
  {
    forall i | 0 <= i < |s| { buf[pos + i] := s[i]; }
    assert buf[start..pos + |s|] == old(buf[start..pos]) + s;
    return pos + |s|;
  }

  /** __mqtt_pack_str: the length in sixteen bits, and as many bytes of the string as it says. */
  method PackString(buf: array<byte>, ghost start: nat, pos: nat, s: seq<byte>) returns (next: nat)
    requires start <= pos && pos + |PackStr(s)| <= buf.Length
    modifies buf
    ensures next == pos + |PackStr(s)| && Appended(buf, start, pos, PackStr(s))
  {
    var length := |s| % 65536;
    CutOff(|s|);
    next := PackUint16(buf, start, pos, length);
    ghost var before := old(buf[start..pos]);
    var i := 0;
    while i < length
      invariant 0 <= i <= length && next == pos + 2 + i
      invariant OnlyWithin(buf, pos, 2 + length)
      invariant buf[start..next] == before + (U16(length) + s[..i])
    {
      buf[next] := s[i];
      assert buf[start..next + 1] == buf[start..next] + [s[i]] && s[..i + 1] == s[..i] + [s[i]];
      next := next + 1;
      i := i + 1;
    }
  }

  /** A string that may be missing. */
  method PackOptional(buf: array<byte>, ghost start: nat, pos: nat, s: Option<seq<byte>>) returns (next: nat)
    requires start <= pos && pos + |OptionalStr(s)| <= buf.Length
    modifies buf
    ensures next == pos + |OptionalStr(s)| && Appended(buf, start, pos, OptionalStr(s))
  {
    if s.Some? {
      next := PackString(buf, start, pos, s.value);
    } else {
      next := pos;
    }
  }

  // ----- The pack functions -----------------------------------------------------------------------------

  /** What a pack function leaves behind: its result, and the packet where it was to go. */
  twostate predicate Packs(buf: array<byte>, off: nat, bufsz: nat, rv: Returned, p: Packing)
    reads buf
  {
    && OnlyWithin(buf, off, bufsz) && rv == ReturnOf(p)
    && (rv.Wrote? ==> rv.n <= bufsz && off + rv.n <= buf.Length && p.Packed? && buf[off..off + rv.n] == p.bytes)
  }

  /** A header that was written promises a packet with any body. */
  lemma HeaderPromises(control: nibble, flags: nibble, remaining: nat, body: seq<byte>, room: nat)
    ensures match PackWith(control, flags, remaining, [], room)
            case Packed(header) => header == HeaderBytes(control, flags, remaining)
                                   && PackWith(control, flags, remaining, body, room) == Packed(header + body)
            case other => PackWith(control, flags, remaining, body, room) == other
  {
    hide Varint;
    assert HeaderBytes(control, flags, remaining) + [] == HeaderBytes(control, flags, remaining);
  }

  /** The packet id of a PUBLISH, which QoS 0 does without. */
  function IdBytes(id: u16, flags: byte): seq<byte> {
    if QosOf(flags) > 0 then U16(id) else []
  }

  method PackId(buf: array<byte>, ghost start: nat, pos: nat, id: u16, flags: byte) returns (next: nat)
    requires start <= pos && pos + |IdBytes(id, flags)| <= buf.Length
    modifies buf
    ensures next == pos + |IdBytes(id, flags)| && Appended(buf, start, pos, IdBytes(id, flags))
  {
    next := pos;
    if QosOf(flags) > 0 { next := PackUint16(buf, start, pos, id); }
  }

  /** The variable header and payload of a PUBLISH. */
  method PackPublishPieces(buf: array<byte>, ghost start: nat, pos: nat, topic: seq<byte>, id: u16, payload: seq<byte>,
                           flags: byte)
    returns (next: nat)
    requires start <= pos && pos + |PublishBody(topic, id, payload, flags)| <= buf.Length
    modifies buf
    ensures next == pos + |PublishBody(topic, id, payload, flags)|
    ensures Appended(buf, start, pos, PublishBody(topic, id, payload, flags))
  {
    ghost var before := buf[start..pos];
    assert PublishBody(topic, id, payload, flags) == PackStr(topic) + IdBytes(id, flags) + payload;
    hide PackStr, IdBytes, PublishBody;
    next := PackString(buf, start, pos, topic);
    next := PackId(buf, start, next, id, flags);
    next := PackBytes(buf, start, next, payload);
    Chain(before, PackStr(topic), IdBytes(id, flags), payload);
  }

  /** mqtt_pack_publish_request */
  method PackPublishRequest(buf: array<byte>, off: nat, bufsz: nat, topic: seq<byte>, id: u16, payload: seq<byte>,
                            flags: byte)
    returns (rv: Returned)
    requires off + bufsz <= buf.Length
    modifies buf
    ensures Packs(buf, off, bufsz, rv, PackPublish(topic, id, payload, flags, bufsz))
  {
    hide HeaderBytes, PackWith, PublishBody, WithoutDup, QosOf;
    var qos, sentFlags := QosOf(flags), flags;
    var remaining := 2 + |topic|;
    if qos > 0 { remaining := remaining + 2; }
    remaining := remaining + |payload|;
    if qos == 0 { sentFlags := WithoutDup(flags); }
    if qos == 3 { return Error(PublishForbiddenQos); }
    PublishBodyFits(topic, id, payload, flags);
    HeaderPromises(PUBLISH, sentFlags % 16, remaining, PublishBody(topic, id, payload, flags), bufsz);
    rv := PackFixedHeader(buf, off, bufsz, PUBLISH, sentFlags % 16, remaining);
    if !rv.Wrote? { return; }
    var pos := PackPublishPieces(buf, off, off + rv.n, topic, id, payload, flags);
    return Wrote(pos - off);
  }

  /** mqtt_pack_pubxxx_request */
  method PackPubxxxRequest(buf: array<byte>, off: nat, bufsz: nat, control: nibble, id: u16) returns (rv: Returned)
    requires off + bufsz <= buf.Length
    modifies buf
    ensures Packs(buf, off, bufsz, rv, PackPubxxx(control, id, bufsz))
  {
    hide U16, HeaderBytes, PackWith;
    var flags := if control == PUBREL then 2 else 0;
    HeaderPromises(control, flags, 2, U16(id), bufsz);
    rv := PackFixedHeader(buf, off, bufsz, control, flags, 2);
    if !rv.Wrote? { return; }
    var pos := PackUint16(buf, off, off + rv.n, id);
    return Wrote(pos - off);
  }

  /** The id and the topic of a SUBSCRIBE or UNSUBSCRIBE. */
  method PackTopic(buf: array<byte>, ghost start: nat, pos: nat, id: u16, topic: seq<byte>) returns (next: nat)
    requires start <= pos && pos + |U16(id) + PackStr(topic)| <= buf.Length
    modifies buf
    ensures next == pos + |U16(id) + PackStr(topic)| && Appended(buf, start, pos, U16(id) + PackStr(topic))
  {
    hide U16, PackStr;
    ghost var before := buf[start..pos];
    next := PackUint16(buf, start, pos, id);
    next := PackString(buf, start, next, topic);
    assert (before + U16(id)) + PackStr(topic) == before + (U16(id) + PackStr(topic));
  }

  /** The variable header and payload of a SUBSCRIBE. */
  method PackSubscribePieces(buf: array<byte>, ghost start: nat, pos: nat, id: u16, topic: seq<byte>, maxQos: byte)
    returns (next: nat)
    requires start <= pos && pos + |U16(id) + PackStr(topic) + [maxQos]| <= buf.Length
    modifies buf
    ensures next == pos + |U16(id) + PackStr(topic) + [maxQos]|
            && Appended(buf, start, pos, U16(id) + PackStr(topic) + [maxQos])
  {
    hide U16, PackStr;
    ghost var before, first := buf[start..pos], U16(id) + PackStr(topic);
    next := PackTopic(buf, start, pos, id, topic);
    next := PackByte(buf, start, next, maxQos);
    assert (before + first) + [maxQos] == before + (first + [maxQos]);
  }

  /** mqtt_pack_subscribe_request for one topic */
  method PackSubscribeRequest(buf: array<byte>, off: nat, bufsz: nat, id: u16, topic: seq<byte>, maxQos: byte)
    returns (rv: Returned)
    requires off + bufsz <= buf.Length
    modifies buf
    ensures Packs(buf, off, bufsz, rv, PackSubscribe(id, topic, maxQos, bufsz))
  {
    hide U16, HeaderBytes, PackWith, PackStr;
    CutOff(|topic|);
    HeaderPromises(SUBSCRIBE, 2, 2 + (2 + |topic|) + 1, U16(id) + PackStr(topic) + [maxQos], bufsz);
    rv := PackFixedHeader(buf, off, bufsz, SUBSCRIBE, 2, 2 + (2 + |topic|) + 1);
    if !rv.Wrote? { return; }
    var pos := PackSubscribePieces(buf, off, off + rv.n, id, topic, maxQos);
    return Wrote(pos - off);
  }

  /** mqtt_pack_unsubscribe_request for one topic */
  method PackUnsubscribeRequest(buf: array<byte>, off: nat, bufsz: nat, id: u16, topic: seq<byte>)
    returns (rv: Returned)
    requires off + bufsz <= buf.Length
    modifies buf
    ensures Packs(buf, off, bufsz, rv, PackUnsubscribe(id, topic, bufsz))
  {
    hide U16, HeaderBytes, PackWith, PackStr;
    CutOff(|topic|);
    HeaderPromises(UNSUBSCRIBE, 2, 2 + (2 + |topic|), U16(id) + PackStr(topic), bufsz);
    rv := PackFixedHeader(buf, off, bufsz, UNSUBSCRIBE, 2, 2 + (2 + |topic|));
    if !rv.Wrote? { return; }
    var pos := PackTopic(buf, off, off + rv.n, id, topic);
    return Wrote(pos - off);
  }

  /** mqtt_pack_ping_request, mqtt_pack_disconnect */
  method PackBareRequest(buf: array<byte>, off: nat, bufsz: nat, control: nibble) returns (rv: Returned)
    requires off + bufsz <= buf.Length
    modifies buf
    ensures Packs(buf, off, bufsz, rv, PackBare(control, bufsz))
  {
    hide HeaderBytes, PackWith;
    HeaderPromises(control, 0, 0, [], bufsz);
    rv := PackFixedHeader(buf, off, bufsz, control, 0, 0);
  }

  // ----- CONNECT ----------------------------------------------------------------------------------------

  /** f | w, for a single bit w */
  function SetBit(f: nat, w: nat): nat
    requires w > 0
  {
    f + (1 - f / w % 2) * w
  }

  /** f & ~w */
  function ClearBit(f: nat, w: nat): int
    requires w > 0
  {
    f - f / w % 2 * w
  }

  /** The bits of a flag byte, from the user name down to the reserved bit; the will QoS are two bits. */
  datatype ConnectBits = ConnectBits(user: nat, password: nat, retain: nat, qos: nat, will: nat, clean: nat,
      reserved: nat) {
    predicate Valid() {
      user < 2 && password < 2 && retain < 2 && qos < 4 && will < 2 && clean < 2 && reserved < 2
    }

    function Value(): nat {
      128 * user + 64 * password + 32 * retain + 8 * qos + 4 * will + 2 * clean + reserved
    }
  }

  /** The bits of `f` are where the flags say. */
  lemma BitsAre(b: ConnectBits, f: nat)
    requires b.Valid() && f == b.Value()
    ensures f < 256 && f / 128 % 2 == b.user && f / 64 % 2 == b.password && f / 32 % 2 == b.retain
    ensures f / 8 % 4 == b.qos && f / 4 % 2 == b.will && f / 2 % 2 == b.clean && f / 1 % 2 == b.reserved
  {
    assert f / 2 == 64 * b.user + 32 * b.password + 16 * b.retain + 4 * b.qos + 2 * b.will + b.clean;
    assert f / 4 == 32 * b.user + 16 * b.password + 8 * b.retain + 2 * b.qos + b.will;
    assert f / 8 == 16 * b.user + 8 * b.password + 4 * b.retain + b.qos;
    assert f / 32 == 4 * b.user + 2 * b.password + b.retain;
    assert f / 64 == 2 * b.user + b.password;
    assert f / 128 == b.user;
  }

  function BitsOf(f: byte): (b: ConnectBits)
    ensures b.Valid()
  {
    ConnectBits(f / 128, f / 64 % 2, f / 32 % 2, f / 8 % 4, f / 4 % 2, f / 2 % 2, f % 2)
  }

  lemma BitsMakeUp(f: byte)
    ensures BitsOf(f).Value() == f
  {
    assert f / 64 == 2 * (f / 128) + f / 64 % 2;
    assert f / 32 == 2 * (f / 64) + f / 32 % 2;
    assert f / 8 == 4 * (f / 32) + f / 8 % 4;
    assert f / 4 == 2 * (f / 8) + f / 4 % 2;
    assert f / 2 == 2 * (f / 4) + f / 2 % 2;
  }

  lemma ReservedBit(b: ConnectBits)
    requires b.Valid()
    ensures ClearBit(b.Value(), 1) == b.(reserved := 0).Value()
  {
    BitsAre(b, b.Value());
  }

  lemma UserBit(b: ConnectBits)
    requires b.Valid()
    ensures SetBit(b.Value(), 128) == b.(user := 1).Value() && ClearBit(b.Value(), 128) == b.(user := 0).Value()
  {
    BitsAre(b, b.Value());
  }

  lemma PasswordBit(b: ConnectBits)
    requires b.Valid()
    ensures SetBit(b.Value(), 64) == b.(password := 1).Value() && ClearBit(b.Value(), 64) == b.(password := 0).Value()
  {
    BitsAre(b, b.Value());
  }

  lemma WillBits(b: ConnectBits)
    requires b.Valid()
    ensures SetBit(b.Value(), 4) == b.(will := 1).Value() && ClearBit(b.Value(), 4) == b.(will := 0).Value()
    ensures ClearQos(b.Value()) == b.(qos := 0).Value() && ClearBit(b.Value(), 32) == b.(retain := 0).Value()
  {
    BitsAre(b, b.Value());
  }

  /** f & ~0x18 */
  function ClearQos(f: nat): int {
    f - f / 8 % 4 * 8
  }

  lemma WireBits(c: Connection)
    ensures var b := BitsOf(c.flags);
            var w := if c.will.Some? then b.(reserved := 0, will := 1)
                     else b.(reserved := 0, will := 0, qos := 0, retain := 0);
            WireFlags(c) == w.(user := Bit(c.user), password := Bit(c.password)).Value()
  {}

  /** connect_flags as mqtt_pack_connection_request puts them together. */
  method ConnectFlags(c: Connection) returns (flags: byte)
    ensures flags == WireFlags(c)
  {
    hide SetBit, ClearBit, ClearQos, ConnectBits.Value, BitsOf, WireFlags;
    ghost var b := BitsOf(c.flags);
    BitsMakeUp(c.flags);
    WireBits(c);
    ReservedBit(b);
    var f: nat;
    f, b := ClearBit(c.flags, 1), b.(reserved := 0);
    WillBits(b);
    if c.will.Some? {
      f, b := SetBit(f, 4), b.(will := 1);
    } else {
      f, b := ClearBit(f, 4), b.(will := 0);
      WillBits(b);
      f, b := ClearQos(f), b.(qos := 0);
      WillBits(b);
      f, b := ClearBit(f, 32), b.(retain := 0);
    }
    UserBit(b);
    if c.user.Some? {
      f, b := SetBit(f, 128), b.(user := 1);
    } else {
      f, b := ClearBit(f, 128), b.(user := 0);
    }
    PasswordBit(b);
    if c.password.Some? {
      f, b := SetBit(f, 64), b.(password := 1);
    } else {
      f, b := ClearBit(f, 64), b.(password := 0);
    }
    return f;
  }

  /** remaining_length, added up on the way. */
  method ConnectLength(c: Connection) returns (remaining: nat)
    ensures remaining == ConnectRemaining(c)
  {
    remaining := 10;
    remaining := remaining + (2 + |c.clientId|);
    if c.will.Some? {
      remaining := remaining + (2 + |c.will.value.topic|);
      remaining := remaining + 2;
      if c.will.value.message.Some? { remaining := remaining + |c.will.value.message.value|; }
    }
    if c.user.Some? { remaining := remaining + (2 + |c.user.value|); }
    if c.password.Some? { remaining := remaining + (2 + |c.password.value|); }
  }

  /** The protocol name and level of a CONNECT. */
  method PackProtocol(buf: array<byte>, ghost start: nat, pos: nat) returns (next: nat)
    requires start <= pos && pos + 7 <= buf.Length
    modifies buf
    ensures next == pos + 7 && Appended(buf, start, pos, PROTOCOL)
  {
    ghost var before := buf[start..pos];
    buf[pos], buf[pos + 1], buf[pos + 2], buf[pos + 3] := 0x00, 0x04, 0x4D, 0x51;
    buf[pos + 4], buf[pos + 5], buf[pos + 6] := 0x54, 0x54, 4;
    assert buf[start..pos] == before && buf[pos..pos + 7] == PROTOCOL;
    assert buf[start..pos + 7] == buf[start..pos] + buf[pos..pos + 7];
    return pos + 7;
  }

  /** The variable header of a CONNECT. */
  method PackConnectHeader(buf: array<byte>, ghost start: nat, pos: nat, flags: byte, keepAlive: u16)
    returns (next: nat)
    requires start <= pos && pos + 10 <= buf.Length
    modifies buf
    ensures next == pos + 10 && Appended(buf, start, pos, PROTOCOL + ([flags] + U16(keepAlive)))
  {
    hide U16;
    ghost var before := buf[start..pos];
    next := PackProtocol(buf, start, pos);
    next := PackByte(buf, start, next, flags);
    next := PackUint16(buf, start, next, keepAlive);
    Chain(before, PROTOCOL, [flags], U16(keepAlive));
  }

  /** A will message is written whole, behind its length in 16 bits. */
  method PackMessage(buf: array<byte>, ghost start: nat, pos: nat, message: seq<byte>) returns (next: nat)
    requires start <= pos && pos + 2 + |message| <= buf.Length
    modifies buf
    ensures next == pos + 2 + |message| && Appended(buf, start, pos, U16(|message| % 65536) + message)
  {
    hide U16;
    ghost var before, length := buf[start..pos], U16(|message| % 65536);
    next := PackUint16(buf, start, pos, |message| % 65536);
    next := PackBytes(buf, start, next, message);
    assert (before + length) + message == before + (length + message);
  }

  /** The will of a CONNECT. */
  method PackWill(buf: array<byte>, ghost start: nat, pos: nat, c: Connection) returns (next: nat)
    requires start <= pos && pos + |WillBytes(c)| <= buf.Length && (c.will.Some? ==> c.will.value.message.Some?)
    modifies buf
    ensures next == pos + |WillBytes(c)| && Appended(buf, start, pos, WillBytes(c))
  {
    hide U16, PackStr;
    ghost var before := buf[start..pos];
    next := pos;
    if c.will.Some? {
      var topic, message := c.will.value.topic, c.will.value.message.value;
      ghost var behind := U16(|message| % 65536) + message;
      next := PackString(buf, start, next, topic);
      next := PackMessage(buf, start, next, message);
      assert (before + PackStr(topic)) + behind == before + (PackStr(topic) + behind);
    } else {
      assert buf[start..pos] == before + [];
    }
  }

  /** The user name and the password of a CONNECT, if there are any. */
  method PackCredentials(buf: array<byte>, ghost start: nat, pos: nat, user: Option<seq<byte>>,
                         password: Option<seq<byte>>)
    returns (next: nat)
    requires start <= pos && pos + |OptionalStr(user) + OptionalStr(password)| <= buf.Length
    modifies buf
    ensures next == pos + |OptionalStr(user) + OptionalStr(password)|
    ensures Appended(buf, start, pos, OptionalStr(user) + OptionalStr(password))
  {
    hide OptionalStr;
    ghost var before := buf[start..pos];
    next := PackOptional(buf, start, pos, user);
    next := PackOptional(buf, start, next, password);
    assert (before + OptionalStr(user)) + OptionalStr(password) == before + (OptionalStr(user) + OptionalStr(password));
  }

  function ConnectPayload(c: Connection): seq<byte> {
    PackStr(c.clientId) + (WillBytes(c) + (OptionalStr(c.user) + OptionalStr(c.password)))
  }

  /** The payload of a CONNECT. */
  method PackConnectPayload(buf: array<byte>, ghost start: nat, pos: nat, c: Connection) returns (next: nat)
    requires start <= pos && (c.will.Some? ==> c.will.value.message.Some?) && pos + |ConnectPayload(c)| <= buf.Length
    modifies buf
    ensures next == pos + |ConnectPayload(c)| && Appended(buf, start, pos, ConnectPayload(c))
  {
    hide PackStr, WillBytes, OptionalStr;
    ghost var before := buf[start..pos];
    next := PackString(buf, start, pos, c.clientId);
    next := PackWill(buf, start, next, c);
    next := PackCredentials(buf, start, next, c.user, c.password);
    Chain(before, PackStr(c.clientId), WillBytes(c), OptionalStr(c.user) + OptionalStr(c.password));
  }

  lemma ConnectParts(c: Connection, flags: byte)
    requires flags == WireFlags(c)
    ensures ConnectBody(c) == (PROTOCOL + ([flags] + U16(c.keepAlive))) + ConnectPayload(c)
  {
    hide U16, PackStr, WillBytes, OptionalStr, WireFlags;
    var payload, k := ConnectPayload(c), U16(c.keepAlive);
    assert PROTOCOL + ([flags] + (k + payload)) == (PROTOCOL + ([flags] + k)) + payload;
  }

  /** The variable header and payload of a CONNECT. */
  method PackConnectPieces(buf: array<byte>, ghost start: nat, pos: nat, flags: byte, c: Connection) returns (next: nat)
    requires start <= pos && flags == WireFlags(c) && (c.will.Some? ==> c.will.value.message.Some?)
    requires pos + |ConnectBody(c)| <= buf.Length
    modifies buf
    ensures next == pos + |ConnectBody(c)| && Appended(buf, start, pos, ConnectBody(c))
  {
    hide U16, ConnectPayload, ConnectBody, WireFlags;
    ghost var before, first := buf[start..pos], PROTOCOL + ([flags] + U16(c.keepAlive));
    ConnectParts(c, flags);
    next := PackConnectHeader(buf, start, pos, flags, c.keepAlive);
    next := PackConnectPayload(buf, start, next, c);
    assert (before + first) + ConnectPayload(c) == before + (first + ConnectPayload(c));
  }

  /** mqtt_pack_connection_request */
  method PackConnectRequest(buf: array<byte>, off: nat, bufsz: nat, c: Connection) returns (rv: Returned)
    requires off + bufsz <= buf.Length
    modifies buf
    ensures Packs(buf, off, bufsz, rv, PackConnect(c, bufsz))
  {
    hide HeaderBytes, PackWith, ConnectBody, WireFlags, ConnectRemaining, CleanOf, WillQosOf;
    if c.clientId == [] && CleanOf(c.flags) == 0 { return Error(CleanSessionIsRequired); }
    if c.will.Some? && c.will.value.message.None? { return Error(ConnectNullWillMessage); }
    if c.will.Some? && WillQosOf(c.flags) == 3 { return Error(ConnectForbiddenWillQos); }
    var flags := ConnectFlags(c);
    var remaining := ConnectLength(c);
    BodyFillsRemaining(c);
    HeaderPromises(CONNECT, 0, remaining, ConnectBody(c), bufsz);
    rv := PackFixedHeader(buf, off, bufsz, CONNECT, 0, remaining);
    if !rv.Wrote? { return; }
    var pos := PackConnectPieces(buf, off, off + rv.n, flags, c);
    return Wrote(pos - off);
  }

  /** Packs any request at buf[off], with bufsz bytes of room. */
  method PackRequest(req: Request, buf: array<byte>, off: nat, bufsz: nat) returns (rv: Returned)
    requires off + bufsz <= buf.Length
    modifies buf
    ensures Packs(buf, off, bufsz, rv, req.Pack(bufsz))
  {
    hide PackConnect, PackPublish, PackPubxxx, PackSubscribe, PackUnsubscribe, PackBare, OnlyWithin, ReturnOf;
    match req
    case ReqConnect(c) => rv := PackConnectRequest(buf, off, bufsz, c);
    case ReqPublish(topic, id, payload, flags) => rv := PackPublishRequest(buf, off, bufsz, topic, id, payload, flags);
    case ReqPubxxx(control, id) => rv := PackPubxxxRequest(buf, off, bufsz, control, id);
    case ReqSubscribe(id, topic, maxQos) => rv := PackSubscribeRequest(buf, off, bufsz, id, topic, maxQos);
    case ReqUnsubscribe(id, topic) => rv := PackUnsubscribeRequest(buf, off, bufsz, id, topic);
    case ReqPing => rv := PackBareRequest(buf, off, bufsz, PINGREQ);
    case ReqDisconnect => rv := PackBareRequest(buf, off, bufsz, DISCONNECT);
  }

  // ----- Unpacking --------------------------------------------------------------------------------------

  /** 128 to the power of the number of length bytes read. */
  function Scale(shifts: nat): nat
    requires shifts <= 4
  {
    if shifts == 0 then 1 else if shifts == 1 then 0x80 else if shifts == 2 then 0x4000
        else if shifts == 3 then 0x20_0000 else 0x1000_0000
  }

  function Scaled(r: Length, remaining: nat, shifts: nat): Length
    requires shifts <= 4
  {
    match r
    case Length(v, n) => Length(remaining + Scale(shifts) * v, n + shifts)
    case other => other
  }

  lemma ScaleStep(b: byte, r: Length, remaining: nat, shifts: nat)
    requires shifts < 4 && b >= 128
    ensures Scaled(match r case Length(v, n) => Length(b - 128 + 128 * v, n + 1) case other => other, remaining, shifts)
         == Scaled(r, remaining + b % 128 * Scale(shifts), shifts + 1)
  {
    if r.Length? {
      var v := r.value;
      assert Scale(shifts + 1) == 128 * Scale(shifts);
      assert Scale(shifts) * (b - 128 + 128 * v) == Scale(shifts) * (b - 128) + Scale(shifts) * 128 * v;
    }
  }

  lemma LengthByte(rest: seq<byte>, remaining: nat, shifts: nat)
    requires shifts < 4 && rest != []
    ensures var total := remaining + rest[0] % 128 * Scale(shifts);
            (Scaled(DecodeLength(rest, shifts), remaining, shifts)
             == if rest[0] >= 128 then Scaled(DecodeLength(rest[1..], shifts + 1), total, shifts + 1)
                 else Length(total, shifts + 1))
  {
    if rest[0] >= 128 {
      ScaleStep(rest[0], DecodeLength(rest[1..], shifts + 1), remaining, shifts);
    }
  }

  lemma NoLengthByte(rest: seq<byte>, remaining: nat, shifts: nat)
    requires shifts <= 4
    ensures shifts == 4 ==> Scaled(DecodeLength(rest, shifts), remaining, shifts) == TooLong
    ensures shifts < 4 && rest == [] ==> Scaled(DecodeLength(rest, shifts), remaining, shifts) == NeedMore
  {}

  lemma Unscaled(r: Length)
    ensures Scaled(r, 0, 0) == r
  {}

  /** The loop of mqtt_unpack_fixed_header over the bytes of the remaining length. */
  method UnpackLength(buf: array<byte>, bufsz: nat) returns (r: Length)
    requires 1 <= bufsz <= buf.Length
    ensures r == DecodeLength(buf[1..bufsz], 0)
  {
    hide DecodeLength, Scaled, Scale;
    var left, pos: nat := bufsz, 0;
    var remaining: nat, shifts: nat, more := 0, 0, true;
    ghost var whole := DecodeLength(buf[1..bufsz], 0);
    Unscaled(whole);
    while more
      invariant shifts <= 4 && pos == shifts && pos < bufsz && left == bufsz - pos
      invariant if more then whole == Scaled(DecodeLength(buf[pos + 1..bufsz], shifts), remaining, shifts)
                else whole == Length(remaining, shifts)
      decreases 4 - shifts, more
    {
      NoLengthByte(buf[pos + 1..bufsz], remaining, shifts);
      if shifts == 4 { return TooLong; }
      left, pos := left - 1, pos + 1;
      if left == 0 { return NeedMore; }
      ghost var rest := buf[pos..bufsz];
      assert rest[1..] == buf[pos + 1..bufsz] && rest[0] == buf[pos];
      LengthByte(rest, remaining, shifts);
      remaining := remaining + buf[pos] % 128 * Scale(shifts);
      shifts := shifts + 1;
      more := buf[pos] >= 128;
    }
    return Length(remaining, shifts);
  }

  /** mqtt_unpack_fixed_header */
  method UnpackHeader(buf: array<byte>, bufsz: nat) returns (r: HeaderResult)
    requires bufsz <= buf.Length
    ensures r == UnpackFixedHeader(buf[..bufsz])
  {
    if bufsz == 0 { return HeaderMore; }
    assert buf[..bufsz][1..] == buf[1..bufsz];
    var length := UnpackLength(buf, bufsz);
    match length
    case NeedMore => return HeaderMore;
    case TooLong => return HeaderBad(InvalidRemainingLength);
    case Length(remaining, n) =>
      var control, flags := buf[0] / 16, buf[0] % 16;
      var violation := RuleViolation(control, flags);
      if violation != Ok { return HeaderBad(violation); }
      if bufsz - 1 - n < remaining { return HeaderMore; }
      return Header(control, flags, remaining, 1 + n);
  }

  /** __mqtt_unpack_uint16 */
  method UnpackUint16(buf: array<byte>, at: nat) returns (n: u16)
    requires at + 2 <= buf.Length
    ensures n == FromU16(buf[at], buf[at + 1])
  {
    var high: nat, low: nat := buf[at], buf[at + 1];
    return 256 * high + low;
  }

  /** mqtt_unpack_connack_response; `at` is where the fixed header of `size` bytes ends. */
  method UnpackConnack(buf: array<byte>, at: nat, remaining: nat, size: nat) returns (r: Unpacked)
    requires at + remaining <= buf.Length
    ensures r == UnpackBody(CONNACK, 0, buf[at..at + remaining], size)
  {
    if remaining != 2 { return Bad(MalformedResponse); }
    if buf[at] / 2 != 0 { return Bad(ConnackForbiddenFlags); }
    if buf[at + 1] > 5 { return Bad(ConnackForbiddenCode); }
    return Packet(size + 2, size + 2, RConnack(buf[at], buf[at + 1]));
  }

  /** mqtt_unpack_publish_response */
  method UnpackPublishAt(buf: array<byte>, at: nat, flags: nibble, remaining: nat, size: nat) returns (r: Unpacked)
    requires at + remaining <= buf.Length
    ensures r == UnpackPublish(flags, buf[at..at + remaining], size)
  {
    hide QosOf, DupOf, RetainOf;
    ghost var body := buf[at..at + remaining];
    var qos := QosOf(flags);
    if remaining < 4 { return Bad(MalformedResponse); }
    var pos := at;
    var n := UnpackUint16(buf, pos);
    pos := pos + 2;
    var topicAt := pos;
    pos := pos + n;
    var id := UNSET;
    if pos + (if qos > 0 then 2 else 0) > at + remaining { return Overrun; }
    var topic := buf[topicAt..topicAt + n];
    Subslice(buf[..], at, at + remaining, 2, 2 + n);
    if qos > 0 {
      id := UnpackUint16(buf, pos);
      pos := pos + 2;
    }
    var left := if qos == 0 then remaining - n - 2 else remaining - n - 4;
    var payload := buf[pos..pos + left];
    Subslice(buf[..], at, at + remaining, pos - at, remaining);
    pos := pos + left;
    return Packet(size + (pos - at), size + (pos - at), RPublish(DupOf(flags), qos, RetainOf(flags), topic, id,
           payload));
  }

  /** mqtt_unpack_pubxxx_response, mqtt_unpack_unsuback_response */
  method UnpackAck(buf: array<byte>, at: nat, control: nibble, remaining: nat, size: nat) returns (r: Unpacked)
    requires at + remaining <= buf.Length && (PUBACK <= control <= PUBCOMP || control == UNSUBACK)
    ensures r == UnpackBody(control, 0, buf[at..at + remaining], size)
  {
    hide FromU16;
    if remaining != 2 { return Bad(MalformedResponse); }
    var id := UnpackUint16(buf, at);
    var response := if control == PUBACK then RPuback(id) else if control == PUBREC then RPubrec(id)
                    else if control == PUBREL then RPubrel(id) else if control == PUBCOMP then RPubcomp(id)
                        else RUnsuback(id);
    return Packet(size + 2, size + 2, response);
  }

  /** mqtt_unpack_suback_response */
  method UnpackSuback(buf: array<byte>, at: nat, remaining: nat, size: nat) returns (r: Unpacked)
    requires at + remaining <= buf.Length
    ensures r == UnpackBody(SUBACK, 0, buf[at..at + remaining], size)
  {
    hide FromU16;
    ghost var body := buf[at..at + remaining];
    if remaining < 3 { return Bad(MalformedResponse); }
    var id := UnpackUint16(buf, at);
    var codes := buf[at + 2..at + 2 + (remaining - 2)];
    assert codes == body[2..];
    return Packet(size + 2 + (remaining - 2), size + remaining, RSuback(id, codes));
  }

  /** Only a PUBLISH has flags that matter. */
  lemma FlagsUnread(control: nibble, flags: nibble, body: seq<byte>, size: nat)
    requires control != PUBLISH
    ensures UnpackBody(control, flags, body, size) == UnpackBody(control, 0, body, size)
  {}

  /** mqtt_unpack_response; a response points into the buffer, here it holds the bytes pointed to. */
  method UnpackResponse(buf: array<byte>, bufsz: nat) returns (r: Unpacked)
    requires bufsz <= buf.Length
    ensures r == Unpack(buf[..bufsz])
  {
    hide UnpackFixedHeader, UnpackPublish;
    var h := UnpackHeader(buf, bufsz);
    match h
    case HeaderMore => return More;
    case HeaderBad(error) => return Bad(error);
    case Header(control, flags, remaining, size) =>
      ghost var body := buf[size..size + remaining];
      assert buf[..bufsz][size..size + remaining] == body;
      if control != PUBLISH { FlagsUnread(control, flags, body, size); }
      if control == CONNACK {
        r := UnpackConnack(buf, size, remaining, size);
      } else if control == PUBLISH {
        r := UnpackPublishAt(buf, size, flags, remaining, size);
      } else if PUBACK <= control <= PUBCOMP || control == UNSUBACK {
        r := UnpackAck(buf, size, control, remaining, size);
      } else if control == SUBACK {
        r := UnpackSuback(buf, size, remaining, size);
      } else if control == PINGRESP {
        r := Packet(size, size + remaining, RPingresp);
      } else {
        r := Bad(ResponseInvalidControlType);
      }
  }
}
