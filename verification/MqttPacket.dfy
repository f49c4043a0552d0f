/**
 The packets of the MQTT 3.1.1 client (libs/mqtt.c): what the mqtt_pack_ functions write and what the
 unpack functions make of a received buffer, and that the two agree.
 */
module MqttPacket {
  import opened Bytes
  import opened MqttTypes

  const MAX_REMAINING: nat := 0x1000_0000

  // ----- The remaining length (section 2.2.3 of MQTT 3.1.1) -------------------------------------------

  /** Seven bits a byte, least significant first; the top bit announces another byte. */
  function Varint(n: nat): (b: seq<byte>)
    ensures |b| >= 1
  {
    if n < 128 then [n] else [n % 128 + 128] + Varint(n / 128)
  }

  datatype Length = NeedMore | TooLong | Length(value: nat, size: nat)

  /** The length at the start of `b`, when `k` of its bytes have been read already. */
  function DecodeLength(b: seq<byte>, k: nat): (r: Length)
    requires k <= 4
    ensures r.Length? ==> 1 <= r.size <= 4 - k && r.size <= |b|
    decreases 4 - k
  {
    if k == 4 then TooLong
    else if b == [] then NeedMore
    else if b[0] < 128 then Length(b[0], 1)
    else match DecodeLength(b[1..], k + 1)
      case Length(v, n) => Length(b[0] - 128 + 128 * v, n + 1)
      case other => other
  }

  /** 128 to the power of what is left of the four bytes. */
  function Capacity(k: nat): nat
    requires k <= 4
  {
    if k == 0 then MAX_REMAINING else if k == 1 then 0x20_0000 else if k == 2 then 0x4000 else if k == 3 then 0x80
        else 1
  }

  lemma {:induction false} LengthRoundTrip(n: nat, k: nat, rest: seq<byte>)
    requires k < 4 && n < Capacity(k)
    ensures DecodeLength(Varint(n) + rest, k) == Length(n, |Varint(n)|)
    decreases 4 - k
  {
    if n >= 128 {
      var b := Varint(n) + rest;
      assert b[1..] == Varint(n / 128) + rest;
      LengthRoundTrip(n / 128, k + 1, rest);
    }
  }

  /** Later bytes do not change a length that is there, or the verdict that it is too long. */
  lemma {:induction false} LengthStable(b: seq<byte>, k: nat, more: seq<byte>)
    requires k <= 4 && DecodeLength(b, k) != NeedMore
    ensures DecodeLength(b + more, k) == DecodeLength(b, k)
    decreases 4 - k
  {
    if k < 4 && b[0] >= 128 {
      assert (b + more)[1..] == b[1..] + more;
      LengthStable(b[1..], k + 1, more);
    }
  }

  // ----- The fixed header -------------------------------------------------------------------------------

  type nibble = n: int | 0 <= n < 16

  /** required_flags, for the types whose mask is not zero. */
  function RequiredFlags(control: nibble): nibble {
    if control == PUBREL || control == SUBSCRIBE || control == UNSUBSCRIBE then 2 else 0
  }

  /** mqtt_fixed_header_rule_violation */
  function RuleViolation(control: nibble, flags: nibble): Status {
    if control == 0 || control == 15 then ControlForbiddenType
    else if control != PUBLISH && flags != RequiredFlags(control) then ControlInvalidFlags
    else Ok
  }

  datatype HeaderResult =
    | HeaderMore
    | HeaderBad(error: Status)
    | Header(control: nibble, flags: nibble, remaining: nat, size: nat)

  /** mqtt_unpack_fixed_header */
  function UnpackFixedHeader(b: seq<byte>): (r: HeaderResult)
    ensures r.Header? ==> 2 <= r.size && r.size + r.remaining <= |b|
    ensures r.HeaderBad? ==> Final(r.error)
  {
    if b == [] then HeaderMore
    else match DecodeLength(b[1..], 0)
      case NeedMore => HeaderMore
      case TooLong => HeaderBad(InvalidRemainingLength)
      case Length(v, n) =>
        var violation := RuleViolation(b[0] / 16, b[0] % 16);
        if violation != Ok then HeaderBad(violation)
        else if |b| - 1 - n < v then HeaderMore
        else Header(b[0] / 16, b[0] % 16, v, 1 + n)
  }

  lemma HeaderStable(b: seq<byte>, more: seq<byte>)
    requires UnpackFixedHeader(b) != HeaderMore
    ensures UnpackFixedHeader(b + more) == UnpackFixedHeader(b)
  {
    assert (b + more)[1..] == b[1..] + more;
    LengthStable(b[1..], 0, more);
  }

  function HeaderBytes(control: nibble, flags: nibble, remaining: nat): seq<byte> {
    [control * 16 + flags] + Varint(remaining)
  }

  lemma HeaderRoundTrip(control: nibble, flags: nibble, remaining: nat, body: seq<byte>)
    requires RuleViolation(control, flags) == Ok && remaining < MAX_REMAINING && remaining <= |body|
    ensures UnpackFixedHeader(HeaderBytes(control, flags, remaining) + body)
         == Header(control, flags, remaining, 1 + |Varint(remaining)|)
  {
    var b := HeaderBytes(control, flags, remaining) + body;
    assert b[1..] == Varint(remaining) + body;
    LengthRoundTrip(remaining, 0, body);
    assert b[0] / 16 == control && b[0] % 16 == flags;
  }

  // ----- Responses --------------------------------------------------------------------------------------

  datatype Response =
    | RConnack(sessionPresent: byte, code: byte)
    | RPublish(dup: nat, qos: nat, retain: nat, topic: seq<byte>, id: u16, payload: seq<byte>)
    | RPuback(id: u16)
    | RPubrec(id: u16)
    | RPubrel(id: u16)
    | RPubcomp(id: u16)
    | RSuback(id: u16, codes: seq<byte>)
    | RUnsuback(id: u16)
    | RPingresp

  /**
   The result of mqtt_unpack_response. `Overrun` stands for the one case the source leaves to
   whatever lies behind the packet: a PUBLISH whose topic length exceeds the packet.
   */
  datatype Unpacked =
    | More
    | Bad(error: Status)
    | Overrun
    | Packet(consumed: nat, extent: nat, response: Response)

  /** The id of a QoS 0 PUBLISH is left unset by the source. */
  const UNSET: u16 := 0

  function UnpackPublish(flags: nibble, body: seq<byte>, size: nat): (r: Unpacked)
  {
    if |body| < 4 then Bad(MalformedResponse)
    else
      var qos := QosOf(flags);
      var n := FromU16(body[0], body[1]);
      var start := 2 + n + (if qos > 0 then 2 else 0);
      if start > |body| then Overrun
      else
        var id := if qos > 0 then FromU16(body[2 + n], body[3 + n]) else UNSET;
        Packet(size + |body|, size + |body|, RPublish(DupOf(flags), qos, RetainOf(flags), body[2..2 + n], id,
            body[start..]))
  }

  /** The variable header and payload, given the `remaining` bytes behind a fixed header of `size` bytes. */
  function UnpackBody(control: nibble, flags: nibble, body: seq<byte>, size: nat): (r: Unpacked)
    ensures r.Packet? ==> r.extent == size + |body| && size <= r.consumed <= r.extent
    ensures r.Bad? ==> Final(r.error)
    ensures r != More
  {
    var all := size + |body|;
    if control == CONNACK then
      if |body| != 2 then Bad(MalformedResponse)
      else if body[0] / 2 != 0 then Bad(ConnackForbiddenFlags)
      else if body[1] > 5 then Bad(ConnackForbiddenCode)
      else Packet(all, all, RConnack(body[0], body[1]))
    else if control == PUBLISH then UnpackPublish(flags, body, size)
    else if PUBACK <= control <= PUBCOMP || control == UNSUBACK then
      if |body| != 2 then Bad(MalformedResponse)
      else
        var id := FromU16(body[0], body[1]);
        Packet(all, all,
               if control == PUBACK then RPuback(id)
               else if control == PUBREC then RPubrec(id)
               else if control == PUBREL then RPubrel(id)
               else if control == PUBCOMP then RPubcomp(id)
               else RUnsuback(id))
    else if control == SUBACK then
      if |body| < 3 then Bad(MalformedResponse)
      else Packet(all, all, RSuback(FromU16(body[0], body[1]), body[2..]))
    else if control == PINGRESP then Packet(size, all, RPingresp)
    else Bad(ResponseInvalidControlType)
  }

  /** mqtt_unpack_response */
  function Unpack(b: seq<byte>): (r: Unpacked)
    ensures r.Packet? ==> 2 <= r.consumed <= r.extent <= |b|
    ensures r.Bad? ==> Final(r.error)
  {
    match UnpackFixedHeader(b)
    case HeaderMore => More
    case HeaderBad(error) => Bad(error)
    case Header(control, flags, remaining, size) => UnpackBody(control, flags, b[size..size + remaining], size)
  }

  /** A decision once taken does not depend on what arrives later. */
  lemma UnpackStable(b: seq<byte>, more: seq<byte>)
    requires Unpack(b) != More
    ensures Unpack(b + more) == Unpack(b)
  {
    hide UnpackBody, UnpackFixedHeader;
    HeaderStable(b, more);
    var h := UnpackFixedHeader(b);
    if h.Header? {
      assert (b + more)[h.size..h.size + h.remaining] == b[h.size..h.size + h.remaining];
    }
  }

  lemma HeaderWithin(b: seq<byte>, n: nat)
    requires UnpackFixedHeader(b).Header? && UnpackFixedHeader(b).size + UnpackFixedHeader(b).remaining <= n <= |b|
    ensures UnpackFixedHeader(b[..n]) == UnpackFixedHeader(b)
  {
    hide DecodeLength, RuleViolation;
    assert b[..n][1..] == b[1..][..n - 1];
    LengthWithin(b[1..], 0, n - 1);
  }

  /** A packet can be unpacked as soon as all its bytes are there. */
  lemma UnpackWithinExtent(b: seq<byte>, n: nat)
    requires Unpack(b).Packet? && Unpack(b).extent <= n <= |b|
    ensures Unpack(b[..n]) == Unpack(b)
  {
    hide UnpackBody, UnpackFixedHeader;
    var h := UnpackFixedHeader(b);
    HeaderWithin(b, n);
    assert b[..n][h.size..h.size + h.remaining] == b[h.size..h.size + h.remaining];
  }

  lemma {:induction false} LengthWithin(b: seq<byte>, k: nat, n: nat)
    requires k <= 4 && DecodeLength(b, k).Length? && DecodeLength(b, k).size <= n <= |b|
    ensures DecodeLength(b[..n], k) == DecodeLength(b, k)
    decreases 4 - k
  {
    if b[0] >= 128 {
      assert b[..n][1..] == b[1..][..n - 1];
      LengthWithin(b[1..], k + 1, n - 1);
    }
  }

  // ----- Requests ---------------------------------------------------------------------------------------

  /** The result of a pack function: the bytes written, 0 for want of room, or an error. */
  datatype Packing = Packed(bytes: seq<byte>) | NoRoom | Refused(error: Status)

  /** mqtt_pack_fixed_header, followed by `body`. The header promises `remaining` bytes. */
  function PackWith(control: nibble, flags: nibble, remaining: nat, body: seq<byte>, room: nat): (r: Packing)
    ensures r.Packed? ==> |HeaderBytes(control, flags, remaining)| + remaining <= room
    ensures r.Packed? ==> r.bytes == HeaderBytes(control, flags, remaining) + body
    ensures r.Refused? ==> r.error != Ok
  {
    var violation := RuleViolation(control, flags);
    var header := HeaderBytes(control, flags, remaining);
    if violation != Ok then Refused(violation)
    else if room == 0 then NoRoom
    else if remaining >= MAX_REMAINING then Refused(InvalidRemainingLength)
    else if room < |header| + remaining then NoRoom
    else Packed(header + body)
  }

  /** __mqtt_pack_str: the length is cut to sixteen bits, and the string with it. */
  function PackStr(s: seq<byte>): (b: seq<byte>)
    ensures |b| == 2 + |s| % 65536
  {
    U16(|s| % 65536) + s[..|s| % 65536]
  }

  function PublishRemaining(topic: seq<byte>, payload: seq<byte>, flags: byte): nat {
    2 + |topic| + (if QosOf(flags) > 0 then 2 else 0) + |payload|
  }

  function PublishBody(topic: seq<byte>, id: u16, payload: seq<byte>, flags: byte): seq<byte> {
    PackStr(topic) + (if QosOf(flags) > 0 then U16(id) else []) + payload
  }

  /** DUP is forced to 0 for QoS 0; the header takes the low four bits. */
  function PublishFlags(flags: byte): nibble {
    (if QosOf(flags) == 0 then WithoutDup(flags) else flags) % 16
  }

  /** mqtt_pack_publish_request into a buffer of `room` bytes */
  function PackPublish(topic: seq<byte>, id: u16, payload: seq<byte>, flags: byte, room: nat): Packing {
    if QosOf(flags) == 3 then Refused(PublishForbiddenQos)
    else PackWith(PUBLISH, PublishFlags(flags), PublishRemaining(topic, payload, flags),
        PublishBody(topic, id, payload, flags), room)
  }

  /** mqtt_pack_pubxxx_request */
  function PackPubxxx(control: nibble, id: u16, room: nat): Packing {
    PackWith(control, if control == PUBREL then 2 else 0, 2, U16(id), room)
  }

  /** mqtt_pack_subscribe_request for one topic */
  function PackSubscribe(id: u16, topic: seq<byte>, maxQos: byte, room: nat): Packing {
    PackWith(SUBSCRIBE, 2, 2 + (2 + |topic|) + 1, U16(id) + PackStr(topic) + [maxQos], room)
  }

  /** mqtt_pack_unsubscribe_request for one topic */
  function PackUnsubscribe(id: u16, topic: seq<byte>, room: nat): Packing {
    PackWith(UNSUBSCRIBE, 2, 2 + (2 + |topic|), U16(id) + PackStr(topic), room)
  }

  /** mqtt_pack_ping_request, mqtt_pack_disconnect */
  function PackBare(control: nibble, room: nat): Packing {
    PackWith(control, 0, 0, [], room)
  }

  // ----- Round trips --------------------------------------------------------------------------------------

  /** What a broker reads back from a PUBLISH with these arguments. */
  function PublishAsRead(topic: seq<byte>, id: u16, payload: seq<byte>, flags: byte): Response {
    var qos := QosOf(flags);
    RPublish(if qos == 0 then 0 else DupOf(flags), qos, RetainOf(flags), topic, if qos > 0 then id else UNSET, payload)
  }

  lemma PublishFlagsRead(flags: byte)
    ensures QosOf(PublishFlags(flags)) == QosOf(flags) && RetainOf(PublishFlags(flags)) == RetainOf(flags)
    ensures DupOf(PublishFlags(flags)) == if QosOf(flags) == 0 then 0 else DupOf(flags)
  {
    DupFlagOnly(flags);
    var f: byte := if QosOf(flags) == 0 then WithoutDup(flags) else flags;
    FieldsOf(f);
    Fields(f % 16, 0, DupOf(f), QosOf(f), RetainOf(f));
  }

  lemma PublishBodyRead(topic: seq<byte>, id: u16, payload: seq<byte>, flags: byte, size: nat)
    requires |topic| < 65536
    ensures var body := PublishBody(topic, id, payload, flags);
            && |body| == PublishRemaining(topic, payload, flags)
            && (|body| >= 4 ==> UnpackPublish(PublishFlags(flags), body, size)
                                == Packet(size + |body|, size + |body|, PublishAsRead(topic, id, payload, flags)))
  {
    var body := PublishBody(topic, id, payload, flags);
    var n := |topic|;
    PublishFlagsRead(flags);
    assert topic[..n] == topic;
    assert PackStr(topic) == U16(n) + topic;
    if |body| >= 4 {
      assert body[0] == n / 256 && body[1] == n % 256;
      assert body[2..2 + n] == topic;
      if QosOf(flags) > 0 {
        assert body[2 + n] == id / 256 && body[3 + n] == id % 256;
        assert body[4 + n..] == payload;
      } else {
        assert body[2 + n..] == payload;
      }
    }
  }

  /** Unpacking what mqtt_pack_publish_request wrote gives back its arguments and consumes exactly its bytes. */
  lemma PublishRoundTrip(topic: seq<byte>, id: u16, payload: seq<byte>, flags: byte, room: nat, rest: seq<byte>)
    requires PackPublish(topic, id, payload, flags, room).Packed?
    requires |topic| < 65536 && PublishRemaining(topic, payload, flags) >= 4
    ensures var bytes := PackPublish(topic, id, payload, flags, room).bytes;
            && |bytes| <= room
            && Unpack(bytes + rest) == Packet(|bytes|, |bytes|, PublishAsRead(topic, id, payload, flags))
  {
    hide UnpackFixedHeader, PublishBody, PublishAsRead, PublishFlags, UnpackPublish, Varint;
    var body := PublishBody(topic, id, payload, flags);
    var remaining := PublishRemaining(topic, payload, flags);
    var header := HeaderBytes(PUBLISH, PublishFlags(flags), remaining);
    var bytes := header + body;
    PublishBodyRead(topic, id, payload, flags, |header|);
    HeaderRoundTrip(PUBLISH, PublishFlags(flags), remaining, body + rest);
    assert bytes + rest == header + (body + rest);
    assert (bytes + rest)[|header|..|header| + remaining] == body;
  }

  lemma PublishRemainingIs(topic: seq<byte>, id: u16, payload: seq<byte>, flags: byte)
    ensures var body, remaining := PublishBody(topic, id, payload, flags), PublishRemaining(topic, payload, flags);
            if |topic| < 65536 then |body| == remaining else |body| < remaining
  {}

  /** Too short a PUBLISH is refused. */
  lemma ShortIsMalformed(flags: nibble, body: seq<byte>)
    requires |body| < 4
    ensures Unpack(HeaderBytes(PUBLISH, flags, |body|) + body) == Bad(MalformedResponse)
  {
    hide Varint, UnpackFixedHeader;
    var header := HeaderBytes(PUBLISH, flags, |body|);
    HeaderRoundTrip(PUBLISH, flags, |body|, body);
    assert (header + body)[|header|..|header| + |body|] == body;
  }

  /** A packet shorter than its header says is not found. */
  lemma ShortOfRemaining(flags: nibble, remaining: nat, body: seq<byte>)
    requires |body| < remaining < MAX_REMAINING
    ensures Unpack(HeaderBytes(PUBLISH, flags, remaining) + body) == More
  {
    hide Varint, DecodeLength;
    var b := HeaderBytes(PUBLISH, flags, remaining) + body;
    assert b[1..] == Varint(remaining) + body;
    LengthRoundTrip(remaining, 0, body);
    assert b[0] / 16 == PUBLISH;
  }

  /** The round trip holds exactly for topics that fit their length field and packets of at least four bytes. */
  lemma PublishRoundTripsIff(topic: seq<byte>, id: u16, payload: seq<byte>, flags: byte, room: nat)
    requires PackPublish(topic, id, payload, flags, room).Packed?
    ensures var bytes := PackPublish(topic, id, payload, flags, room).bytes;
            (Unpack(bytes) == Packet(|bytes|, |bytes|, PublishAsRead(topic, id, payload, flags))
             <==> |topic| < 65536 && PublishRemaining(topic, payload, flags) >= 4)
  {
    hide Unpack, HeaderBytes, PublishBody, PublishRemaining, PublishFlags, PublishAsRead;
    var bytes := PackPublish(topic, id, payload, flags, room).bytes;
    var remaining := PublishRemaining(topic, payload, flags);
    PublishRemainingIs(topic, id, payload, flags);
    if |topic| >= 65536 {
      ShortOfRemaining(PublishFlags(flags), remaining, PublishBody(topic, id, payload, flags));
    } else if remaining < 4 {
      ShortIsMalformed(PublishFlags(flags), PublishBody(topic, id, payload, flags));
    } else {
      PublishRoundTrip(topic, id, payload, flags, room, []);
      assert bytes + [] == bytes;
    }
  }

  /** The acknowledgements read back as what was packed. */
  lemma PubxxxRoundTrip(control: nibble, id: u16, room: nat, rest: seq<byte>)
    requires PUBACK <= control <= PUBCOMP && PackPubxxx(control, id, room).Packed?
    ensures var bytes := PackPubxxx(control, id, room).bytes;
            Unpack(bytes + rest) == Packet(4, 4, if control == PUBACK then RPuback(id)
                else if control == PUBREC then RPubrec(id)
                                                 else if control == PUBREL then RPubrel(id) else RPubcomp(id))
  {
    var flags := if control == PUBREL then 2 else 0;
    var header, bytes := HeaderBytes(control, flags, 2), PackPubxxx(control, id, room).bytes;
    HeaderRoundTrip(control, flags, 2, U16(id) + rest);
    assert bytes + rest == header + (U16(id) + rest);
    assert (bytes + rest)[2..4] == U16(id);
  }
}
