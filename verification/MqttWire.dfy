/**
 The packets of the MQTT client byte by byte (libs/mqtt.c), in the numbers of MQTT 3.1.1: what is made of any packet
 received, what is sent, and when a broker that reads a SUBSCRIBE or UNSUBSCRIBE gets what was asked for.
 */
module MqttWire {
  import opened Bytes
  import opened MqttTypes
  import opened MqttPacket
  import opened MqttCodec
  import opened MqttConnect
  import opened Wrappers

  // ----- The remaining length -----------------------------------------------------------------------------

  lemma OneByte(n: nat)
    requires n < 128
    ensures Varint(n) == [n]
  {}

  lemma OneMoreByte(n: nat, behind: seq<byte>)
    requires n >= 128 && Varint(n / 128) == behind
    ensures Varint(n) == [n % 128 + 128] + behind
  {}

  lemma Quotients(n: nat)
    ensures n / 128 / 128 == n / 16384 && n / 128 / 128 / 128 == n / 2097152
    ensures (n < 16384 <==> n / 128 < 128) && (n < 2097152 <==> n / 16384 < 128)
    ensures n < 268435456 ==> n / 2097152 < 128
  {}

  lemma TwoBytes(n: nat, a: nat)
    requires n >= 128 && a == n / 128 && a < 128
    ensures Varint(n) == [n % 128 + 128, a]
  {
    hide Varint;
    OneByte(a);
    OneMoreByte(n, [a]);
  }

  lemma ThreeBytes(n: nat, a: nat, b: nat)
    requires n >= 128 && a == n / 128 && a >= 128 && b == a / 128 && b < 128
    ensures Varint(n) == [n % 128 + 128, a % 128 + 128, b]
  {
    hide Varint;
    TwoBytes(a, b);
    OneMoreByte(n, [a % 128 + 128, b]);
  }

  lemma FourBytes(n: nat, a: nat, b: nat, c: nat)
    requires n >= 128 && a == n / 128 && a >= 128 && b == a / 128 && b >= 128 && c == b / 128 && c < 128
    ensures Varint(n) == [n % 128 + 128, a % 128 + 128, b % 128 + 128, c]
  {
    hide Varint;
    ThreeBytes(a, b, c);
    OneMoreByte(n, [a % 128 + 128, b % 128 + 128, c]);
  }

  /** Section 2.2.3, table 2.4. */
  lemma LengthBytes(n: nat)
    requires n < 268435456
    ensures Varint(n) == if n < 128 then [n]
                         else if n < 16384 then [n % 128 + 128, n / 128]
                         else if n < 2097152 then [n % 128 + 128, n / 128 % 128 + 128, n / 16384]
                         else [n % 128 + 128, n / 128 % 128 + 128, n / 16384 % 128 + 128, n / 2097152]
  {
    hide Varint;
    Quotients(n);
    if n < 128 {
      OneByte(n);
    } else if n < 16384 {
      TwoBytes(n, n / 128);
    } else if n < 2097152 {
      ThreeBytes(n, n / 128, n / 16384);
    } else {
      FourBytes(n, n / 128, n / 16384, n / 2097152);
    }
  }

  // ----- What is made of a packet -------------------------------------------------------------------------

  /** The flags a packet type must have; a PUBLISH may have any. */
  predicate FlagsFit(first: byte) {
    first / 16 == 3 || first % 16 == (if first / 16 == 6 || first / 16 == 8 || first / 16 == 10 then 2 else 0)
  }

  /**
   What mqtt_unpack_response makes of a packet with this first byte, a header of `size` bytes, and `body` behind it.
   */
  function Verdict(first: byte, size: nat, body: seq<byte>): Unpacked {
    var kind, all, n := first / 16, size + |body|, |body|;
    if kind == 0 || kind == 15 then Bad(ControlForbiddenType)
    else if !FlagsFit(first) then Bad(ControlInvalidFlags)
    else if kind == 2 then
      if n != 2 then Bad(MalformedResponse)
      else if body[0] > 1 then Bad(ConnackForbiddenFlags)
      else if body[1] > 5 then Bad(ConnackForbiddenCode)
      else Packet(all, all, RConnack(body[0], body[1]))
    else if kind == 3 then
      if n < 4 then Bad(MalformedResponse)
      else PublishVerdict(first, body, all)
    else if kind == 4 || kind == 5 || kind == 6 || kind == 7 || kind == 11 then
      if n != 2 then Bad(MalformedResponse)
      else Packet(all, all, Acknowledgement(kind, Sixteen(body[0], body[1])))
    else if kind == 9 then
      if n < 3 then Bad(MalformedResponse)
      else Packet(all, all, RSuback(Sixteen(body[0], body[1]), body[2..]))
    else if kind == 13 then Packet(size, all, RPingresp)
    else Bad(ResponseInvalidControlType)
  }

  /** A PUBLISH: the topic behind its length, an id unless the QoS is 0, and the rest is the message. */
  function PublishVerdict(first: byte, body: seq<byte>, all: nat): Unpacked
    requires |body| >= 4
  {
    var qos, topic := first / 2 % 4, 2 + Sixteen(body[0], body[1]);
    if qos == 0 then
      if topic > |body| then Overrun
      else Packet(all, all, RPublish(first / 8 % 2, 0, first % 2, body[2..topic], 0, body[topic..]))
    else
      if topic + 2 > |body| then Overrun
      else Packet(all, all, RPublish(first / 8 % 2, qos, first % 2, body[2..topic],
                                     Sixteen(body[topic], body[topic + 1]), body[topic + 2..]))
  }

  function Acknowledgement(kind: nat, id: u16): Response {
    if kind == 4 then RPuback(id)
    else if kind == 5 then RPubrec(id)
    else if kind == 6 then RPubrel(id)
    else if kind == 7 then RPubcomp(id)
    else RUnsuback(id)
  }

  lemma FieldsOfFirst(first: byte)
    ensures first % 16 % 2 == first % 2 && first % 16 / 2 % 4 == first / 2 % 4 && first % 16 / 8 % 2 == first / 8 % 2
  {
    var high, low := first / 16, first % 16;
    assert first == 16 * high + low;
    assert first / 2 == 8 * high + low / 2 && first / 8 == 2 * high + low / 8;
  }

  lemma FlagsRule(first: byte)
    ensures RuleViolation(first / 16, first % 16)
         == if first / 16 == 0 || first / 16 == 15 then ControlForbiddenType
            else if FlagsFit(first) then Ok else ControlInvalidFlags
  {}

  lemma PublishReads(first: byte, body: seq<byte>, size: nat)
    requires |body| >= 4
    ensures UnpackPublish(first % 16, body, size) == PublishVerdict(first, body, size + |body|)
  {
    FieldsOfFirst(first);
  }

  lemma BodyReads(first: byte, size: nat, body: seq<byte>)
    requires first / 16 != 0 && first / 16 != 15 && FlagsFit(first)
    ensures UnpackBody(first / 16, first % 16, body, size) == Verdict(first, size, body)
  {
    hide UnpackPublish, PublishVerdict;
    if first / 16 == 3 {
      if |body| >= 4 { PublishReads(first, body, size); } else { ShortPublish(first % 16, body, size); }
    }
  }

  lemma ShortPublish(flags: nibble, body: seq<byte>, size: nat)
    requires |body| < 4
    ensures UnpackPublish(flags, body, size) == Bad(MalformedResponse)
  {}

  /** Every packet, whatever its first byte and whatever follows it. */
  lemma UnpackSays(first: byte, body: seq<byte>, rest: seq<byte>)
    requires |body| < 268435456
    ensures Unpack([first] + Varint(|body|) + body + rest) == Verdict(first, 1 + |Varint(|body|)|, body)
  {
    hide Varint, UnpackBody, Verdict;
    var header := [first] + Varint(|body|);
    var b := header + body + rest;
    HeaderSays(first, |body|, body + rest);
    assert b == header + (body + rest);
    assert b[|header|..|header| + |body|] == body;
    FlagsRule(first);
    if RuleViolation(first / 16, first % 16) == Ok {
      BodyReads(first, |header|, body);
    } else {
      RefusedHeader(first, |header|, body);
    }
  }

  lemma RefusedHeader(first: byte, size: nat, body: seq<byte>)
    requires RuleViolation(first / 16, first % 16) != Ok
    ensures Verdict(first, size, body) == Bad(RuleViolation(first / 16, first % 16))
  {
    hide PublishVerdict;
    FlagsRule(first);
  }

  /** A header is judged as soon as it is there; then the rest of the packet is waited for. */
  lemma HeaderSays(first: byte, remaining: nat, behind: seq<byte>)
    requires remaining < 268435456
    ensures UnpackFixedHeader([first] + Varint(remaining) + behind)
         == var violation := RuleViolation(first / 16, first % 16);
            if violation != Ok then HeaderBad(violation)
            else if |behind| < remaining then HeaderMore
            else Header(first / 16, first % 16, remaining, 1 + |Varint(remaining)|)
  {
    hide Varint, DecodeLength;
    var b := [first] + Varint(remaining) + behind;
    assert b[1..] == Varint(remaining) + behind && b[0] == first;
    LengthRoundTrip(remaining, 0, behind);
  }

  /** What has arrived of a packet that is not whole. */
  lemma UnpackWaits(first: byte, remaining: nat, behind: seq<byte>)
    requires |behind| < remaining < 268435456
    ensures Unpack([first] + Varint(remaining) + behind)
         == if first / 16 == 0 || first / 16 == 15 then Bad(ControlForbiddenType)
            else if FlagsFit(first) then More else Bad(ControlInvalidFlags)
  {
    hide Varint;
    HeaderSays(first, remaining, behind);
    FlagsRule(first);
  }

  /** Four bytes of the length with the top bit set are one too many; fewer wait for the next. */
  lemma LengthTooLong(first: byte, length: seq<byte>, behind: seq<byte>)
    requires forall i :: 0 <= i < |length| ==> length[i] >= 128
    ensures |length| == 4 ==> Unpack([first] + length + behind) == Bad(InvalidRemainingLength)
    ensures |length| < 4 ==> Unpack([first] + length) == More
    ensures Unpack([]) == More
  {
    hide DecodeLength;
    LongLength(length, 0, behind);
    LongLength(length, 0, []);
    assert ([first] + length + behind)[1..] == length + behind;
    assert ([first] + length)[1..] == length + [];
  }

  lemma {:induction false} LongLength(length: seq<byte>, k: nat, behind: seq<byte>)
    requires k <= 4 && forall i :: 0 <= i < |length| ==> length[i] >= 128
    ensures |length| == 4 - k ==> DecodeLength(length + behind, k) == TooLong
    ensures |length| < 4 - k && behind == [] ==> DecodeLength(length + behind, k) == NeedMore
    decreases |length|
  {
    if length != [] && k < 4 {
      assert (length + behind)[1..] == length[1..] + behind;
      LongLength(length[1..], k + 1, behind);
    } else {
      assert length == [] ==> length + behind == behind;
    }
  }

  // ----- What is sent -------------------------------------------------------------------------------------

  lemma PublishFirst(flags: byte)
    ensures 48 + PublishFlags(flags)
         == 48 + (if flags / 2 % 4 == 0 then 0 else 8 * (flags / 8 % 2)) + 2 * (flags / 2 % 4) + flags % 2
  {
    PublishFlagsRead(flags);
    FieldsOf(PublishFlags(flags));
  }

  lemma StrBytes(s: seq<byte>)
    requires |s| < 65536
    ensures PackStr(s) == [|s| / 256, |s| % 256] + s
  {
    assert s[..|s|] == s;
  }

  lemma Grouped<T>(a: seq<T>, b: seq<T>, c: seq<T>, d: seq<T>, e: seq<T>, f: seq<T>)
    ensures (a + b) + ((c + d) + e + f) == a + b + c + d + e + f
  {}

  lemma PublishPieces(topic: seq<byte>, id: u16, payload: seq<byte>, flags: byte, room: nat)
    requires PackPublish(topic, id, payload, flags, room).Packed?
    ensures PackPublish(topic, id, payload, flags, room).bytes
         == ([48 + PublishFlags(flags)] + Varint(PublishRemaining(topic, payload, flags)))
            + (PackStr(topic) + (if flags / 2 % 4 == 0 then [] else [id / 256, id % 256]) + payload)
  {
    hide Varint, PackStr, PublishFlags, PublishRemaining;
  }

  /** A PUBLISH (section 3.3). */
  lemma PublishBytes(topic: seq<byte>, id: u16, payload: seq<byte>, flags: byte, room: nat)
    requires PackPublish(topic, id, payload, flags, room).Packed? && |topic| < 65536
    ensures var dup, qos, retain := flags / 8 % 2, flags / 2 % 4, flags % 2;
            PackPublish(topic, id, payload, flags, room).bytes
            == [48 + (if qos == 0 then 0 else 8 * dup) + 2 * qos + retain]
               + Varint(2 + |topic| + (if qos == 0 then 0 else 2) + |payload|)
               + [|topic| / 256, |topic| % 256] + topic
               + (if qos == 0 then [] else [id / 256, id % 256]) + payload
  {
    hide Varint, PackStr, PublishFlags, PackPublish;
    PublishFirst(flags);
    StrBytes(topic);
    PublishPieces(topic, id, payload, flags, room);
    Grouped([48 + PublishFlags(flags)], Varint(PublishRemaining(topic, payload, flags)), [|topic| / 256, |topic| % 256],
            topic, if flags / 2 % 4 == 0 then [] else [id / 256, id % 256], payload);
  }

  /** PUBACK, PUBREC, PUBREL and PUBCOMP (sections 3.4 to 3.7). */
  lemma AcknowledgementBytes(control: nibble, id: u16, room: nat)
    requires 4 <= control <= 7
    ensures PackPubxxx(control, id, room)
         == if room < 4 then NoRoom else Packed([16 * control + (if control == 6 then 2 else 0), 2, id / 256, id % 256])
  {
    assert Varint(2) == [2];
  }

  /** PINGREQ and DISCONNECT (sections 3.12 and 3.14). */
  lemma BareBytes(room: nat)
    ensures ReqPing.Pack(room) == if room < 2 then NoRoom else Packed([0xC0, 0])
    ensures ReqDisconnect.Pack(room) == if room < 2 then NoRoom else Packed([0xE0, 0])
  {
    assert Varint(0) == [0];
  }

  // ----- SUBSCRIBE and UNSUBSCRIBE as a broker reads them -------------------------------------------------

  /** A SUBSCRIBE for one topic as a broker understands it. */
  datatype Subscription = Subscription(id: nat, topic: seq<byte>, qos: nat)

  /** A topic filter: at least one character of UTF-8 (sections 3.8.3 and 4.7.3). */
  predicate Filter(topic: seq<byte>) {
    topic != [] && Utf8(topic)
  }

  /** The variable header and payload of a SUBSCRIBE with one topic, by section 3.8; the id is not 0 (section 2.3.1). */
  function ReadSubscription(body: seq<byte>): Option<Subscription> {
    if |body| < 2 || Sixteen(body[0], body[1]) == 0 then None
    else match ReadStr(body[2..])
      case Malformed => None
      case Field(topic, rest) =>
        if Filter(topic) && |rest| == 1 && rest[0] <= 2
          then Some(Subscription(Sixteen(body[0], body[1]), topic, rest[0])) else None
  }

  /** The same of an UNSUBSCRIBE, by section 3.10. */
  function ReadUnsubscription(body: seq<byte>): Option<(nat, seq<byte>)> {
    if |body| < 2 || Sixteen(body[0], body[1]) == 0 then None
    else match ReadStr(body[2..])
      case Malformed => None
      case Field(topic, rest) =>
        if Filter(topic) && rest == [] then Some((Sixteen(body[0], body[1]), topic)) else None
  }

  /** A whole packet of type `kind` at the start of `b`: its variable header and payload. */
  function BodyOf(b: seq<byte>, kind: nat): Option<seq<byte>> {
    var h := UnpackFixedHeader(b);
    if h.Header? && h.control == kind then Some(b[h.size..h.size + h.remaining]) else None
  }

  function ReadSubscribe(b: seq<byte>): Option<Subscription> {
    match BodyOf(b, 8) case None => None case Some(body) => ReadSubscription(body)
  }

  function ReadUnsubscribe(b: seq<byte>): Option<(nat, seq<byte>)> {
    match BodyOf(b, 10) case None => None case Some(body) => ReadUnsubscription(body)
  }

  lemma BodyIsFound(kind: nibble, body: seq<byte>, room: nat, rest: seq<byte>)
    requires kind == 8 || kind == 10
    requires PackWith(kind, 2, |body|, body, room).Packed?
    ensures BodyOf(PackWith(kind, 2, |body|, body, room).bytes + rest, kind) == Some(body)
  {
    hide Varint, UnpackFixedHeader;
    var header := HeaderBytes(kind, 2, |body|);
    HeaderRoundTrip(kind, 2, |body|, body + rest);
    assert (header + body) + rest == header + (body + rest);
    assert ((header + body) + rest)[|header|..|header| + |body|] == body;
  }

  lemma ReadStrIsShort(b: seq<byte>)
    ensures ReadStr(b).Field? ==> |ReadStr(b).value| < 65536
  {}

  lemma SubscriptionReads(id: u16, topic: seq<byte>, maxQos: byte)
    requires |topic| < 65536
    ensures ReadSubscription(U16(id) + PackStr(topic) + [maxQos])
         == if id != 0 && Filter(topic) && maxQos <= 2 then Some(Subscription(id, topic, maxQos)) else None
  {
    hide ReadStr, PackStr, Filter;
    var body := U16(id) + PackStr(topic) + [maxQos];
    SixteenReads(id);
    assert body[0] == U16(id)[0] && body[1] == U16(id)[1] && body[2..] == PackStr(topic) + [maxQos];
    StrReadsBack(topic, [maxQos]);
  }

  lemma UnsubscriptionReads(id: u16, topic: seq<byte>)
    requires |topic| < 65536
    ensures ReadUnsubscription(U16(id) + PackStr(topic))
         == if id != 0 && Filter(topic) then Some((id, topic)) else None
  {
    hide ReadStr, PackStr, Filter;
    var body := U16(id) + PackStr(topic);
    SixteenReads(id);
    assert body[0] == U16(id)[0] && body[1] == U16(id)[1] && body[2..] == PackStr(topic) + [];
    StrReadsBack(topic, []);
  }

  /** A topic too long for its length bytes does not come out of either. */
  lemma LongTopicIsLost(b: seq<byte>, topic: seq<byte>)
    requires |topic| >= 65536
    ensures ReadSubscribe(b).Some? ==> ReadSubscribe(b).value.topic != topic
    ensures ReadUnsubscribe(b).Some? ==> ReadUnsubscribe(b).value.1 != topic
  {
    hide UnpackFixedHeader, ReadStr, Filter;
    var s, u := BodyOf(b, 8), BodyOf(b, 10);
    if s.Some? && |s.value| >= 2 { ReadStrIsShort(s.value[2..]); }
    if u.Some? && |u.value| >= 2 { ReadStrIsShort(u.value[2..]); }
  }

  /**
   A broker reads a SUBSCRIBE packet as the client was asked for exactly if the id is not 0, the topic is UTF-8 of 1 to
   65535 bytes, and the QoS at most 2; the QoS is not checked before packing. Nothing that follows changes this.
   */
  lemma SubscribeRoundTripsIff(id: u16, topic: seq<byte>, maxQos: byte, room: nat, rest: seq<byte>)
    requires PackSubscribe(id, topic, maxQos, room).Packed?
    ensures ReadSubscribe(PackSubscribe(id, topic, maxQos, room).bytes + rest) == Some(Subscription(id, topic, maxQos))
            <==> id != 0 && |topic| < 65536 && Filter(topic) && maxQos <= 2
  {
    hide BodyOf, PackWith, PackStr, ReadSubscription, Filter;
    var body := U16(id) + PackStr(topic) + [maxQos];
    if |topic| < 65536 {
      SubscriptionReads(id, topic, maxQos);
      BodyIsFound(8, body, room, rest);
    } else {
      hide ReadSubscribe, PackSubscribe;
      LongTopicIsLost(PackSubscribe(id, topic, maxQos, room).bytes + rest, topic);
    }
  }

  /** The same of an UNSUBSCRIBE packet. */
  lemma UnsubscribeRoundTripsIff(id: u16, topic: seq<byte>, room: nat, rest: seq<byte>)
    requires PackUnsubscribe(id, topic, room).Packed?
    ensures ReadUnsubscribe(PackUnsubscribe(id, topic, room).bytes + rest) == Some((id as nat, topic))
            <==> id != 0 && |topic| < 65536 && Filter(topic)
  {
    hide BodyOf, PackWith, PackStr, ReadUnsubscription, Filter;
    var body := U16(id) + PackStr(topic);
    if |topic| < 65536 {
      UnsubscriptionReads(id, topic);
      BodyIsFound(10, body, room, rest);
    } else {
      hide ReadUnsubscribe, PackUnsubscribe;
      LongTopicIsLost(PackUnsubscribe(id, topic, room).bytes + rest, topic);
    }
  }
}
