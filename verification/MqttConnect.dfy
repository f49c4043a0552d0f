/**
 The CONNECT packet (libs/mqtt.c, mqtt_pack_connection_request): what the client writes, and that a broker
 that reads it by section 3.1 of MQTT 3.1.1 gets back what the client was asked for.
 */
module MqttConnect {
  import opened Bytes
  import opened MqttTypes
  import opened MqttPacket
  import opened Wrappers

  /** A will; its message may be missing, which is an error. */
  datatype Will = Will(topic: seq<byte>, message: Option<seq<byte>>)

  /** The arguments of mqtt_connect. A client id of NULL is the empty one. */
  datatype Connection = Connection(clientId: seq<byte>, will: Option<Will>, user: Option<seq<byte>>,
      password: Option<seq<byte>>,
                                   flags: byte, keepAlive: u16)

  // enum MQTTConnectFlags: reserved bit 0, clean session 1, will flag 2, will QoS 3 and 4, will retain 5, password 6,
  // user name 7

  function CleanOf(flags: byte): nat {
    flags / 2 % 2
  }

  function WillQosOf(flags: byte): nat {
    flags / 8 % 4
  }

  function WillRetainOf(flags: byte): nat {
    flags / 32 % 2
  }

  function Bit<T>(o: Option<T>): nat {
    if o.Some? then 1 else 0
  }

  /** The flag byte on the wire: the reserved bit is 0, and without a will so are its QoS and retain bits. */
  function WireFlags(c: Connection): byte {
    128 * Bit(c.user) + 64 * Bit(c.password) + 2 * CleanOf(c.flags)
    + if c.will.Some? then 32 * WillRetainOf(c.flags) + 8 * WillQosOf(c.flags) + 4 else 0
  }

  function OptionalStr(o: Option<seq<byte>>): seq<byte> {
    if o.Some? then PackStr(o.value) else []
  }

  function WillMessage(c: Connection): seq<byte> {
    if c.will.Some? && c.will.value.message.Some? then c.will.value.message.value else []
  }

  /** The will message is written whole, behind its length in 16 bits. */
  function WillBytes(c: Connection): seq<byte> {
    if c.will.Some? then PackStr(c.will.value.topic) + (U16(|WillMessage(c)| % 65536) + WillMessage(c)) else []
  }

  const PROTOCOL: seq<byte> := [0, 4, 0x4D, 0x51, 0x54, 0x54, 4]

  function ConnectBody(c: Connection): seq<byte> {
    PROTOCOL + ([WireFlags(c)] + (U16(c.keepAlive)
    + (PackStr(c.clientId) + (WillBytes(c) + (OptionalStr(c.user) + OptionalStr(c.password))))))
  }

  function OptionalLength(o: Option<seq<byte>>): nat {
    if o.Some? then 2 + |o.value| else 0
  }

  /** The remaining length, from the full lengths of the strings. */
  function ConnectRemaining(c: Connection): nat {
    10 + (2 + |c.clientId|) + (if c.will.Some? then 2 + |c.will.value.topic| + 2 + |WillMessage(c)| else 0)
    + OptionalLength(c.user) + OptionalLength(c.password)
  }

  /** mqtt_pack_connection_request into a buffer of `room` bytes */
  function PackConnect(c: Connection, room: nat): Packing {
    if c.clientId == [] && CleanOf(c.flags) == 0 then Packing.Refused(CleanSessionIsRequired)
    else if c.will.Some? && c.will.value.message.None? then Packing.Refused(ConnectNullWillMessage)
    else if c.will.Some? && WillQosOf(c.flags) == 3 then Packing.Refused(ConnectForbiddenWillQos)
    else PackWith(CONNECT, 0, ConnectRemaining(c), ConnectBody(c), room)
  }

  /** The packet is as long as its header says exactly if the strings fit their 16-bit lengths. */
  lemma BodyFillsRemaining(c: Connection)
    ensures |ConnectBody(c)| <= ConnectRemaining(c)
    ensures |ConnectBody(c)| == ConnectRemaining(c) <==>
              |c.clientId| < 65536 && (c.will.Some? ==> |c.will.value.topic| < 65536)
              && (c.user.Some? ==> |c.user.value| < 65536) && (c.password.Some? ==> |c.password.value| < 65536)
  {
    hide PackStr, WireFlags, U16;
    CutOff(|c.clientId|);
    if c.will.Some? { CutOff(|c.will.value.topic|); }
    if c.user.Some? { CutOff(|c.user.value|); }
    if c.password.Some? { CutOff(|c.password.value|); }
  }

  lemma CutOff(n: nat)
    ensures n % 65536 <= n && (n % 65536 == n <==> n < 65536)
  {}

  // ----- The broker's side ------------------------------------------------------------------------------

  /** A CONNECT as a broker understands it; `retain` and `qos` are those of the will. */
  datatype Understood = Understood(clean: bool, clientId: seq<byte>, will: Option<Will>, qos: nat, retain: nat,
                                   user: Option<seq<byte>>, password: Option<seq<byte>>, keepAlive: u16)

  datatype Field<T> = Field(value: T, rest: seq<byte>) | Malformed

  /** A string with its length in front. */
  function ReadStr(b: seq<byte>): Field<seq<byte>> {
    if |b| < 2 then Malformed
    else
      var n := Sixteen(b[0], b[1]);
      if |b| < 2 + n then Malformed else Field(b[2..2 + n], b[2 + n..])
  }

  function ReadOptional(present: bool, b: seq<byte>): Field<Option<seq<byte>>> {
    if !present then Field(None, b)
    else match ReadStr(b) case Malformed => Malformed case Field(s, rest) => Field(Some(s), rest)
  }

  function ReadWill(present: bool, b: seq<byte>): Field<Option<Will>> {
    if !present then Field(None, b)
    else match ReadStr(b)
      case Malformed => Malformed
      case Field(topic, rest) =>
        match ReadStr(rest)
        case Malformed => Malformed
        case Field(message, rest') => Field(Some(Will(topic, Some(message))), rest')
  }

  /** The variable header and payload field by field: nothing may be left over, unused will bits must be 0. */
  function ReadFields(b: seq<byte>): Option<Understood> {
    if |b| < 10 || b[..7] != [0, 4, 0x4D, 0x51, 0x54, 0x54, 4] then None
    else
      var flags := b[7];
      var present, qos, retain := flags / 4 % 2 == 1, flags / 8 % 4, flags / 32 % 2;
      if flags % 2 != 0 || qos == 3 || (!present && (qos != 0 || retain != 0)) then None
      else match ReadStr(b[10..])
        case Malformed => None
        case Field(clientId, r1) =>
          match ReadWill(present, r1)
          case Malformed => None
          case Field(will, r2) =>
            match ReadOptional(flags / 128 == 1, r2)
            case Malformed => None
            case Field(user, r3) =>
              match ReadOptional(flags / 64 % 2 == 1, r3)
              case Malformed => None
              case Field(password, r4) =>
                if r4 != [] then None
                else Some(Understood(flags / 2 % 2 == 1, clientId, will, qos, retain, user, password,
                                     Sixteen(b[8], b[9])))
  }

  predicate Continues(s: seq<byte>, n: nat) {
    n <= |s| && forall i :: 1 <= i < n ==> 0x80 <= s[i] < 0xC0
  }

  /** The length of the UTF-8 character that `s` starts with, by RFC 3629; 0 if there is none, or if it is NUL. */
  function CharLength(s: seq<byte>): (n: nat)
    requires s != []
    ensures n <= |s|
  {
    var b := s[0];
    if 0 < b < 0x80 then 1
    else if 0xC2 <= b < 0xE0 && Continues(s, 2) then 2
    else if 0xE0 <= b < 0xF0 && Continues(s, 3) && (b == 0xE0 ==> s[1] >= 0xA0) && (b == 0xED ==> s[1] < 0xA0) then 3
    else if 0xF0 <= b < 0xF5 && Continues(s, 4) && (b == 0xF0 ==> s[1] >= 0x90) && (b == 0xF4 ==> s[1] < 0x90) then 4
    else 0
  }

  /** A UTF-8 encoded string by section 1.5.3 of MQTT 3.1.1. */
  predicate Utf8(s: seq<byte>)
    decreases |s|
  {
    s != [] ==> CharLength(s) > 0 && Utf8(s[CharLength(s)..])
  }

  /**
   What section 3.1 asks of the fields: client id, will topic and user name are UTF-8 (3.1.3.1, 3.1.3.2, 3.1.3.4), there
   is no password without a user name (3.1.2.9), and an empty client id only with a clean session (3.1.3.1).
   */
  predicate Allowed(u: Understood) {
    && Utf8(u.clientId) && (u.will.Some? ==> Utf8(u.will.value.topic)) && (u.user.Some? ==> Utf8(u.user.value))
    && (u.password.Some? ==> u.user.Some?)
    && (u.clientId == [] ==> u.clean)
  }

  /** A CONNECT by section 3.1 of MQTT 3.1.1. */
  function ReadConnect(b: seq<byte>): Option<Understood> {
    match ReadFields(b)
    case Some(u) => if Allowed(u) then Some(u) else None
    case None => None
  }

  /**
   What the caller of mqtt_connect asked for; of enum MQTTConnectFlags the clean session is 2, the QoS of the will 8 and
   16, its retain flag 32.
   */
  function Asked(c: Connection): Understood {
    Understood(c.flags / 2 % 2 == 1, c.clientId, c.will, if c.will.Some? then c.flags / 8 % 4 else 0,
               if c.will.Some? then c.flags / 32 % 2 else 0, c.user, c.password, c.keepAlive)
  }

  predicate Short(s: seq<byte>) {
    |s| < 65536
  }

  predicate ShortOption(o: Option<seq<byte>>) {
    o.Some? ==> Short(o.value)
  }

  predicate AllShort(c: Connection) {
    && Short(c.clientId) && ShortOption(c.user) && ShortOption(c.password)
    && (c.will.Some? ==> Short(c.will.value.topic) && ShortOption(c.will.value.message))
  }

  predicate AllText(c: Connection) {
    Utf8(c.clientId) && (c.will.Some? ==> Utf8(c.will.value.topic)) && (c.user.Some? ==> Utf8(c.user.value))
  }

  /**
   Can what is asked for be said in a CONNECT packet? Strings and the will message fit their 16-bit lengths, texts are
   UTF-8, and a password comes with a user name.
   */
  predicate Sayable(c: Connection) {
    AllShort(c) && AllText(c) && (c.password.Some? ==> c.user.Some?)
  }

  lemma StrReadsBack(s: seq<byte>, rest: seq<byte>)
    requires Short(s)
    ensures ReadStr(PackStr(s) + rest) == Field(s, rest)
  {
    var b := PackStr(s) + rest;
    assert s[..|s|] == s;
    assert b[0] == |s| / 256 && b[1] == |s| % 256;
    assert b[2..2 + |s|] == s && b[2 + |s|..] == rest;
  }

  lemma OptionalReadsBack(o: Option<seq<byte>>, rest: seq<byte>)
    requires ShortOption(o)
    ensures ReadOptional(o.Some?, OptionalStr(o) + rest) == Field(o, rest)
  {
    if o.Some? { StrReadsBack(o.value, rest); } else { assert [] + rest == rest; }
  }

  lemma WillReadsBack(c: Connection, rest: seq<byte>)
    requires AllShort(c) && (c.will.Some? ==> c.will.value.message.Some?)
    ensures ReadWill(c.will.Some?, WillBytes(c) + rest) == Field(c.will, rest)
  {
    if c.will.Some? {
      var topic, message := c.will.value.topic, WillMessage(c);
      assert message[..|message|] == message;
      assert U16(|message|) + message == PackStr(message);
      assert WillBytes(c) + rest == PackStr(topic) + (PackStr(message) + rest);
      StrReadsBack(topic, PackStr(message) + rest);
      StrReadsBack(message, rest);
    } else {
      assert [] + rest == rest;
    }
  }

  lemma StrIsShort(b: seq<byte>)
    ensures ReadStr(b).Field? ==> Short(ReadStr(b).value)
  {}

  lemma OptionalIsShort(present: bool, b: seq<byte>)
    ensures ReadOptional(present, b).Field? ==> ShortOption(ReadOptional(present, b).value)
  {
    StrIsShort(b);
  }

  lemma WillIsShort(present: bool, b: seq<byte>)
    ensures var r := ReadWill(present, b);
            r.Field? && r.value.Some? ==> Short(r.value.value.topic) && ShortOption(r.value.value.message)
  {
    StrIsShort(b);
    if ReadStr(b).Field? { StrIsShort(ReadStr(b).rest); }
  }

  /** No string that is read is longer than its length field can say. */
  lemma ReadIsShort(b: seq<byte>)
    ensures var r := ReadFields(b);
            r.Some? ==> Short(r.value.clientId) && ShortOption(r.value.user) && ShortOption(r.value.password)
                        && (r.value.will.Some?
                            ==> Short(r.value.will.value.topic) && ShortOption(r.value.will.value.message))
  {
    hide ReadStr, ReadOptional, ReadWill, Short, ShortOption, FromU16, CleanOf, WillQosOf, WillRetainOf;
    if |b| >= 10 {
      var flags, id := b[7], ReadStr(b[10..]);
      StrIsShort(b[10..]);
      if id.Field? {
        var will := ReadWill(flags / 4 % 2 == 1, id.rest);
        WillIsShort(flags / 4 % 2 == 1, id.rest);
        if will.Field? {
          var user := ReadOptional(flags / 128 == 1, will.rest);
          OptionalIsShort(flags / 128 == 1, will.rest);
          if user.Field? { OptionalIsShort(flags / 64 % 2 == 1, user.rest); }
        }
      }
    }
  }

  lemma FlagFields(clean: nat, present: nat, qos: nat, retain: nat, password: nat, user: nat, flags: byte)
    requires clean < 2 && present < 2 && qos < 4 && retain < 2 && password < 2 && user < 2
    requires flags == 128 * user + 64 * password + 32 * retain + 8 * qos + 4 * present + 2 * clean
    ensures flags % 2 == 0 && CleanOf(flags) == clean && flags / 4 % 2 == present && WillQosOf(flags) == qos
    ensures WillRetainOf(flags) == retain && flags / 64 % 2 == password && flags / 128 == user
  {
    assert flags / 2 == 64 * user + 32 * password + 16 * retain + 4 * qos + 2 * present + clean;
    assert flags / 4 == 32 * user + 16 * password + 8 * retain + 2 * qos + present;
    assert flags / 8 == 16 * user + 8 * password + 4 * retain + qos;
    assert flags / 32 == 4 * user + 2 * password + retain;
    assert flags / 64 == 2 * user + password;
  }

  lemma WireFlagFields(c: Connection)
    ensures var f := WireFlags(c);
            && f % 2 == 0 && CleanOf(f) == CleanOf(c.flags) && f / 4 % 2 == Bit(c.will)
            && WillQosOf(f) == (if c.will.Some? then WillQosOf(c.flags) else 0)
            && WillRetainOf(f) == (if c.will.Some? then WillRetainOf(c.flags) else 0)
            && f / 64 % 2 == Bit(c.password) && f / 128 == Bit(c.user)
  {
    var qos := if c.will.Some? then WillQosOf(c.flags) else 0;
    var retain := if c.will.Some? then WillRetainOf(c.flags) else 0;
    FlagFields(CleanOf(c.flags), Bit(c.will), qos, retain, Bit(c.password), Bit(c.user), WireFlags(c));
  }

  lemma BodyReadsBack(c: Connection)
    requires AllShort(c) && (c.will.Some? ==> c.will.value.message.Some? && WillQosOf(c.flags) != 3)
    ensures ReadFields(ConnectBody(c)) == Some(Asked(c))
  {
    hide ReadStr, PackStr, ReadOptional, ReadWill, WillBytes, OptionalStr, WireFlags, U16, FromU16;
    var user, password := OptionalStr(c.user), OptionalStr(c.password);
    var payload := PackStr(c.clientId) + (WillBytes(c) + (user + password));
    var b := ConnectBody(c);
    HeaderReadsBack(c, payload);
    WireFlagFields(c);
    StrReadsBack(c.clientId, WillBytes(c) + (user + password));
    WillReadsBack(c, user + password);
    OptionalReadsBack(c.user, password);
    OptionalReadsBack(c.password, []);
    assert password + [] == password;
  }

  lemma Layers(p: seq<byte>, f: byte, k: seq<byte>, payload: seq<byte>)
    requires |p| == 7 && |k| == 2
    ensures var b := p + ([f] + (k + payload));
            |b| >= 10 && b[..7] == p && b[7] == f && b[8] == k[0] && b[9] == k[1] && b[10..] == payload
  {}

  lemma HeaderReadsBack(c: Connection, payload: seq<byte>)
    ensures var b := PROTOCOL + ([WireFlags(c)] + (U16(c.keepAlive) + payload));
            |b| >= 10 && b[..7] == PROTOCOL && b[7] == WireFlags(c) && Sixteen(b[8], b[9]) == c.keepAlive
                && b[10..] == payload
  {
    hide WireFlags;
    Layers(PROTOCOL, WireFlags(c), U16(c.keepAlive), payload);
    SixteenReads(c.keepAlive);
  }

  /** A whole CONNECT packet at the start of `b`, as a broker reads it. */
  function ReadPacket(b: seq<byte>): Option<Understood> {
    var h := UnpackFixedHeader(b);
    if h.Header? && h.control == 1 then ReadConnect(b[h.size..h.size + h.remaining]) else None
  }

  /** A packed request has a client id or asks for a clean session. */
  lemma AllowedIff(c: Connection, room: nat)
    requires PackConnect(c, room).Packed?
    ensures Allowed(Asked(c)) <==> AllText(c) && (c.password.Some? ==> c.user.Some?)
  {
    hide Utf8, PackWith, ConnectBody;
  }

  /** A broker reads a CONNECT packet as the client was asked for, and no further, whatever follows it. */
  lemma ConnectRoundTrip(c: Connection, room: nat, rest: seq<byte>)
    requires PackConnect(c, room).Packed? && Sayable(c)
    ensures var bytes, h := PackConnect(c, room).bytes, UnpackFixedHeader(PackConnect(c, room).bytes + rest);
            && |bytes| <= room && h.Header? && h.flags == 0 && h.size + h.remaining == |bytes|
            && ReadPacket(bytes + rest) == Some(Asked(c))
  {
    FieldsOfPacket(c, room, rest);
    hide ReadFields, PackConnect, Asked, UnpackFixedHeader, Allowed;
    AllowedIff(c, room);
  }

  /** The fields come back, allowed or not. */
  lemma FieldsOfPacket(c: Connection, room: nat, rest: seq<byte>)
    requires PackConnect(c, room).Packed? && AllShort(c)
    ensures var bytes, h := PackConnect(c, room).bytes, UnpackFixedHeader(PackConnect(c, room).bytes + rest);
            && |bytes| <= room && h.Header? && h.control == CONNECT && h.flags == 0 && h.size + h.remaining == |bytes|
            && ReadFields((bytes + rest)[h.size..h.size + h.remaining]) == Some(Asked(c))
  {
    hide ReadFields, ConnectBody, ConnectRemaining, Asked, UnpackFixedHeader, Varint;
    var header, body := HeaderBytes(CONNECT, 0, ConnectRemaining(c)), ConnectBody(c);
    BodyFillsRemaining(c);
    HeaderRoundTrip(CONNECT, 0, ConnectRemaining(c), body + rest);
    assert (header + body) + rest == header + (body + rest);
    assert ((header + body) + rest)[|header|..|header| + |body|] == body;
    BodyReadsBack(c);
  }

  /**
   The round trip holds exactly if what is asked for can be said: the strings and the will message fit their 16-bit
   lengths, the texts are UTF-8, and a password comes with a user name. None of this is checked before packing. If it
   does not hold, no bytes that may follow the packet make it come out right.
   */
  lemma ConnectRoundTripsIff(c: Connection, room: nat, rest: seq<byte>)
    requires PackConnect(c, room).Packed?
    ensures ReadPacket(PackConnect(c, room).bytes + rest) == Some(Asked(c)) <==> Sayable(c)
  {
    hide ReadFields, PackConnect, UnpackFixedHeader, ConnectBody, Allowed, Asked;
    AllowedIff(c, room);
    if Sayable(c) { ConnectRoundTrip(c, room, rest); }
    var b := PackConnect(c, room).bytes + rest;
    var h := UnpackFixedHeader(b);
    if h.Header? { ReadIsShort(b[h.size..h.size + h.remaining]); }
    AskedShort(c);
  }

  lemma AskedShort(c: Connection)
    ensures var u := Asked(c);
            AllShort(c) <==> (Short(u.clientId) && ShortOption(u.user) && ShortOption(u.password)
                              && (u.will.Some? ==> Short(u.will.value.topic) && ShortOption(u.will.value.message)))
  {}

  lemma VarintShort(n: nat)
    requires n < 2097152
    ensures |Varint(n)| <= 3
  {
    if n >= 128 { assert |Varint(n)| == 1 + |Varint(n / 128)|; }
  }

  /** A client id of one letter and a password without a user name: packed, but no CONNECT at all. */
  lemma PasswordAlone(password: seq<byte>, room: nat, rest: seq<byte>)
    requires |password| < 65536 && room >= 20 + |password|
    ensures var c := Connection([0x61], None, None, Some(password), 2, 0);
            PackConnect(c, room).Packed? && ReadPacket(PackConnect(c, room).bytes + rest) == None
  {
    var c := Connection([0x61], None, None, Some(password), 2, 0);
    assert CleanOf(2) == 1;
    VarintShort(ConnectRemaining(c));
    assert PackConnect(c, room).Packed? by { hide ConnectBody; }
    FieldsOfPacket(c, room, rest);
    hide ReadFields, PackConnect, UnpackFixedHeader;
  }

  /** A client id that is one byte FF, which no UTF-8 text holds. */
  lemma IllFormedClientId(room: nat, rest: seq<byte>)
    requires room >= 20
    ensures var c := Connection([0xFF], None, None, None, 2, 0);
            PackConnect(c, room).Packed? && ReadPacket(PackConnect(c, room).bytes + rest) == None
  {
    var c := Connection([0xFF], None, None, None, 2, 0);
    assert CleanOf(2) == 1;
    VarintShort(ConnectRemaining(c));
    FieldsOfPacket(c, room, rest);
    hide ReadFields, PackConnect, UnpackFixedHeader;
    assert CharLength([0xFF]) == 0;
  }
}
