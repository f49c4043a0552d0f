/** The vocabulary of the MQTT 3.1.1 client (libs/mqtt.h). */
module MqttTypes {
  import opened Bytes

  type u16 = n: int | 0 <= n < 65536

  // enum MQTTControlPacketType
  const CONNECT: nat := 1
  const CONNACK: nat := 2
  const PUBLISH: nat := 3
  const PUBACK: nat := 4
  const PUBREC: nat := 5
  const PUBREL: nat := 6
  const PUBCOMP: nat := 7
  const SUBSCRIBE: nat := 8
  const SUBACK: nat := 9
  const UNSUBSCRIBE: nat := 10
  const UNSUBACK: nat := 11
  const PINGREQ: nat := 12
  const PINGRESP: nat := 13
  const DISCONNECT: nat := 14

  /** The values of client->error and of the return codes: MQTT_OK, or one of the (negative) errors. */
  datatype Status =
    | Ok
    | ControlForbiddenType
    | ControlInvalidFlags
    | ConnectClientIdRefused
    | CleanSessionIsRequired
    | ConnectNullWillMessage
    | ConnectForbiddenWillQos
    | ConnackForbiddenFlags
    | ConnackForbiddenCode
    | PublishForbiddenQos
    | MalformedResponse
    | ResponseInvalidControlType
    | ConnectNotCalled
    | SendBufferIsFull
    | SocketError
    | MalformedRequest
    | RecvBufferTooSmall
    | AckOfUnknown
    | ConnectionRefused
    | SubscribeFailed
    | InvalidRemainingLength

  /** Errors that no call takes back; a new client starts with ConnectNotCalled. */
  predicate Final(e: Status) {
    e != Ok && e != ConnectNotCalled
  }

  type Fault = e: Status | Final(e) witness SocketError

  type SendResult = e: Status | e == Ok || Final(e) witness Ok

  // enum MQTTPublishFlags: DUP is bit 3, the QoS bits 1 and 2, RETAIN bit 0.

  function QosOf(flags: byte): nat {
    flags / 2 % 4
  }

  function DupOf(flags: byte): nat {
    flags / 8 % 2
  }

  function RetainOf(flags: byte): nat {
    flags % 2
  }

  /** flags | MQTT_PUBLISH_DUP */
  function WithDup(flags: byte): byte {
    var other := flags / 16 * 16 + flags % 8;
    other + 8
  }

  /** flags & ~MQTT_PUBLISH_DUP */
  function WithoutDup(flags: byte): byte {
    flags / 16 * 16 + flags % 8
  }

  /** A flag byte is determined by its fields. */
  lemma Fields(flags: byte, high: nat, dup: nat, qos: nat, retain: nat)
    requires dup < 2 && qos < 4 && retain < 2
    requires flags == 16 * high + 8 * dup + 2 * qos + retain
    ensures flags / 16 == high && DupOf(flags) == dup && QosOf(flags) == qos && RetainOf(flags) == retain
  {
    assert flags / 2 == 8 * high + 4 * dup + qos;
    assert flags / 8 == 2 * high + dup;
  }

  lemma FieldsOf(flags: byte)
    ensures flags == 16 * (flags / 16) + 8 * DupOf(flags) + 2 * QosOf(flags) + RetainOf(flags)
  {
    var h := flags / 2;
    assert h == 4 * (h / 4) + h % 4 && h / 4 == flags / 8;
  }

  lemma DupFlagOnly(flags: byte)
    ensures QosOf(WithDup(flags)) == QosOf(flags) && RetainOf(WithDup(flags)) == RetainOf(flags)
    ensures DupOf(WithDup(flags)) == 1 && WithDup(flags) / 16 == flags / 16
    ensures QosOf(WithoutDup(flags)) == QosOf(flags) && RetainOf(WithoutDup(flags)) == RetainOf(flags)
    ensures DupOf(WithoutDup(flags)) == 0 && WithoutDup(flags) / 16 == flags / 16
  {
    FieldsOf(flags);
    Fields(WithDup(flags), flags / 16, 1, QosOf(flags), RetainOf(flags));
    Fields(WithoutDup(flags), flags / 16, 0, QosOf(flags), RetainOf(flags));
  }

  /** Two bytes, most significant first (htons). */
  function U16(n: u16): (b: seq<byte>)
    ensures |b| == 2
  {
    [n / 256, n % 256]
  }

  function FromU16(hi: byte, lo: byte): (n: u16)
    ensures U16(n) == [hi, lo]
  {
    256 * hi + lo
  }

  /** A number of sixteen bits as section 1.5.2 of MQTT 3.1.1 has it, the most significant byte first. */
  function Sixteen(high: nat, low: nat): nat {
    256 * high + low
  }

  lemma SixteenReads(n: u16)
    ensures Sixteen(U16(n)[0], U16(n)[1]) == n
  {}
}
