/** The variable headers and payloads of PUBLISH and CONNECT: the writers' layout and the
    readers' interpretation, and the proof that one undoes the other. */
module Wire {
  import opened Codec

  // Packet types (mqtt3_protocol.h)
  const CONNECT: byte := 0x10
  const PUBLISH: byte := 0x30
  const PUBACK: byte := 0x40
  const PUBREC: byte := 0x50
  const PUBREL: byte := 0x60
  const PUBCOMP: byte := 0x70
  const PINGREQ: byte := 0xC0
  const DISCONNECT: byte := 0xE0

  type QoS = q: int | 0 <= q <= 2

  /** The bytes of a C string up to its terminating NUL. */
  function CString(bs: seq<byte>): (s: seq<byte>)
    ensures 0 !in s
  {
    if bs == [] || bs[0] == 0 then [] else [bs[0]] + CString(bs[1..])
  }

  lemma {:induction false} CStringOfNulFree(bs: seq<byte>)
    requires 0 !in bs
    ensures CString(bs) == bs
  {
    if bs == [] {
    } else {
      assert bs[0] in bs;
      assert forall b :: b in bs[1..] ==> b in bs;
      CStringOfNulFree(bs[1..]);
      assert bs == [bs[0]] + bs[1..];
    }
  }

  function Uint16(w: uint16): (bs: seq<byte>)
    ensures |bs| == 2
  {
    [w / 256, w % 256]
  }

  /** A length-prefixed string. The length is passed as a 16-bit number, and only that many
      bytes are copied. */
  function String(s: seq<byte>): (bs: seq<byte>) {
    var length := |s| % 0x1_0000;
    Uint16(length) + s[..length]
  }

  /** Reads from what is left of the body of a packet; None is MOSQ_ERR_PROTOCOL. */
  function ReadUint16(rest: seq<byte>): (r: Option<(uint16, seq<byte>)>) {
    if |rest| < 2 then None else Some(((rest[0] as int) * 256 + rest[1] as int, rest[2..]))
  }

  function ReadString(rest: seq<byte>): (r: Option<(seq<byte>, seq<byte>)>) {
    match ReadUint16(rest)
    case None => None
    case Some((len, tail)) => if len > |tail| then None else Some((tail[..len], tail[len..]))
  }

  lemma ReadUint16Back(w: uint16, after: seq<byte>)
    ensures ReadUint16(Uint16(w) + after) == Some((w, after))
  {
    assert (Uint16(w) + after)[2..] == after;
  }

  lemma ReadStringBack(s: seq<byte>, after: seq<byte>)
    requires |s| <= 65535
    ensures ReadString(String(s) + after) == Some((s, after))
  {
    assert s[..|s|] == s;
    assert String(s) + after == Uint16(|s|) + (s + after);
    ReadUint16Back(|s|, s + after);
    assert (s + after)[..|s|] == s && (s + after)[|s|..] == after;
  }

  // ---------------------------------------------------------------- PUBLISH

  /** A PUBLISH packet. Without a QoS there is no packet id, and the reader leaves it 0. */
  datatype Publish = Publish(dup: bool, qos: QoS, retain: bool, topic: seq<byte>, mid: uint16, payload: seq<byte>)

  function Bit(b: bool): byte {
    if b then 1 else 0
  }

  function PublishHeader(m: Publish): byte {
    PUBLISH + 8 * Bit(m.dup) + 2 * m.qos + Bit(m.retain)
  }

  function PublishLength(m: Publish): nat {
    2 + |m.topic| + |m.payload| + if m.qos > 0 then 2 else 0
  }

  /** What the writer puts behind the fixed header. */
  function PublishBody(m: Publish): seq<byte> {
    String(m.topic) + (if m.qos > 0 then Uint16(m.mid) else []) + m.payload
  }

  function PublishRaw(m: Publish): Raw {
    Raw(PublishHeader(m), PublishBody(m))
  }

  /** What the reader makes of a packet of type PUBLISH; None is MOSQ_ERR_PROTOCOL. */
  function DecodePublish(p: Raw): Option<Publish> {
    var qos := p.command / 2 % 4;
    match ReadString(p.body)
    case None => None
    case Some((bytes, rest)) =>
      if CString(bytes) == [] then None
      else
        match ReadId(qos, rest)
        case None => None
        case Some((mid, payload)) =>
          if qos == 3 then None
          else Some(Publish(p.command / 8 % 2 == 1, qos, p.command % 2 == 1, CString(bytes), mid, payload))
  }

  /** The packet id is there when the QoS is not 0. */
  function ReadId(qos: int, rest: seq<byte>): Option<(uint16, seq<byte>)> {
    if qos > 0 then ReadUint16(rest) else Some((0, rest))
  }

  /** The messages the end-to-end promise is about. */
  predicate Sendable(m: Publish) {
    && 0 < |m.topic| <= 65535 && 0 !in m.topic
    && PublishLength(m) <= MAX_REMAINING
    && (m.qos == 0 ==> m.mid == 0)
  }

  lemma PublishBodySize(m: Publish)
    requires |m.topic| <= 65535
    ensures |PublishBody(m)| == PublishLength(m)
  {
  }

  lemma HeaderBits(m: Publish)
    ensures var h := PublishHeader(m);
            && h / 2 % 4 == m.qos && h / 8 % 2 == Bit(m.dup) && h % 2 == Bit(m.retain)
            && h / 16 == 3
  {
  }

  lemma PublishRoundTrip(m: Publish)
    requires Sendable(m)
    ensures DecodePublish(PublishRaw(m)) == Some(m)
    ensures |PublishBody(m)| == PublishLength(m)
  {
    var id := if m.qos > 0 then Uint16(m.mid) else [];
    assert PublishBody(m) == String(m.topic) + (id + m.payload);
    ReadStringBack(m.topic, id + m.payload);
    CStringOfNulFree(m.topic);
    HeaderBits(m);
    assert ReadId(m.qos, id + m.payload) == Some((m.mid, m.payload)) by {
      if m.qos > 0 { ReadUint16Back(m.mid, m.payload); } else { assert [] + m.payload == m.payload; }
    }
  }

  /** Where things are in the body of a PUBLISH: the length of the topic, high byte first, the
      topic, the id if there is one, and the payload to the end. */
  lemma PublishLayout(m: Publish)
    requires |m.topic| <= 65535
    ensures var (b, t) := (PublishBody(m), |m.topic|);
            && |b| >= 2 + t && (b[0] as int) * 256 + b[1] as int == t && b[2..2 + t] == m.topic
            && (m.qos == 0 ==> b[2 + t..] == m.payload)
            && (m.qos > 0 ==>
                 && |b| >= 4 + t && (b[2 + t] as int) * 256 + b[3 + t] as int == m.mid
                 && b[4 + t..] == m.payload)
  {
    var id := if m.qos > 0 then Uint16(m.mid) else [];
    assert m.topic[..|m.topic|] == m.topic;
    assert PublishBody(m) == Uint16(|m.topic|) + m.topic + id + m.payload;
  }

  /** Which packets the PUBLISH handler takes: the topic is there, and not empty up to its first NUL;
      the QoS is not 3; and there is an id if the QoS asks for one. */
  lemma DecodesExactly(p: Raw)
    ensures var (b, qos) := (p.body, p.command / 2 % 4);
            DecodePublish(p).Some? <==>
              && |b| >= 2
              && var t := (b[0] as int) * 256 + b[1] as int;
                 t > 0 && |b| >= 2 + t && b[2] != 0 && qos != 3 && (qos > 0 ==> |b| >= 4 + t)
  {
    if |p.body| >= 2 {
      var t := (p.body[0] as int) * 256 + p.body[1] as int;
      if |p.body| >= 2 + t {
        var topic := p.body[2..][..t];
        assert CString(topic) == [] <==> t == 0 || p.body[2] == 0;
      }
    }
  }

  // ---------------------------------------------------------------- CONNECT

  datatype Protocol = Mqtt31 | Mqtt311

  datatype Will = Will(topic: seq<byte>, payload: seq<byte>, qos: QoS, retain: bool)

  datatype Connect = Connect(
    protocol: Protocol, clientId: seq<byte>, will: Option<Will>,
    username: Option<seq<byte>>, password: Option<seq<byte>>,
    keepalive: uint16, cleanSession: bool)

  function ProtocolName(p: Protocol): (name: seq<byte>)
    ensures |name| == if p == Mqtt31 then 6 else 4
  {
    match p
    case Mqtt31 => [0x4D, 0x51, 0x49, 0x73, 0x64, 0x70]  // "MQIsdp"
    case Mqtt311 => [0x4D, 0x51, 0x54, 0x54]             // "MQTT"
  }

  function ProtocolVersion(p: Protocol): byte {
    match p
    case Mqtt31 => 3
    case Mqtt311 => 4
  }

  function OptionalString(s: Option<seq<byte>>): seq<byte> {
    match s
    case None => []
    case Some(v) => String(v)
  }

  function WillBytes(w: Option<Will>): seq<byte> {
    match w
    case None => []
    case Some(v) => String(v.topic) + String(v.payload)
  }

  /** The password is only sent along with a user name. */
  function SentPassword(c: Connect): Option<seq<byte>> {
    if c.username.None? then None else c.password
  }

  function ConnectFlags(c: Connect): byte {
    2 * Bit(c.cleanSession)
    + (match c.will
       case None => 0
       case Some(w) => 4 + 8 * w.qos + 32 * Bit(w.retain))
    + 64 * Bit(SentPassword(c).Some?)
    + 128 * Bit(c.username.Some?)
  }

  /** The remaining length the CONNECT writer reserves. */
  function ConnectLength(c: Connect): nat {
    (if c.protocol == Mqtt31 then 12 else 10)
    + 2 + |c.clientId|
    + (match c.will
       case None => 0
       case Some(w) => 2 + |w.topic| + 2 + |w.payload|)
    + (match c.username
       case None => 0
       case Some(u) => 2 + |u|)
    + (match SentPassword(c)
       case None => 0
       case Some(p) => 2 + |p|)
  }

  function ConnectHead(c: Connect): seq<byte> {
    String(ProtocolName(c.protocol)) + FixedBytes(ProtocolVersion(c.protocol), ConnectFlags(c), c.keepalive)
  }

  /** What the writer puts behind the fixed header. */
  function ConnectBody(c: Connect): seq<byte> {
    ConnectHead(c) + String(c.clientId) + WillBytes(c.will)
    + OptionalString(c.username) + OptionalString(SentPassword(c))
  }

  predicate Short(s: Option<seq<byte>>) {
    s.Some? ==> |s.value| <= 65535
  }

  /** Every string of the packet, and the will payload, fits a 16-bit length. */
  predicate AllShort(c: Connect) {
    && |c.clientId| <= 65535
    && (c.will.Some? ==> |c.will.value.topic| <= 65535 && |c.will.value.payload| <= 65535)
    && Short(c.username) && Short(SentPassword(c))
  }

  lemma StringSize(s: seq<byte>)
    ensures |String(s)| <= 2 + |s|
    ensures |String(s)| == 2 + |s| <==> |s| <= 65535
  {
  }

  /** The writer never passes the end of its buffer, and fills it exactly when every string
      fits its 16-bit length. */
  lemma ConnectFills(c: Connect)
    ensures |ConnectBody(c)| <= ConnectLength(c)
    ensures |ConnectBody(c)| == ConnectLength(c) <==> AllShort(c)
  {
    StringSize(c.clientId);
    StringSize(ProtocolName(c.protocol));
    match c.will {
      case None =>
      case Some(w) => StringSize(w.topic); StringSize(w.payload);
    }
    match c.username {
      case None =>
      case Some(u) => StringSize(u);
    }
    match SentPassword(c) {
      case None =>
      case Some(p) => StringSize(p);
    }
  }

  /** A reader of CONNECT after section 3.1 of MQTT 3.1.1 (and the 3.1 form of its header):
      the flag byte says which fields follow, and nothing may be left over. */
  function ParseConnect(p: Raw): Option<Connect> {
    if p.command != 0x10 then None
    else
      match ReadString(p.body)
      case None => None
      case Some((name, rest)) =>
        match ReadFixed(rest)
        case None => None
        case Some((version, flags, keepalive, fields)) =>
          if name == [0x4D, 0x51, 0x49, 0x73, 0x64, 0x70] && version == 3 then
            ParseFields(fields, Mqtt31, flags, keepalive)
          else if name == [0x4D, 0x51, 0x54, 0x54] && version == 4 then
            ParseFields(fields, Mqtt311, flags, keepalive)
          else None
  }

  /** Protocol version, flags and keepalive. */
  function ReadFixed(rest: seq<byte>): Option<(byte, byte, uint16, seq<byte>)> {
    if |rest| < 4 then None
    else Some((rest[0], rest[1], (rest[2] as int) * 256 + rest[3] as int, rest[4..]))
  }

  function FixedBytes(version: byte, flags: byte, keepalive: uint16): seq<byte> {
    [version, flags] + Uint16(keepalive)
  }

  lemma ReadFixedBack(version: byte, flags: byte, keepalive: uint16, after: seq<byte>)
    ensures ReadFixed(FixedBytes(version, flags, keepalive) + after) == Some((version, flags, keepalive, after))
  {
    assert (FixedBytes(version, flags, keepalive) + after)[4..] == after;
  }

  function ReadOptional(rest: seq<byte>, present: bool): Option<(Option<seq<byte>>, seq<byte>)> {
    if !present then Some((None, rest))
    else
      match ReadString(rest)
      case None => None
      case Some((s, tail)) => Some((Some(s), tail))
  }

  function ReadWill(rest: seq<byte>, flags: byte): Option<(Option<Will>, seq<byte>)> {
    if flags / 4 % 2 == 0 then Some((None, rest))
    else
      match ReadString(rest)
      case None => None
      case Some((topic, rest1)) =>
        match ReadString(rest1)
        case None => None
        case Some((payload, rest2)) =>
          if flags / 8 % 4 == 3 then None
          else Some((Some(Will(topic, payload, flags / 8 % 4, flags / 32 % 2 == 1)), rest2))
  }

  function ParseFields(rest: seq<byte>, protocol: Protocol, flags: byte, keepalive: uint16): Option<Connect> {
    match ReadString(rest)
    case None => None
    case Some((id, rest1)) =>
      match ReadWill(rest1, flags)
      case None => None
      case Some((will, rest2)) =>
        match ReadOptional(rest2, flags / 128 == 1)
        case None => None
        case Some((user, rest3)) =>
          match ReadOptional(rest3, flags / 64 % 2 == 1)
          case None => None
          case Some((pass, rest4)) =>
            if rest4 != [] then None
            else Some(Connect(protocol, id, will, user, pass, keepalive, flags / 2 % 2 == 1))
  }

  lemma Digits(clean: int, will: int, qos: int, retain: int, pass: int, user: int)
    requires 0 <= clean <= 1 && 0 <= will <= 1 && 0 <= qos <= 2 && 0 <= retain <= 1 && 0 <= pass <= 1 && 0 <= user <= 1
    ensures var f := 2 * clean + 4 * will + 8 * qos + 32 * retain + 64 * pass + 128 * user;
            && f / 2 % 2 == clean && f / 4 % 2 == will && f / 8 % 4 == qos && f / 32 % 2 == retain
            && f / 64 % 2 == pass && f / 128 == user
  {
    var f := 2 * clean + 4 * will + 8 * qos + 32 * retain + 64 * pass + 128 * user;
    assert f / 128 == user;
    assert f / 64 == pass + 2 * user;
    assert f / 32 == retain + 2 * (f / 64);
    assert f / 8 == qos + 4 * (f / 32);
    assert f / 4 == will + 2 * (f / 8);
    assert f / 2 == clean + 2 * (f / 4);
  }

  lemma FlagBits(c: Connect)
    ensures var f := ConnectFlags(c);
            && f / 2 % 2 == Bit(c.cleanSession)
            && f / 4 % 2 == Bit(c.will.Some?)
            && (c.will.Some? ==> f / 8 % 4 == c.will.value.qos && f / 32 % 2 == Bit(c.will.value.retain))
            && f / 64 % 2 == Bit(SentPassword(c).Some?)
            && f / 128 == Bit(c.username.Some?)
  {
    var will := c.will;
    Digits(Bit(c.cleanSession), Bit(will.Some?), if will.Some? then will.value.qos else 0,
           if will.Some? then Bit(will.value.retain) else 0, Bit(SentPassword(c).Some?), Bit(c.username.Some?));
  }

  lemma ReadOptionalBack(s: Option<seq<byte>>, after: seq<byte>)
    requires Short(s)
    ensures ReadOptional(OptionalString(s) + after, s.Some?) == Some((s, after))
  {
    match s
    case None => assert [] + after == after;
    case Some(v) => ReadStringBack(v, after);
  }

  lemma ReadWillBack(c: Connect, after: seq<byte>)
    requires AllShort(c)
    ensures ReadWill(WillBytes(c.will) + after, ConnectFlags(c)) == Some((c.will, after))
  {
    FlagBits(c);
    match c.will
    case None => assert [] + after == after;
    case Some(w) =>
      assert WillBytes(c.will) + after == String(w.topic) + (String(w.payload) + after);
      ReadStringBack(w.topic, String(w.payload) + after);
      ReadStringBack(w.payload, after);
  }

  lemma ConnectFieldsBack(c: Connect, fields: seq<byte>)
    requires AllShort(c)
    requires fields == String(c.clientId) + (WillBytes(c.will)
                       + (OptionalString(c.username) + (OptionalString(SentPassword(c)) + [])))
    ensures ParseFields(fields, c.protocol, ConnectFlags(c), c.keepalive)
         == Some(c.(password := SentPassword(c)))
  {
    var rest3 := OptionalString(SentPassword(c)) + [];
    var rest2 := OptionalString(c.username) + rest3;
    var rest1 := WillBytes(c.will) + rest2;
    ReadStringBack(c.clientId, rest1);
    ReadWillBack(c, rest2);
    ReadOptionalBack(c.username, rest3);
    ReadOptionalBack(SentPassword(c), []);
    FlagBits(c);
  }

  lemma ConnectLayout(c: Connect, fields: seq<byte>)
    requires fields == String(c.clientId) + (WillBytes(c.will)
                       + (OptionalString(c.username) + (OptionalString(SentPassword(c)) + [])))
    ensures ConnectBody(c) == String(ProtocolName(c.protocol))
                              + (FixedBytes(ProtocolVersion(c.protocol), ConnectFlags(c), c.keepalive) + fields)
  {
  }

  lemma ConnectHeadBack(c: Connect, fields: seq<byte>)
    ensures ParseConnect(Raw(CONNECT,
              String(ProtocolName(c.protocol))
              + (FixedBytes(ProtocolVersion(c.protocol), ConnectFlags(c), c.keepalive) + fields)))
         == ParseFields(fields, c.protocol, ConnectFlags(c), c.keepalive)
  {
    var fixed := FixedBytes(ProtocolVersion(c.protocol), ConnectFlags(c), c.keepalive);
    ReadStringBack(ProtocolName(c.protocol), fixed + fields);
    ReadFixedBack(ProtocolVersion(c.protocol), ConnectFlags(c), c.keepalive, fields);
  }

  /** Every field of a CONNECT can be read back: both protocol versions, any combination of
      will, user name and password (a password without user name is not sent). */
  lemma ConnectRoundTrip(c: Connect)
    requires AllShort(c)
    ensures ParseConnect(Raw(CONNECT, ConnectBody(c))) == Some(c.(password := SentPassword(c)))
  {
    var fields := String(c.clientId) + (WillBytes(c.will)
                  + (OptionalString(c.username) + (OptionalString(SentPassword(c)) + [])));
    ConnectLayout(c, fields);
    ConnectHeadBack(c, fields);
    ConnectFieldsBack(c, fields);
  }
}
