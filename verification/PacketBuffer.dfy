/** The packet structure of mosquitto_internal.h with its byte buffer and cursor: allocation
    (util_mosq.c), the read and write primitives (net_mosq.c), the PUBLISH and CONNECT
    writers, and the PUBLISH and SUBACK readers. Fields have the widths of the C structure,
    so that the proofs include that no length computation wraps. */
module PacketBuffer {
  import opened Codec
  import opened Wire

  datatype Code = Success | Protocol | Inval | NoConn | NotFound | ConnLost | PayloadSize | Errno | Other

  type int8 = i: int | -0x80 <= i < 0x80

  lemma Regroup(a: seq<byte>, b: seq<byte>, c: seq<byte>, d: seq<byte>, e: seq<byte>, f: seq<byte>)
    ensures a + b + c + d + (e + f) == a + (b + c + d + e + f)
  {
  }

  lemma FirstDigit(before: seq<byte>, n: nat)
    ensures var digit := if n / 128 > 0 then n % 128 + 128 else n % 128;
            && 0 <= digit < 256
            && (n / 128 > 0 ==> (before + [digit]) + EncodeLength(n / 128) == before + EncodeLength(n))
            && (n / 128 == 0 ==> before + [digit] == before + EncodeLength(n))
  {
  }

  class Packet {
    var payload: array?<byte>
    var next: Packet?
    var remainingMult: uint32
    var remainingLength: uint32
    var packetLength: uint32
    var toProcess: uint32
    var pos: uint32
    var mid: uint16
    var command: byte
    var remainingCount: int8

    /** A zeroed structure. */
    constructor (command: byte, mid: uint16, remainingLength: uint32)
      ensures this.command == command && this.mid == mid && this.remainingLength == remainingLength
      ensures payload == null && next == null && pos == 0 && toProcess == 0 && packetLength == 0
      ensures remainingCount == 0 && remainingMult == 0
    {
      payload, next := null, null;
      remainingMult, packetLength, toProcess, pos, remainingCount := 0, 0, 0, 0, 0;
      this.command, this.mid, this.remainingLength := command, mid, remainingLength;
    }

    // -------------------------------------------------------------- writing

    ghost predicate Writable()
      reads this
    {
      payload != null && payload.Length == packetLength && pos <= packetLength
    }

    /** The bytes in front of the cursor. */
    ghost function Written(): seq<byte>
      requires Writable()
      reads this, payload
    {
      payload[..pos]
    }

    /** The digit loop of the allocation: at most five digits. */
    method EncodeDigits() returns (digits: array<byte>)
      modifies this`remainingCount
      ensures fresh(digits) && digits.Length == 5 && 1 <= remainingCount <= 5
      ensures remainingCount < 5 <==> remainingLength <= MAX_REMAINING
      ensures remainingCount < 5 ==> digits[..remainingCount] == EncodeLength(remainingLength)
    {
      digits := new byte[5];
      var rest: nat := remainingLength;
      remainingCount := 0;
      FourDigits(remainingLength);
      while true
        invariant 0 <= remainingCount < 5
        invariant digits[..remainingCount] + EncodeLength(rest) == EncodeLength(remainingLength)
        decreases 5 - remainingCount
      {
        ghost var before := digits[..remainingCount];
        ghost var number := rest;
        var digit: byte := rest % 128;
        rest := rest / 128;
        if rest > 0 {
          digit := digit + 0x80;
        }
        digits[remainingCount] := digit;
        remainingCount := remainingCount + 1;
        assert digits[..remainingCount] == before + [digit];
        FirstDigit(before, number);
        if !(rest > 0 && remainingCount < 5) {
          break;
        }
      }
    }

    /** Encodes the remaining length, allocates the buffer and writes the fixed header. Fails
        exactly for remaining lengths that do not fit four digits. */
    method Alloc() returns (rc: Code)
      modifies this`payload, this`remainingCount, this`packetLength, this`pos
      ensures rc == if remainingLength > MAX_REMAINING then PayloadSize else Success
      ensures rc == PayloadSize ==> payload == null
      ensures rc == Success ==>
                && payload != null && fresh(payload) && Writable()
                && remainingCount == |EncodeLength(remainingLength)|
                && packetLength == 1 + |EncodeLength(remainingLength)| + remainingLength
                && Written() == [command] + EncodeLength(remainingLength)
    {
      payload := null;
      var remainingBytes := EncodeDigits();
      if remainingCount == 5 {
        return PayloadSize;
      }
      assert |EncodeLength(remainingLength)| == remainingCount;
      packetLength := remainingLength + 1 + remainingCount as int;
      payload := new byte[packetLength];
      payload[0] := command;
      forall i | 0 <= i < remainingCount {
        payload[i + 1] := remainingBytes[i];
      }
      pos := 1 + remainingCount as int;
      assert payload[..pos] == [command] + remainingBytes[..remainingCount];
      return Success;
    }

    method WriteByte(b: byte)
      requires Writable() && pos + 1 <= packetLength
      modifies this`pos, payload
      ensures Writable() && Written() == old(Written()) + [b]
    {
      payload[pos] := b;
      pos := pos + 1;
    }

    method WriteBytes(bytes: seq<byte>)
      requires Writable() && pos + |bytes| <= packetLength
      modifies this`pos, payload
      ensures Writable() && Written() == old(Written()) + bytes
    {
      forall i | 0 <= i < |bytes| {
        payload[pos + i] := bytes[i];
      }
      pos := pos + |bytes|;
    }

    method WriteUint16(w: uint16)
      requires Writable() && pos + 2 <= packetLength
      modifies this`pos, payload
      ensures Writable() && Written() == old(Written()) + Uint16(w)
    {
      WriteByte(w / 256);
      WriteByte(w % 256);
    }

    /** The length arrives as a 16-bit number, whatever the length of the string. */
    method WriteString(str: seq<byte>)
      requires Writable() && pos + |String(str)| <= packetLength
      modifies this`pos, payload
      ensures Writable() && Written() == old(Written()) + String(str) && pos == old(pos) + |String(str)|
    {
      var length: uint16 := |str| % 0x1_0000;
      WriteUint16(length);
      WriteBytes(str[..length]);
    }

    /** Topic, packet id and payload of a PUBLISH. */
    method WritePublishBody(m: Publish)
      requires Writable() && pos + |PublishBody(m)| <= packetLength
      modifies this`pos, payload
      ensures Writable() && Written() == old(Written()) + PublishBody(m)
    {
      ghost var head := Written();
      WriteString(m.topic);
      if m.qos > 0 {
        WriteUint16(m.mid);
      }
      ghost var id := if m.qos > 0 then Uint16(m.mid) else [];
      assert Written() == head + (String(m.topic) + id);
      if |m.payload| != 0 {
        WriteBytes(m.payload);
      }
      assert Written() == head + ((String(m.topic) + id) + m.payload);
    }

    /** Protocol name, version, flags and keepalive of a CONNECT. */
    method WriteConnectHead(c: Connect)
      requires Writable() && pos + |ConnectHead(c)| <= packetLength
      modifies this`pos, payload
      ensures Writable() && Written() == old(Written()) + ConnectHead(c) && pos == old(pos) + |ConnectHead(c)|
    {
      ghost var head := Written();
      WriteString(ProtocolName(c.protocol));
      WriteByte(ProtocolVersion(c.protocol));
      var flags: byte := 2 * Bit(c.cleanSession);
      if c.will.Some? {
        flags := flags + 32 * Bit(c.will.value.retain) + 8 * c.will.value.qos + 4;
      }
      if c.username.Some? {
        flags := flags + 128;
        if c.password.Some? {
          flags := flags + 64;
        }
      }
      WriteByte(flags);
      WriteUint16(c.keepalive);
      assert flags == ConnectFlags(c);
      assert Written() == head + ConnectHead(c);
    }

    method WritePair(first: seq<byte>, second: seq<byte>)
      requires Writable() && pos + |String(first)| + |String(second)| <= packetLength
      modifies this`pos, payload
      ensures Writable() && Written() == old(Written()) + (String(first) + String(second))
      ensures pos == old(pos) + |String(first)| + |String(second)|
    {
      ghost var head := Written();
      ghost var (s1, s2) := (String(first), String(second));
      WriteString(first);
      WriteString(second);
      assert head + s1 + s2 == head + (s1 + s2);
    }

    method WriteWill(w: Option<Will>)
      requires Writable() && pos + |WillBytes(w)| <= packetLength
      modifies this`pos, payload
      ensures Writable() && Written() == old(Written()) + WillBytes(w) && pos == old(pos) + |WillBytes(w)|
    {
      if w.Some? {
        assert WillBytes(w) == String(w.value.topic) + String(w.value.payload);
        WritePair(w.value.topic, w.value.payload);
      } else {
        assert WillBytes(w) == [] && Written() + [] == Written();
      }
    }

    method WriteCredentials(c: Connect)
      requires Writable()
      requires pos + |OptionalString(c.username) + OptionalString(SentPassword(c))| <= packetLength
      modifies this`pos, payload
      ensures Writable()
      ensures Written() == old(Written()) + (OptionalString(c.username) + OptionalString(SentPassword(c)))
    {
      ghost var bytes := OptionalString(c.username) + OptionalString(SentPassword(c));
      if c.username.Some? && c.password.Some? {
        assert bytes == String(c.username.value) + String(c.password.value);
        WritePair(c.username.value, c.password.value);
      } else if c.username.Some? {
        assert bytes == String(c.username.value);
        WriteString(c.username.value);
      } else {
        assert bytes == [] && Written() + [] == Written();
      }
    }

    /** All that follows the fixed header of a CONNECT. */
    method WriteConnectBody(c: Connect)
      requires Writable() && pos + |ConnectBody(c)| <= packetLength
      modifies this`pos, payload
      ensures Writable() && Written() == old(Written()) + ConnectBody(c)
    {
      ghost var head := Written();
      ghost var (id, w) := (String(c.clientId), WillBytes(c.will));
      ghost var (u, p) := (OptionalString(c.username), OptionalString(SentPassword(c)));
      assert |ConnectBody(c)| == |ConnectHead(c)| + |id| + |w| + |u + p|;
      WriteConnectHead(c);
      WriteString(c.clientId);
      WriteWill(c.will);
      WriteCredentials(c);
      Regroup(head, ConnectHead(c), id, w, u, p);
    }

    // -------------------------------------------------------------- reading

    ghost predicate Readable()
      reads this
    {
      && pos <= remainingLength
      && (if payload == null then remainingLength == 0 else payload.Length == remainingLength)
    }

    ghost function Body(): seq<byte>
      requires Readable()
      reads this, payload
    {
      if payload == null then [] else payload[..]
    }

    /** The bytes the cursor has not passed. */
    ghost function Left(): seq<byte>
      requires Readable()
      reads this, payload
    {
      Body()[pos..]
    }

    method ReadByte() returns (rc: Code, b: byte)
      requires Readable()
      modifies this`pos
      ensures Readable()
      ensures old(Left()) == [] ==> rc == Protocol && Left() == []
      ensures old(Left()) != [] ==> rc == Success && old(Left()) == [b] + Left()
    {
      b := 0;
      if pos + 1 > remainingLength {
        return Protocol, b;
      }
      b := payload[pos];
      pos := pos + 1;
      rc := Success;
    }

    method ReadUint16() returns (rc: Code, word: uint16)
      requires Readable()
      modifies this`pos
      ensures Readable()
      ensures match Wire.ReadUint16(old(Left()))
              case None => rc == Protocol && Left() == old(Left())
              case Some((w, rest)) => rc == Success && word == w && Left() == rest
    {
      word := 0;
      if pos + 2 > remainingLength {
        return Protocol, word;
      }
      var msb := payload[pos];
      pos := pos + 1;
      var lsb := payload[pos];
      pos := pos + 1;
      word := (msb as int) * 256 + lsb as int;
      rc := Success;
    }

    method ReadString() returns (rc: Code, str: seq<byte>)
      requires Readable()
      modifies this`pos
      ensures Readable()
      ensures match Wire.ReadString(old(Left()))
              case None => rc == Protocol
              case Some((s, rest)) => rc == Success && str == s && Left() == rest
    {
      str := [];
      ghost var start := Left();
      var len: uint16;
      rc, len := ReadUint16();
      if rc != Success {
        return;
      }
      if pos + len > remainingLength {
        return Protocol, str;
      }
      str := if payload == null then [] else payload[pos..pos + len];
      ghost var left := Left();
      assert str == left[..len];
      pos := pos + len;
      assert Left() == left[len..];
    }

    /** Copies `count` bytes out of the packet. */
    method ReadBytes(count: uint32) returns (rc: Code, bytes: seq<byte>)
      requires Readable() && pos + count < 0x1_0000_0000
      modifies this`pos
      ensures Readable()
      ensures count > |old(Left())| ==> rc == Protocol && Left() == old(Left())
      ensures count <= |old(Left())| ==>
                rc == Success && bytes == old(Left())[..count] && Left() == old(Left())[count..]
    {
      bytes := [];
      if pos + count > remainingLength {
        return Protocol, bytes;
      }
      bytes := if payload == null then [] else payload[pos..pos + count];
      pos := pos + count;
      rc := Success;
    }

    /** The parsing half of the PUBLISH handler. It accepts exactly the packets that decode,
        and yields what they decode to. */
    method HandlePublish() returns (rc: Code, message: Option<Publish>)
      requires Readable() && pos == 0
      modifies this`pos
      ensures Readable() && Body() == old(Body())
      ensures message == DecodePublish(Raw(command, Body()))
      ensures rc == if message.None? then Protocol else Success
    {
      ghost var raw := Raw(command, Body());
      var header := command;
      var dup, qos, retain := header / 8 % 2 == 1, header / 2 % 4, header % 2 == 1;
      message := None;
      assert Left() == Body();
      var bytes: seq<byte>;
      rc, bytes := ReadString();
      if rc != Success {
        return;
      }
      var topic := CString(bytes);
      if |topic| == 0 {
        return Protocol, None;
      }
      var mid, content;
      rc, mid, content := ReadIdAndPayload(qos);
      if rc != Success {
        return;
      }
      if qos == 3 {
        return Protocol, None;
      }
      return Success, Some(Publish(dup, qos, retain, topic, mid, content));
    }

    /** The second half of a PUBLISH: the packet id, if there is one, and the payload. */
    method ReadIdAndPayload(qos: int) returns (rc: Code, mid: uint16, content: seq<byte>)
      requires Readable()
      modifies this`pos
      ensures Readable() && Body() == old(Body())
      ensures match ReadId(qos, old(Left()))
              case None => rc == Protocol
              case Some((w, rest)) => rc == Success && mid == w && content == rest
    {
      mid, content := 0, [];
      if qos > 0 {
        rc, mid := ReadUint16();
        if rc != Success {
          return;
        }
      }
      var payloadLength: int := remainingLength - pos;
      ghost var left := Left();
      assert |left| == payloadLength && left[..payloadLength] == left;
      if payloadLength != 0 {
        rc, content := ReadBytes(payloadLength);
        if rc != Success {
          return;
        }
      }
      rc := Success;
    }

    /** The SUBACK reader: the packet id and one granted QoS for each byte behind it. */
    method HandleSuback() returns (rc: Code, id: uint16, granted: array<byte>)
      requires Readable() && pos == 0
      modifies this`pos
      ensures Readable() && Body() == old(Body()) && fresh(granted)
      ensures rc == if |Body()| < 2 then Protocol else Success
      ensures rc == Success ==> Uint16(id) + granted[..] == Body()
    {
      granted := new byte[0];
      ghost var body := Body();
      assert Left() == body;
      rc, id := ReadUint16();
      if rc != Success {
        return;
      }
      ghost var all := Left();
      assert Uint16(id) + all == body;
      var count := remainingLength - pos;
      granted := new byte[count];
      FillGranted(granted);
      assert granted[..] == all;
    }

    /** The loop of the SUBACK reader. */
    method FillGranted(granted: array<byte>)
      requires Readable() && granted.Length == |Left()| && granted != payload
      modifies this`pos, granted
      ensures Readable() && Body() == old(Body()) && granted[..] == old(Left())
    {
      ghost var from: int := pos;
      var i: nat := 0;
      while pos < remainingLength
        invariant Readable() && pos == from + i
        invariant granted[..i] == old(Left())[..i]
        decreases remainingLength - pos
      {
        var rc, qos := ReadByte();
        assert qos == old(Left())[i];
        granted[i] := qos;
        i := i + 1;
      }
    }
  }

  // ---------------------------------------------------------------- the writers

  /** What a finished packet holds. */
  ghost predicate Holds(p: Packet, raw: Raw)
    reads p, p.payload
  {
    && p.payload != null && p.payload.Length == p.packetLength && p.pos == p.packetLength
    && p.payload[..] == EncodeRaw(raw)
  }

  /** Builds a PUBLISH. It fails exactly when the remaining length exceeds four digits; the
      bounds are those mosquitto_publish has checked. */
  method BuildPublish(m: Publish) returns (rc: Code, packet: Packet?)
    requires 0 < |m.topic| <= 65535 && |m.payload| <= MAX_REMAINING
    ensures rc == if PublishLength(m) > MAX_REMAINING then PayloadSize else Success
    ensures rc == Success ==>
              && packet != null && fresh(packet) && fresh(packet.payload)
              && packet.mid == m.mid && packet.command == PublishHeader(m) && packet.next == null
              && Holds(packet, PublishRaw(m))
  {
    var packetLength := 2 + |m.topic| + |m.payload|;
    if m.qos > 0 {
      packetLength := packetLength + 2;
    }
    PublishBodySize(m);
    packet := new Packet(PublishHeader(m), m.mid, packetLength);
    rc := packet.Alloc();
    if rc != Success {
      return rc, null;
    }
    packet.WritePublishBody(m);
    assert packet.payload[..] == packet.Written();
  }

  /** Builds a CONNECT. The buffer is never overrun, and it is filled to the last byte exactly
      when every string fits its 16-bit length prefix. */
  method BuildConnect(c: Connect) returns (rc: Code, packet: Packet?)
    requires ConnectLength(c) < 0x8000_0000
    ensures rc == if ConnectLength(c) > MAX_REMAINING then PayloadSize else Success
    ensures rc == Success ==>
              && packet != null && fresh(packet) && fresh(packet.payload)
              && packet.command == CONNECT && packet.mid == 0 && packet.next == null && packet.Writable()
              && packet.remainingLength == ConnectLength(c)
              && packet.Written() == [CONNECT] + EncodeLength(ConnectLength(c)) + ConnectBody(c)
              && (packet.pos == packet.packetLength <==> AllShort(c))
              && (AllShort(c) ==> Holds(packet, Raw(CONNECT, ConnectBody(c))))
  {
    ConnectFills(c);
    packet := new Packet(CONNECT, 0, ConnectLength(c));
    rc := packet.Alloc();
    if rc != Success {
      return rc, null;
    }
    packet.WriteConnectBody(c);
    if AllShort(c) {
      assert packet.payload[..] == packet.Written();
    }
  }

  /** PUBACK, PUBREC, PUBREL and PUBCOMP: a packet id is all there is. */
  method BuildCommandWithMid(command: byte, mid: uint16) returns (packet: Packet)
    ensures fresh(packet) && fresh(packet.payload)
    ensures packet.mid == 0 && packet.command == command && packet.next == null
    ensures packet.payload != null && packet.payload.Length == packet.packetLength
    ensures packet.payload[..] == EncodeRaw(Raw(command, Uint16(mid)))
  {
    packet := new Packet(command, 0, 2);
    var rc := packet.Alloc();
    ghost var head := packet.Written();
    packet.payload[packet.pos as int + 0] := mid / 256;
    packet.payload[packet.pos as int + 1] := mid % 256;
    assert packet.Written() == head;
    assert packet.payload[..] == head + Uint16(mid);
  }

  /** DISCONNECT, PINGREQ and PINGRESP have no body. */
  method BuildSimpleCommand(command: byte) returns (packet: Packet)
    ensures fresh(packet) && fresh(packet.payload)
    ensures packet.mid == 0 && packet.command == command && packet.next == null
    ensures packet.payload != null && packet.payload.Length == packet.packetLength
    ensures packet.payload[..] == EncodeRaw(Raw(command, []))
  {
    packet := new Packet(command, 0, 0);
    var rc := packet.Alloc();
    assert packet.payload[..] == packet.Written();
  }
}
