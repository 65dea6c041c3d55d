/** The resumable packet reader of net_mosq.c. It may run out of bytes after any byte; what it
    has so far stays in the fields of `inPacket`, and the next call goes on from there.

    The network is a script: each read is granted some number of bytes, or would block, or
    fails. Every result below holds for all scripts. */
module PacketReader {
  import opened Codec
  import opened PacketBuffer
  import opened ReadSteps
  import opened Wire

  /** What the next network read will do. At most the bytes asked for are given. */
  datatype Grant = Bytes(count: nat) | WouldBlock | EndOfFile | Reset | Failed

  /** The next read takes nothing. A script that has come to its end blocks for good. */
  predicate TakesNothing(grants: seq<Grant>, incoming: seq<byte>) {
    grants == [] || !grants[0].Bytes? || grants[0].count == 0 || incoming == []
  }

  /** And that is an error. */
  predicate Breaks(grants: seq<Grant>) {
    grants != [] && (grants[0].EndOfFile? || grants[0].Reset? || grants[0].Failed?)
  }

  /** What a packet handler returns, and whether the last write it made would have blocked. */
  datatype Verdict = Verdict(rc: Code, again: bool)

  /** The packet types the client has a handler for. */
  predicate KnownCommand(command: byte) {
    var kind := command / 16;
    2 <= kind <= 7 || kind == 9 || 11 <= kind <= 13
  }

  /** The messages the PUBLISH handler finds in a sequence of packets. */
  ghost function MessagesOf(ps: seq<Raw>): seq<Publish> {
    if ps == [] then []
    else MessagesOf(ps[..|ps| - 1]) + MessageOf(ps[|ps| - 1])
  }

  ghost function MessageOf(p: Raw): seq<Publish> {
    if p.command / 16 == PUBLISH / 16 && DecodePublish(p).Some? then [DecodePublish(p).value] else []
  }

  lemma MessagesSnoc(ps: seq<Raw>, p: Raw)
    ensures MessagesOf(ps + [p]) == MessagesOf(ps) + MessageOf(p)
  {
    assert (ps + [p])[..|ps|] == ps;
  }

  /** What one network read adds to what was seen. */
  lemma SeenByte(seen: seq<Item>, b: byte)
    ensures After(seen + [Byte(b)]) == Feed(After(seen), Byte(b))
    ensures BytesOf(seen + [Byte(b)]) == BytesOf(seen) + [b]
  {
    AfterSnoc(seen, Byte(b));
    BytesSnoc(seen, Byte(b));
  }

  lemma SeenShort(seen: seq<Item>)
    ensures After(seen + [Short]) == Feed(After(seen), Short) && BytesOf(seen + [Short]) == BytesOf(seen)
  {
    AfterSnoc(seen, Short);
    BytesSnoc(seen, Short);
  }

  lemma SeenBody(seen: seq<Item>, c: Progress, bytes: seq<byte>)
    requires After(seen) == c && c.asked && c.count > 0 && !c.refused && |c.body| + |bytes| <= c.length && bytes != []
    ensures After(seen + Items(bytes)) == Settle(c.(body := c.body + bytes))
  {
    AfterBody(seen, bytes);
  }

  class Reader {
    const inPacket: Packet
    var sockOpen: bool
    var connectPending: bool
    /** mosquitto_disconnect was called. */
    var disconnecting: bool
    /** Set when the last network call would have blocked (errno EAGAIN). */
    var again: bool

    /** Bytes the peer has sent and the reader has not taken, and how reads will go. */
    var incoming: seq<byte>
    var grants: seq<Grant>
    /** The packet handlers' results for the packets to come. */
    var verdicts: seq<Verdict>

    /** The last read took nothing, and it failed. */
    ghost var dry: bool
    ghost var broken: bool
    /** What the reads have brought since the connection was made. */
    ghost var seen: seq<Item>
    /** The packets given to the packet handler, and the messages its PUBLISH case found. */
    ghost var handled: seq<Raw>
    ghost var messages: seq<Publish>

    /** The bytes taken since the connection was made. */
    ghost function Consumed(): seq<byte>
      reads this
    {
      BytesOf(seen)
    }

    /** The shape of the fields while the remaining length is not complete. */
    ghost predicate InHeader()
      reads this, inPacket
    {
      var p := inPacket;
      && -4 <= p.remainingCount <= 0
      && p.remainingMult == Pow128(-p.remainingCount as int)
      && p.remainingLength < Pow128(-p.remainingCount as int)
      && p.payload == null && p.toProcess == 0 && p.pos == 0
    }

    /** The shape of the fields once it is. */
    ghost predicate InBody()
      reads this, inPacket
    {
      var p := inPacket;
      && 1 <= p.remainingCount <= 4 && p.remainingLength <= MAX_REMAINING
      && p.pos + p.toProcess == p.remainingLength
      && (if p.payload == null then p.remainingLength == 0 else p.payload.Length == p.remainingLength)
    }

    /** The shape between two calls. */
    ghost predicate Resumable()
      reads this, inPacket
    {
      InHeader() || (InBody() && inPacket.toProcess > 0)
    }

    /** The fields as a state of the step function. */
    ghost function Now(asked: bool): Progress
      requires inPacket.payload != null ==> inPacket.pos <= inPacket.payload.Length
      reads this, inPacket, inPacket.payload
    {
      var p := inPacket;
      Progress(p.command, asked, p.remainingCount as int, p.remainingLength,
               if p.payload == null then [] else p.payload[..p.pos], handled, false)
    }

    /** Between two calls the fields are what the step function says. */
    ghost predicate Valid()
      reads this, inPacket, inPacket.payload
    {
      && handled == After(seen).handled && messages == MessagesOf(handled)
      && (sockOpen ==> Resumable() && After(seen) == Now(inPacket.command != 0))
    }

    constructor (incoming: seq<byte>, grants: seq<Grant>, verdicts: seq<Verdict>)
      ensures Valid() && Consumed() == [] && handled == [] && !sockOpen
      ensures this.incoming == incoming && this.grants == grants && this.verdicts == verdicts
      ensures fresh(inPacket)
    {
      inPacket := new Packet(0, 0, 0);
      sockOpen, connectPending, disconnecting, again := false, false, false, false;
      dry, broken := false, false;
      this.incoming, this.grants, this.verdicts := incoming, grants, verdicts;
      seen, handled, messages := [], [], [];
    }

    /** net_mosq.c, _mosquitto_packet_cleanup, on the packet being read. */
    method PacketCleanup()
      modifies inPacket
      ensures InHeader() && Now(false) == Fresh(handled)
    {
      inPacket.command := 0;
      inPacket.remainingCount := 0;
      inPacket.remainingMult := 1;
      inPacket.remainingLength := 0;
      inPacket.payload := null;
      inPacket.toProcess := 0;
      inPacket.pos := 0;
    }

    /** A new connection: what was left of the old stream is gone. */
    method Connect(incoming: seq<byte>, pendingConnect: bool)
      modifies this, inPacket
      ensures Valid() && sockOpen && Consumed() == [] && handled == [] && this.incoming == incoming
    {
      PacketCleanup();
      sockOpen, connectPending, disconnecting, again := true, pendingConnect, false, false;
      this.incoming := incoming;
      seen, handled, messages := [], [], [];
    }

    /** What the network does next. */
    method NextRead(count: nat) returns (length: int, bytes: seq<byte>, error: Code)
      requires count > 0
      modifies this`incoming, this`grants, this`again, this`dry, this`broken
      ensures length > 0 ==> |bytes| == length <= count
      ensures length <= 0 ==> bytes == []
      ensures again <==> length < 0 && error == Success
      ensures length == 0 ==> error != Success
      ensures old(incoming) == bytes + incoming
      ensures error == Success || error == ConnLost || error == Errno
      ensures dry == TakesNothing(old(grants), old(incoming)) && broken == Breaks(old(grants))
      ensures (length <= 0 <==> dry) && (error == Success <==> !broken)
    {
      dry, broken := TakesNothing(grants, incoming), Breaks(grants);
      var grant := if grants == [] then WouldBlock else grants[0];
      grants := if grants == [] then [] else grants[1..];
      again := false;
      bytes, error := [], Success;
      match grant {
        case Bytes(n) =>
          length := if n < count then n else count;
          if length > |incoming| {
            length := |incoming|;
          }
          if length == 0 {
            length, again := -1, true;
          } else {
            bytes := incoming[..length];
            incoming := incoming[length..];
          }
        case WouldBlock =>
          length, again := -1, true;
        case EndOfFile =>
          length, error := 0, ConnLost;
        case Reset =>
          length, error := -1, ConnLost;
        case Failed =>
          length, error := -1, Errno;
      }
    }

    method NetRead(count: nat) returns (length: int, bytes: seq<byte>, error: Code)
      requires count > 0
      modifies this`incoming, this`grants, this`again, this`dry, this`broken, this`seen
      ensures length > 0 ==> |bytes| == length <= count && seen == old(seen) + Items(bytes)
      ensures length <= 0 ==> bytes == [] && seen == if again then old(seen) + [Short] else old(seen)
      ensures again <==> length < 0 && error == Success
      ensures length == 0 ==> error != Success
      ensures |incoming| == |old(incoming)| - |bytes| && Consumed() + incoming == old(Consumed() + incoming)
      ensures error == Success || error == ConnLost || error == Errno
      ensures (length <= 0 <==> dry) && (error == Success <==> !broken)
    {
      length, bytes, error := NextRead(count);
      assert (Consumed() + bytes) + incoming == Consumed() + (bytes + incoming);
      if again {
        SeenShort(seen);
        seen := seen + [Short];
      } else if length > 0 {
        BytesOfItems(seen, bytes);
        seen := seen + Items(bytes);
      }
    }

    /** A read of one byte. */
    method ReadOne() returns (length: int, b: byte, error: Code)
      modifies this`incoming, this`grants, this`again, this`dry, this`broken, this`seen
      ensures length <= 1 && Consumed() + incoming == old(Consumed() + incoming)
      ensures length == 1 ==> After(seen) == Feed(old(After(seen)), Byte(b)) && |incoming| < |old(incoming)|
      ensures length != 1 ==> After(seen) == if again then Feed(old(After(seen)), Short) else old(After(seen))
      ensures old(seen) <= seen && (again <==> length < 0 && error == Success)
      ensures length == 0 ==> error != Success
      ensures error == Success || error == ConnLost || error == Errno
      ensures (length <= 0 <==> dry) && (error == Success <==> !broken)
    {
      ghost var before := seen;
      var bytes;
      length, bytes, error := NetRead(1);
      b := if length == 1 then bytes[0] else 0;
      if length == 1 {
        assert Items(bytes) == [Byte(b)];
        SeenByte(before, b);
      } else {
        SeenShort(before);
      }
    }

    /** Reads the command byte. */
    method ReadCommand() returns (rc: Code, stop: bool)
      requires Resumable() && inPacket.command == 0 && After(seen) == Now(false)
      modifies this`incoming, this`grants, this`again, this`dry, this`broken, this`seen, inPacket`command
      ensures Resumable() && old(seen) <= seen && Consumed() + incoming == old(Consumed() + incoming)
      ensures !stop ==> After(seen) == Now(true)
      ensures stop ==> rc != Protocol && After(seen) == Now(false) && inPacket.command == 0
      ensures stop && rc == Success ==> again
      ensures stop ==> dry && (rc == Success <==> !broken)
    {
      var length, b;
      length, b, rc := ReadOne();
      stop := length != 1;
      if length == 1 {
        inPacket.command := b;
      }
    }

    /** The length is complete but `remainingCount` is still negative. */
    ghost predicate LengthRead()
      reads this, inPacket, inPacket.payload
    {
      var p := inPacket;
      && -4 <= p.remainingCount < 0 && p.remainingLength <= MAX_REMAINING
      && p.payload == null && p.toProcess == 0 && p.pos == 0
      && After(seen) == Settle(Now(true).(count := -p.remainingCount as int))
    }

    /** Counts one more digit in. A fifth one is refused. */
    method TakeDigit(b: byte) returns (rc: Code)
      requires InHeader() && After(seen) == Feed(Now(true), Byte(b))
      modifies inPacket`remainingCount, inPacket`remainingLength, inPacket`remainingMult
      ensures rc == if old(inPacket.remainingCount) == -4 then Protocol else Success
      ensures rc == Success && b >= 128 ==> InHeader() && After(seen) == Now(true)
      ensures rc == Success && b < 128 ==> LengthRead()
      ensures rc == Protocol ==> After(seen) == Refused(handled)
    {
      var p := inPacket;
      p.remainingCount := p.remainingCount - 1;
      if p.remainingCount < -4 {
        return Protocol;
      }
      var used: nat := -p.remainingCount as int;
      assert p.remainingMult == Pow128(used - 1);
      DigitFits(b % 128, p.remainingMult, p.remainingLength);
      Powers();
      PowMonotone(used, 4);
      p.remainingLength := p.remainingLength + b % 128 * p.remainingMult;
      p.remainingMult := p.remainingMult * 128;
      rc := Success;
    }

    /** Reads digits of the remaining length until the last one, a shortage or an error. */
    method ReadDigits() returns (rc: Code, stop: bool)
      requires InHeader() && After(seen) == Now(true)
      modifies this`incoming, this`grants, this`again, this`dry, this`broken, this`seen
      modifies inPacket`remainingCount, inPacket`remainingLength, inPacket`remainingMult
      ensures old(seen) <= seen && Consumed() + incoming == old(Consumed() + incoming)
      ensures !stop ==> rc == Success && LengthRead()
      ensures stop ==> After(seen).handled == handled
      ensures stop && rc == Success ==> again && InHeader() && After(seen) == Now(inPacket.command != 0)
      ensures stop && rc == Protocol ==> After(seen).refused
      ensures stop && rc != Protocol ==> dry && (rc == Success <==> !broken)
    {
      while true
        invariant InHeader() && After(seen) == Now(true)
        invariant old(seen) <= seen && Consumed() + incoming == old(Consumed() + incoming)
        decreases |incoming|
      {
        var length, b;
        length, b, rc := ReadOne();
        if length != 1 {
          return rc, true;
        }
        rc := TakeDigit(b);
        if rc != Success {
          return rc, true;
        }
        if b < 128 {
          return rc, false;
        }
      }
    }

    method ReadLength() returns (rc: Code, stop: bool)
      requires InHeader() && After(seen) == Now(true)
      modifies this`incoming, this`grants, this`again, this`dry, this`broken, this`seen, inPacket
      ensures old(seen) <= seen && Consumed() + incoming == old(Consumed() + incoming)
      ensures inPacket.payload == null || fresh(inPacket.payload)
      ensures !stop ==> rc == Success && InBody() && After(seen) == Settle(Now(true))
      ensures stop ==> After(seen).handled == handled
      ensures stop && rc == Success ==> again && InHeader() && After(seen) == Now(inPacket.command != 0)
      ensures stop && rc == Protocol ==> After(seen).refused
      ensures stop && rc != Protocol ==> dry && (rc == Success <==> !broken)
    {
      rc, stop := ReadDigits();
      if stop {
        return;
      }
      inPacket.remainingCount := inPacket.remainingCount * -1;
      if inPacket.remainingLength > 0 {
        inPacket.payload := new byte[inPacket.remainingLength];
        inPacket.toProcess := inPacket.remainingLength;
      }
      assert inPacket.payload != null ==> inPacket.payload[..inPacket.pos] == [];
    }

    /** Copies bytes behind those of the body that are already there. */
    method CopyIn(bytes: seq<byte>)
      requires InBody() && 0 < |bytes| <= inPacket.toProcess
      modifies inPacket`toProcess, inPacket`pos, inPacket.payload
      ensures InBody() && inPacket.toProcess == old(inPacket.toProcess) - |bytes|
      ensures Now(true) == old(Now(true)).(body := old(Now(true)).body + bytes)
    {
      var p := inPacket;
      forall i | 0 <= i < |bytes| {
        p.payload[p.pos as int + i] := bytes[i];
      }
      p.toProcess := p.toProcess - |bytes|;
      p.pos := p.pos + |bytes|;
    }

    /** Fresh bytes have come: they go into the buffer. */
    method TakeBytes(bytes: seq<byte>)
      requires InBody() && 0 < |bytes| <= inPacket.toProcess
      requires After(seen) == Settle(Now(true).(body := Now(true).body + bytes))
      modifies inPacket`toProcess, inPacket`pos, inPacket.payload
      ensures InBody() && inPacket.toProcess == old(inPacket.toProcess) - |bytes| && After(seen) == Settle(Now(true))
    {
      CopyIn(bytes);
    }

    /** One read of body bytes. */
    method ReadChunk() returns (rc: Code, stop: bool)
      requires InBody() && inPacket.toProcess > 0 && After(seen) == Settle(Now(true))
      modifies this`incoming, this`grants, this`again, this`dry, this`broken, this`seen
      modifies inPacket`toProcess, inPacket`pos, inPacket.payload
      ensures old(seen) <= seen && Consumed() + incoming == old(Consumed() + incoming)
      ensures InBody()
      ensures !stop ==> inPacket.toProcess < old(inPacket.toProcess) && After(seen) == Settle(Now(true))
      ensures stop ==> inPacket.toProcess > 0 && rc != Protocol && After(seen).handled == handled
      ensures stop && rc == Success ==> again && After(seen) == Now(inPacket.command != 0)
      ensures stop ==> dry && (rc == Success <==> !broken)
    {
      ghost var (before, c) := (seen, Now(true));
      assert After(before) == c;
      var length, bytes;
      length, bytes, rc := NetRead(inPacket.toProcess);
      stop := length <= 0;
      assert Now(true) == c;
      if stop {
        SeenShort(before);
        rc := if length == 0 then Errno else rc;
      } else {
        SeenBody(before, c, bytes);
        TakeBytes(bytes);
      }
    }

    /** Reads the rest of the body until it is complete, or a shortage or an error. */
    method ReadBody() returns (rc: Code, stop: bool)
      requires InBody() && After(seen) == Settle(Now(true))
      modifies this`incoming, this`grants, this`again, this`dry, this`broken, this`seen
      modifies inPacket`toProcess, inPacket`pos, inPacket.payload
      ensures old(seen) <= seen && Consumed() + incoming == old(Consumed() + incoming)
      ensures InBody()
      ensures !stop ==> rc == Success && inPacket.toProcess == 0 && After(seen) == Settle(Now(true))
      ensures stop ==> inPacket.toProcess > 0 && rc != Protocol && After(seen).handled == handled
      ensures stop && rc == Success ==> again && After(seen) == Now(inPacket.command != 0)
      ensures stop ==> dry && (rc == Success <==> !broken)
    {
      while inPacket.toProcess > 0
        invariant InBody() && After(seen) == Settle(Now(true))
        invariant old(seen) <= seen && Consumed() + incoming == old(Consumed() + incoming)
        decreases inPacket.toProcess
      {
        rc, stop := ReadChunk();
        if stop {
          return;
        }
      }
      rc, stop := Success, false;
    }

    /** read_handle.c, _mosquitto_packet_handle: gives the complete packet to the handler for
        its type. The PUBLISH case reads the message out of the packet; what the handlers
        return is the script's. */
    method PacketHandle() returns (rc: Code, ghost found: seq<Publish>)
      requires inPacket.Readable() && inPacket.pos == 0
      modifies this`verdicts, this`again, inPacket`pos
      ensures inPacket.Readable() && inPacket.Body() == old(inPacket.Body())
      ensures found == MessageOf(Raw(inPacket.command, inPacket.Body()))
      ensures !KnownCommand(inPacket.command) ==> rc == Protocol
    {
      var p := inPacket;
      found := [];
      var verdict := if verdicts == [] then Verdict(Success, again) else verdicts[0];
      verdicts := if verdicts == [] then [] else verdicts[1..];
      rc, again := verdict.rc, verdict.again;
      if p.command / 16 == PUBLISH / 16 {
        var parsed, message := p.HandlePublish();
        if message.Some? {
          found := [message.value];
        } else {
          rc := parsed;
        }
      } else if !KnownCommand(p.command) {
        rc := Protocol;
      }
    }

    method HandOver(ghost raw: Raw) returns (rc: Code, ghost found: seq<Publish>)
      requires InBody() && inPacket.toProcess == 0 && raw == Raw(inPacket.command, Now(true).body)
      modifies this`verdicts, this`again, inPacket`pos
      ensures found == MessageOf(raw) && (!KnownCommand(raw.command) ==> rc == Protocol)
    {
      inPacket.pos := 0;
      assert inPacket.Body() == raw.body;
      rc, found := PacketHandle();
    }

    /** The complete packet is handled, and the next starts afresh. */
    method FinishPacket() returns (rc: Code)
      requires InBody() && inPacket.toProcess == 0 && After(seen) == Settle(Now(true))
      requires messages == MessagesOf(handled)
      modifies this`handled, this`messages, this`verdicts, this`again, inPacket
      ensures InHeader() && inPacket.command == 0 && After(seen) == Now(false)
      ensures messages == MessagesOf(handled) && inPacket.payload == null
      ensures |handled| == |old(handled)| + 1 && old(handled) <= handled
      ensures !KnownCommand(handled[|old(handled)|].command) ==> rc == Protocol
    {
      ghost var raw := Raw(inPacket.command, Now(true).body);
      assert After(seen) == Fresh(handled + [raw]);
      ghost var found;
      rc, found := HandOver(raw);
      MessagesSnoc(handled, raw);
      messages, handled := messages + found, handled + [raw];
      PacketCleanup();
    }

    /** Everything up to the packet handler: command, length and body. */
    method Fill() returns (rc: Code, stop: bool)
      requires Resumable() && After(seen) == Now(inPacket.command != 0)
      modifies this`incoming, this`grants, this`again, this`dry, this`broken, this`seen, inPacket, inPacket.payload
      ensures old(seen) <= seen && Consumed() + incoming == old(Consumed() + incoming)
      ensures inPacket.payload == old(inPacket.payload) || inPacket.payload == null || fresh(inPacket.payload)
      ensures stop ==> After(seen).handled == handled
      ensures stop && rc == Success ==> again && Resumable() && After(seen) == Now(inPacket.command != 0)
      ensures stop && rc == Protocol ==> After(seen).refused
      ensures !stop ==> rc == Success && InBody() && inPacket.toProcess == 0 && After(seen) == Settle(Now(true))
      ensures stop && rc != Protocol ==> dry && (rc == Success <==> !broken)
    {
      if inPacket.command == 0 {
        rc, stop := ReadCommand();
        if stop {
          return;
        }
      }
      if inPacket.remainingCount <= 0 {
        rc, stop := ReadLength();
        if stop {
          return;
        }
      }
      rc, stop := ReadBody();
    }

    /** One call of the reader: it goes on where the last call stopped, hands over at most one
        packet, and never loses or repeats a byte. As long as it succeeds its fields are those
        of the step function, so they are determined by the bytes and the shortages seen. */
    method PacketRead() returns (rc: Code)
      requires Valid()
      modifies this, inPacket, inPacket.payload
      ensures handled == After(seen).handled && messages == MessagesOf(handled) && sockOpen == old(sockOpen)
      ensures rc == Success ==> Valid()
      ensures old(seen) <= seen && Consumed() + incoming == old(Consumed() + incoming)
      ensures old(handled) <= handled && |handled| <= |old(handled)| + 1
      ensures rc == Protocol && handled == old(handled) ==> After(seen).refused
      ensures !old(sockOpen) ==> rc == NoConn && seen == old(seen)
      ensures inPacket.payload == old(inPacket.payload) || inPacket.payload == null || fresh(inPacket.payload)
      ensures connectPending == old(connectPending) && disconnecting == old(disconnecting)
      ensures !old(sockOpen) ==> handled == old(handled)
      ensures rc == Success && !connectPending ==> again || |handled| == |old(handled)| + 1
      ensures old(sockOpen) && !connectPending && handled == old(handled) && rc != Protocol ==>
                dry && (rc == Success <==> !broken)
    {
      if !sockOpen {
        return NoConn;
      }
      if connectPending {
        return Success;
      }
      var stop;
      rc, stop := Fill();
      if stop {
        return;
      }
      rc := FinishPacket();
    }

    /** mosquitto.c, _mosquitto_loop_rc_handle: an error closes the socket; while the client is
        disconnecting it counts as a success. */
    method HandleError(rc: Code) returns (result: Code)
      requires handled == After(seen).handled && messages == MessagesOf(handled) && (rc == Success ==> Valid())
      modifies this`sockOpen
      ensures Valid() && sockOpen == (old(sockOpen) && rc == Success)
      ensures result == if disconnecting then Success else rc
    {
      result := rc;
      if rc != Success {
        sockOpen := false;
        if disconnecting {
          result := Success;
        }
      }
    }

    /** mosquitto.c, mosquitto_loop_read: reads as many packets as there are messages in flight,
        but at least one, and less only when the last network call would have blocked, or on an
        error, which closes the socket and is returned unless the client is disconnecting. */
    method LoopRead(maxPackets: int, outQueueLen: nat, inQueueLen: nat) returns (rc: Code)
      requires Valid()
      modifies this, inPacket, inPacket.payload
      ensures Valid() && disconnecting == old(disconnecting)
      ensures old(seen) <= seen && Consumed() + incoming == old(Consumed() + incoming)
      ensures var n := if maxPackets < 1 then 0
                       else if outQueueLen + inQueueLen < 1 then 1 else outQueueLen + inQueueLen;
              && old(handled) <= handled && |handled| <= |old(handled)| + n
              && (old(sockOpen) && sockOpen && rc == Success && !connectPending && !again ==>
                    |handled| == |old(handled)| + n)
      ensures maxPackets < 1 ==> rc == Inval && seen == old(seen) && sockOpen == old(sockOpen)
      ensures maxPackets >= 1 ==> if disconnecting then rc == Success else sockOpen == (old(sockOpen) && rc == Success)
      ensures !old(sockOpen) ==> !sockOpen && seen == old(seen) && handled == old(handled)
    {
      if maxPackets < 1 {
        return Inval;
      }
      var n := outQueueLen + inQueueLen;
      if n < 1 {
        n := 1;
      }
      rc := Success;
      for i := 0 to n
        invariant Valid() && rc == Success && (i > 0 ==> sockOpen) && sockOpen == old(sockOpen)
        invariant disconnecting == old(disconnecting) && (i == 0 ==> seen == old(seen) && handled == old(handled))
        invariant old(seen) <= seen && Consumed() + incoming == old(Consumed() + incoming)
        invariant old(handled) <= handled && |handled| <= |old(handled)| + i
        invariant !connectPending ==> |handled| == |old(handled)| + i
        invariant inPacket.payload == old(inPacket.payload) || inPacket.payload == null || fresh(inPacket.payload)
      {
        ghost var before := handled;
        rc := PacketRead();
        assert old(handled) <= before <= handled;
        if rc != Success || again {
          rc := HandleError(rc);
          return;
        }
      }
    }

    /** The reader refines the one-shot parser: on every stream without zero commands, and
        however the reads fell short, the packets handled are those of parsing the consumed
        bytes at once, and the saved fields are determined by what the parse leaves over. */
    lemma Refines()
      requires Valid() && sockOpen && NoZero(Consumed())
      ensures var s := ParseStream(Consumed());
              && !s.malformed && s.packets == handled && Now(inPacket.command != 0) == Holding(s.rest, handled)
      ensures messages == MessagesOf(handled)
    {
      FollowsParser(seen);
      var s := ParseStream(Consumed());
      RestNeedsMore(Consumed());
      if s.rest != [] { ParseLengthBounds(s.rest[1..]); }
    }
  }
}
