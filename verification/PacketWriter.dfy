/** The output side of net_mosq.c: a linked list of packets waiting behind the packet that is
    being written, partial writes, the drain of _mosquitto_reconnect, and the end of the
    stream at DISCONNECT. The network is a script, as on the reading side. */
module PacketWriter {
  import opened Codec
  import opened Wire
  import opened PacketBuffer

  /** What the next network write will do. At most the bytes offered are taken. */
  datatype Grant = Bytes(count: nat) | WouldBlock | Reset | Failed

  /** The next write takes nothing. A script that has come to its end blocks for good. */
  predicate GivesNothing(grants: seq<Grant>) {
    grants == [] || !grants[0].Bytes? || grants[0].count == 0
  }

  /** What such a write makes the writer return. */
  function Outcome(grants: seq<Grant>): Code {
    if grants == [] || grants[0].WouldBlock? then Success else if grants[0].Reset? then ConnLost else Errno
  }

  function Rest(grants: seq<Grant>): seq<Grant> {
    if grants == [] then [] else grants[1..]
  }

  /** From `before` to `after` every write took something, `gained` bytes in all. */
  predicate Served(before: seq<Grant>, after: seq<Grant>, gained: int) {
    |after| <= |before| && after == before[|before| - |after|..] && |before| - |after| <= gained
  }

  /** And then came one that took nothing. */
  ghost predicate Stuck(before: seq<Grant>, after: seq<Grant>, gained: int, rc: Code) {
    exists last :: Served(before, last, gained) && GivesNothing(last) && after == Rest(last) && rc == Outcome(last)
  }

  /** Why a call of the writer ended: nothing was left to write (`idle`), or a write took
      nothing. */
  ghost predicate Ended(idle: bool, before: seq<Grant>, after: seq<Grant>, gained: int, rc: Code) {
    (idle && rc == Success && Served(before, after, gained)) || Stuck(before, after, gained, rc)
  }

  /** The writer fails only by a write that does: with ConnLost when the peer has reset the
      connection, else with Errno. A write that would block is no failure. */
  lemma FailsByAWrite(idle: bool, before: seq<Grant>, after: seq<Grant>, gained: int, rc: Code)
    requires Ended(idle, before, after, gained, rc)
    ensures rc == Success || rc == ConnLost || rc == Errno
    ensures rc == ConnLost ==> exists k :: 0 <= k < |before| && before[k].Reset?
    ensures rc == Errno ==> exists k :: 0 <= k < |before| && (before[k].Failed? || before[k] == Bytes(0))
    ensures rc == Success && !idle ==> |after| == 0 || exists k :: 0 <= k < |before| && before[k].WouldBlock?
  {
    if !(idle && rc == Success && Served(before, after, gained)) {
      var last :| Served(before, last, gained) && GivesNothing(last) && after == Rest(last) && rc == Outcome(last);
      if last != [] { assert last[0] == before[|before| - |last|]; }
    }
  }

  lemma ServedAdds(a: seq<Grant>, b: seq<Grant>, c: seq<Grant>, m: int, n: int, rc: Code)
    requires Served(a, b, m)
    ensures Served(b, c, n) ==> Served(a, c, m + n)
    ensures Stuck(b, c, n, rc) ==> Stuck(a, c, m + n, rc)
  {
    forall last | Served(b, last, n) ensures Served(a, last, m + n) {
      assert last == a[|a| - |b|..][|b| - |last|..];
    }
  }

  /** A packet as queued: its bytes, and the id reported for a PUBLISH of QoS 0. */
  datatype Queued = Queued(bytes: seq<byte>, mid: uint16)

  function Flatten(ps: seq<Queued>): seq<byte> {
    if ps == [] then [] else ps[0].bytes + Flatten(ps[1..])
  }

  lemma {:induction false} FlattenConcat(a: seq<Queued>, b: seq<Queued>)
    ensures Flatten(a + b) == Flatten(a) + Flatten(b)
  {
    if a == [] {
      assert a + b == b;
    } else {
      assert (a + b)[1..] == a[1..] + b;
      FlattenConcat(a[1..], b);
    }
  }

  lemma FlattenOne(p: Queued)
    ensures Flatten([p]) == p.bytes
  {
    assert [p][1..] == [];
  }

  predicate IsDisconnect(p: Queued) {
    p.bytes != [] && p.bytes[0] / 16 == DISCONNECT / 16
  }

  /** The mask test of the writer: type PUBLISH and QoS bits 00, DUP and RETAIN ignored. */
  predicate IsQos0Publish(p: Queued) {
    p.bytes != [] && p.bytes[0] / 16 == PUBLISH / 16 && p.bytes[0] / 2 % 4 == 0
  }

  /** The ids reported through on_publish for a sequence of written packets. */
  function Qos0Ids(ps: seq<Queued>): seq<uint16> {
    if ps == [] then []
    else
      var last := ps[|ps| - 1];
      Qos0Ids(ps[..|ps| - 1]) + if IsQos0Publish(last) then [last.mid] else []
  }

  predicate StartsWithConnect(log: seq<Queued>) {
    log != [] && log[0].bytes != [] && log[0].bytes[0] == CONNECT
  }

  /** A DISCONNECT is the last packet written, and then the socket is closed and no byte of
      another packet is written. */
  predicate EndsAtDisconnect(done: seq<Queued>, sockOpen: bool, started: nat) {
    forall k :: 0 <= k < |done| && IsDisconnect(done[k]) ==> k == |done| - 1 && !sockOpen && started == 0
  }

  /** The accounts of one connection as they should be: everything queued, the packets written
      completely, the packet in hand and how much of it is written, the packets that wait, and
      from these the bytes that should be on the wire and the ids that should be reported.
      What the sender really writes and reports is in its fields `wire` and `reported`. */
  datatype Ledger = Ledger(
    log: seq<Queued>, done: seq<Queued>, hand: seq<Queued>, started: nat, waiting: seq<Queued>,
    written: seq<byte>, published: seq<uint16>, open: bool, announced: bool)
  {
    function Queue(p: Queued): Ledger {
      this.(log := log + [p], waiting := waiting + [p])
    }

    /** The packet in hand is dropped and the first waiting one taken. */
    function Take(): Ledger {
      if waiting == [] then this.(hand := [], started := 0)
      else this.(hand := [waiting[0]], started := 0, waiting := waiting[1..])
    }

    function Write(n: nat): Ledger
      requires hand != [] && started + n <= |hand[0].bytes|
    {
      this.(started := started + n, written := written + hand[0].bytes[started..started + n])
    }

    /** The packet in hand is written to its end. A DISCONNECT closes the socket with it. */
    function Finish(): Ledger
      requires hand != []
    {
      this.(done := done + [hand[0]], hand := [], started := 0,
            published := published + (if IsQos0Publish(hand[0]) then [hand[0].mid] else []),
            open := open && !IsDisconnect(hand[0]))
    }

    /** The same accounts but for some more bytes of the packet in hand. */
    predicate Continues(b: Ledger) {
      b.started <= started && this == b.(started := started, written := written)
    }

    /** What was queued is what is done, in hand and waiting; what was written is what is done
        and the front of what is in hand. */
    ghost predicate Balanced() {
      && log == done + hand + waiting
      && |hand| <= 1 && started <= |Flatten(hand)|
      && written == Flatten(done) + Flatten(hand)[..started]
      && published == Qos0Ids(done)
      && EndsAtDisconnect(done, open, started)
      && (announced ==> StartsWithConnect(log))
    }
  }

  /** Nothing is lost, repeated or reordered: the bytes written, the unsent tail of the packet
      in hand and the waiting packets are together all that was queued. The bytes of an
      announced connection start with those of its CONNECT. */
  lemma Conservation(b: Ledger)
    requires b.Balanced()
    ensures Flatten(b.log) == b.written + (Flatten(b.hand)[b.started..] + Flatten(b.waiting))
    ensures b.announced && b.written != [] ==> b.written[0] == CONNECT
  {
    FlattenConcat(b.done + b.hand, b.waiting);
    FlattenConcat(b.done, b.hand);
    Regroup(Flatten(b.done), Flatten(b.hand), b.started, Flatten(b.waiting));
    if b.announced { FirstByte(b.log); }
  }

  lemma LastBytes(b: Ledger, k: nat)
    requires b.Balanced() && k < |b.done| && IsDisconnect(b.done[k])
    ensures !b.open && b.written == Flatten(b.done[..k]) + b.done[k].bytes
  {
    assert b.done == b.done[..k] + [b.done[k]];
    FlattenConcat(b.done[..k], [b.done[k]]);
    FlattenOne(b.done[k]);
    assert Flatten(b.hand)[..b.started] == [];
  }

  lemma Regroup(d: seq<byte>, f: seq<byte>, n: nat, w: seq<byte>)
    requires n <= |f|
    ensures d + f + w == (d + f[..n]) + (f[n..] + w)
  {
    assert f == f[..n] + f[n..];
  }

  lemma FirstByte(log: seq<Queued>)
    requires StartsWithConnect(log)
    ensures Flatten(log) != [] && Flatten(log)[0] == CONNECT
  {
    assert Flatten(log) == log[0].bytes + Flatten(log[1..]);
  }

  lemma BalancedQueue(b: Ledger, p: Queued)
    requires b.Balanced()
    ensures b.Queue(p).Balanced()
  {
    assert b.log + [p] == b.done + b.hand + (b.waiting + [p]);
  }

  lemma BalancedTake(b: Ledger)
    requires b.Balanced() && b.hand == []
    ensures b.Take().Balanced()
  {
    if b.waiting != [] {
      assert b.log == b.done + [b.waiting[0]] + b.waiting[1..];
      FlattenOne(b.waiting[0]);
      assert Flatten([])[..0] == Flatten([b.waiting[0]])[..0];
    }
  }

  lemma BalancedWrite(b: Ledger, n: nat)
    requires b.Balanced() && b.open && b.hand != [] && b.started + n <= |b.hand[0].bytes|
    ensures b.Write(n).Balanced()
  {
    var bytes := b.hand[0].bytes;
    FlattenOne(b.hand[0]);
    assert b.hand == [b.hand[0]];
    assert bytes[..b.started + n] == bytes[..b.started] + bytes[b.started..b.started + n];
  }

  lemma BalancedFinish(b: Ledger)
    requires b.Balanced() && b.hand != [] && b.started == |b.hand[0].bytes| && b.open
    ensures b.Finish().Balanced()
  {
    var p := b.hand[0];
    FlattenOne(p);
    assert b.hand == [p];
    FinishedBytes(b.done, p);
    FinishedIds(b.done, p);
    assert b.log == (b.done + [p]) + [] + b.waiting;
  }

  /** The packets of a queue, waiting or in hand, are among those of an earlier one, but for
      `added`. */
  ghost predicate Among(nodes: seq<Packet>, hand: Packet?, nodes0: seq<Packet>, hand0: Packet?, added: Packet?) {
    && (forall p :: p in nodes ==> p in nodes0 || p == added)
    && (hand == null || hand == hand0 || hand in nodes0 || hand == added)
  }

  /** Nothing is queued from l0 to l, and what was written stays written. */
  ghost predicate Grew(l0: Ledger, wire0: seq<byte>, l: Ledger, wire: seq<byte>) {
    l.log == l0.log && l.announced == l0.announced && l0.done <= l.done && wire0 <= wire
  }

  lemma GrewThen(l0: Ledger, wire0: seq<byte>, l1: Ledger, wire1: seq<byte>, l2: Ledger, wire2: seq<byte>)
    requires Grew(l0, wire0, l1, wire1) && Grew(l1, wire1, l2, wire2)
    ensures Grew(l0, wire0, l2, wire2)
  {
  }

  lemma AmongThen(
      n0: seq<Packet>, h0: Packet?, n1: seq<Packet>, h1: Packet?, n2: seq<Packet>, h2: Packet?, added: Packet?)
    requires Among(n1, h1, n0, h0, added) && Among(n2, h2, n1, h1, null)
    ensures Among(n2, h2, n0, h0, added)
  {
  }

  lemma NothingLogged(b: Ledger)
    requires b.Balanced() && b.log == []
    ensures !b.announced
  {
  }

  lemma Announce(b: Ledger)
    requires b.Balanced() && StartsWithConnect(b.log)
    ensures b.(announced := true).Balanced()
  {
  }

  lemma FinishedBytes(done: seq<Queued>, p: Queued)
    ensures Flatten(done) + p.bytes == Flatten(done + [p]) + Flatten([])[..0]
  {
    FlattenOne(p);
    FlattenConcat(done, [p]);
    assert Flatten([])[..0] == [];
  }

  lemma FinishedIds(done: seq<Queued>, p: Queued)
    ensures Qos0Ids(done + [p]) == Qos0Ids(done) + if IsQos0Publish(p) then [p.mid] else []
  {
    assert (done + [p])[..|done|] == done;
  }

  class Sender {
    var currentOutPacket: Packet?
    var outPacket: Packet?
    var outPacketLast: Packet?
    var sockOpen: bool
    var connectPending: bool
    var inCallback: bool
    var threaded: bool
    var grants: seq<Grant>

    /** What went out since the last connect: the bytes the network took, and the ids
        on_publish was called with. */
    var wire: seq<byte>
    var reported: seq<uint16>

    /** The nodes behind outPacket, and the accounts since the last connect. */
    ghost var nodes: seq<Packet>
    ghost var ledger: Ledger

    /** A packet with its first `pos` bytes written. */
    static ghost predicate Carries(p: Packet, q: Queued)
      reads p, p.payload
    {
      && p.payload != null && p.payload.Length == p.packetLength == p.pos + p.toProcess
      && p.payload[..] == q.bytes && p.mid == q.mid && q.bytes != [] && p.command == q.bytes[0]
    }

    /** The pointers form the list `nodes`. When it is empty outPacketLast may be stale. */
    ghost predicate Linked()
      reads this, nodes
    {
      && outPacket == (if nodes == [] then null else nodes[0])
      && (nodes != [] ==> outPacketLast == nodes[|nodes| - 1] && nodes[|nodes| - 1].next == null)
      && (forall i, j :: 0 <= i < j < |nodes| && j == i + 1 ==> nodes[i].next == nodes[j])
      && (forall i, j :: 0 <= i < j < |nodes| ==> nodes[i] != nodes[j])
    }

    ghost predicate NodesHold()
      reads this, nodes, set p: Packet | p in nodes :: p.payload
    {
      && |ledger.waiting| == |nodes|
      && forall i :: 0 <= i < |nodes| ==> nodes[i].pos == 0 && Carries(nodes[i], ledger.waiting[i])
    }

    ghost predicate HandHolds()
      reads this, currentOutPacket, if currentOutPacket == null then null else currentOutPacket.payload
    {
      if currentOutPacket == null then ledger.hand == [] && ledger.started == 0
      else
        && |ledger.hand| == 1 && ledger.started == currentOutPacket.pos
        && Carries(currentOutPacket, ledger.hand[0]) && currentOutPacket !in nodes
    }

    /** The bytes of the current packet that are not written yet, out of its buffer. */
    ghost function Unsent(): seq<byte>
      reads this, currentOutPacket, if currentOutPacket == null then null else currentOutPacket.payload
      requires currentOutPacket != null ==>
                 currentOutPacket.payload != null && currentOutPacket.pos <= currentOutPacket.payload.Length
    {
      if currentOutPacket == null then [] else currentOutPacket.payload[currentOutPacket.pos..]
    }

    /** The bytes of a list of packets, out of their buffers. */
    static ghost function Buffers(ps: seq<Packet>): seq<byte>
      requires forall k :: 0 <= k < |ps| ==> ps[k].payload != null
      reads ps, set p: Packet | p in ps :: p.payload
    {
      if ps == [] then [] else ps[0].payload[..] + Buffers(ps[1..])
    }

    /** What went out is what the accounts say. */
    ghost predicate Recorded()
      reads this
    {
      wire == ledger.written && reported == ledger.published && sockOpen == ledger.open
    }

    /** The pointers and buffers agree with the accounts. */
    ghost predicate Agrees()
      reads this, nodes, currentOutPacket, set p: Packet | p in nodes :: p.payload
      reads if currentOutPacket == null then null else currentOutPacket.payload
    {
      Linked() && NodesHold() && HandHolds() && Recorded()
    }

    ghost predicate Valid()
      reads this, nodes, currentOutPacket, set p: Packet | p in nodes :: p.payload
      reads if currentOutPacket == null then null else currentOutPacket.payload
    {
      Agrees() && ledger.Balanced()
    }

    constructor (threaded: bool, grants: seq<Grant>)
      ensures Valid() && ledger.log == [] && !sockOpen && wire == [] && reported == []
    {
      currentOutPacket, outPacket, outPacketLast := null, null, null;
      sockOpen, connectPending, inCallback, this.threaded := false, false, false, threaded;
      this.grants := grants;
      wire, reported := [], [];
      nodes, ledger := [], Ledger([], [], [], 0, [], [], [], false, false);
    }

    /** Links a prepared packet behind the last one. */
    method LinkLast(packet: Packet, ghost p: Queued)
      requires Linked() && NodesHold() && packet !in nodes && packet.next == null
      requires packet.pos == 0 && Carries(packet, p)
      modifies this`outPacket, this`outPacketLast, this`nodes, this`ledger, nodes
      ensures Linked() && NodesHold() && nodes == old(nodes) + [packet]
      ensures ledger == old(ledger).Queue(p)
    {
      if outPacket != null {
        outPacketLast.next := packet;
      } else {
        outPacket := packet;
      }
      outPacketLast := packet;
      nodes, ledger := nodes + [packet], ledger.Queue(p);
    }

    /** Puts a packet at the end of the queue. */
    method Append(packet: Packet)
      requires Agrees() && packet !in nodes && packet != currentOutPacket
      requires packet.payload != null && packet.payload.Length == packet.packetLength > 0
      requires packet.command == packet.payload[0]
      modifies this`outPacket, this`outPacketLast, this`nodes, this`ledger, packet, nodes
      ensures Agrees() && nodes == old(nodes) + [packet]
      ensures packet.payload == old(packet.payload) && packet.mid == old(packet.mid)
      ensures ledger == old(ledger).Queue(old(Queued(packet.payload[..], packet.mid)))
    {
      ghost var p := Queued(packet.payload[..], packet.mid);
      Prepare(packet, p);
      LinkLast(packet, p);
    }

    static method Prepare(packet: Packet, ghost p: Queued)
      requires packet.payload != null && packet.payload.Length == packet.packetLength > 0
      requires p == Queued(packet.payload[..], packet.mid) && packet.command == packet.payload[0]
      modifies packet`pos, packet`toProcess, packet`next
      ensures packet.pos == 0 && packet.next == null && Carries(packet, p)
    {
      packet.pos := 0;
      packet.toProcess := packet.packetLength;
      packet.next := null;
    }

    /** The first waiting packet becomes the current one. */
    method Advance()
      requires Linked() && NodesHold() && Recorded()
      modifies this`currentOutPacket, this`outPacket, this`outPacketLast, this`nodes, this`ledger
      ensures Agrees() && ledger == old(ledger).Take()
      ensures old(nodes) == [] ==> currentOutPacket == null && nodes == []
      ensures old(nodes) != [] ==> currentOutPacket == old(nodes[0]) && nodes == old(nodes[1..])
    {
      currentOutPacket := outPacket;
      if outPacket != null {
        outPacket := outPacket.next;
        if outPacket == null {
          outPacketLast := null;
        }
        nodes := nodes[1..];
      }
      ledger := ledger.Take();
    }

    /** net_mosq.c, _mosquitto_net_write: offers bytes to the network, which takes some of them
        from the front. */
    method NetWrite(bytes: seq<byte>) returns (length: int, error: Code)
      requires bytes != []
      modifies this`grants, this`wire
      ensures length <= |bytes| && wire == old(wire) + if length > 0 then bytes[..length] else []
      ensures grants == Rest(old(grants)) && (length <= 0 <==> GivesNothing(old(grants)))
      ensures error == if length > 0 then Success else Outcome(old(grants))
    {
      var grant := if grants == [] then WouldBlock else grants[0];
      grants := if grants == [] then [] else grants[1..];
      error := Success;
      match grant {
        case Bytes(n) =>
          length := if n < |bytes| then n else |bytes|;
          if length == 0 { error := Errno; }
        case WouldBlock => length := -1;
        case Reset => length, error := -1, ConnLost;
        case Failed => length, error := -1, Errno;
      }
      if length > 0 {
        wire := wire + bytes[..length];
      }
    }

    /** One write of what is left of the current packet's buffer. */
    method WriteChunk() returns (rc: Code, stop: bool)
      requires HandHolds() && Recorded() && ledger.Balanced() && sockOpen
      requires currentOutPacket != null && currentOutPacket.toProcess > 0
      modifies this`grants, this`wire, this`ledger, currentOutPacket`pos, currentOutPacket`toProcess
      ensures HandHolds() && Recorded() && ledger.Balanced() && ledger.Continues(old(ledger)) && old(wire) <= wire
      ensures !stop ==> currentOutPacket.toProcess < old(currentOutPacket.toProcess) && rc == Success
      ensures !stop ==> Served(old(grants), grants, |wire| - |old(wire)|)
      ensures stop ==> Stuck(old(grants), grants, |wire| - |old(wire)|, rc)
    {
      var packet := currentOutPacket;
      var length, error := NetWrite(packet.payload[packet.pos..packet.pos + packet.toProcess]);
      if length > 0 {
        BalancedWrite(ledger, length);
        ledger := ledger.Write(length);
        packet.toProcess := packet.toProcess - length;
        packet.pos := packet.pos + length;
        rc, stop := Success, false;
      } else {
        rc, stop := error, true;
        assert Served(old(grants), old(grants), 0);
      }
    }

    /** Writes the packet in hand until its end, a shortage or an error. */
    method WriteCurrent() returns (rc: Code, stop: bool)
      requires HandHolds() && Recorded() && ledger.Balanced() && sockOpen && currentOutPacket != null
      modifies this`grants, this`wire, this`ledger, currentOutPacket`pos, currentOutPacket`toProcess
      ensures HandHolds() && Recorded() && ledger.Balanced() && ledger.Continues(old(ledger)) && old(wire) <= wire
      ensures stop || (rc == Success && ledger.started == |ledger.hand[0].bytes|)
      ensures !stop ==> Served(old(grants), grants, |wire| - |old(wire)|)
      ensures stop ==> Stuck(old(grants), grants, |wire| - |old(wire)|, rc)
    {
      var packet := currentOutPacket;
      while packet.toProcess > 0
        invariant HandHolds() && Recorded() && ledger.Balanced() && ledger.Continues(old(ledger)) && old(wire) <= wire
        invariant Served(old(grants), grants, |wire| - |old(wire)|)
        decreases packet.toProcess
      {
        ghost var (before, wrote) := (grants, |wire|);
        rc, stop := WriteChunk();
        ServedAdds(old(grants), before, grants, wrote - |old(wire)|, |wire| - wrote, rc);
        if stop {
          return;
        }
      }
      rc, stop := Success, false;
    }

    /** The packet in hand is complete: its callback, or the end of the connection. */
    method Complete() returns (stop: bool)
      requires HandHolds() && Recorded() && sockOpen && currentOutPacket != null
      modifies this`ledger, this`sockOpen, this`reported
      ensures Recorded() && ledger == old(ledger).Finish() && (stop <==> !sockOpen)
    {
      var packet := currentOutPacket;
      stop := false;
      // The mask 0xF6: type PUBLISH and QoS 0.
      if packet.command / 16 == PUBLISH / 16 && packet.command / 2 % 4 == 0 {
        reported := reported + [packet.mid];
      } else if packet.command / 16 == DISCONNECT / 16 {
        sockOpen := false;
        stop := true;
      }
      ledger := ledger.Finish();
    }

    /** The next packet is taken; behind a DISCONNECT the call ends. */
    method FinishCurrent() returns (stop: bool)
      requires Agrees() && sockOpen && currentOutPacket != null
      requires ledger.started == |ledger.hand[0].bytes|
      modifies this`currentOutPacket, this`outPacket, this`outPacketLast, this`nodes, this`ledger, this`sockOpen
      modifies this`reported
      ensures Agrees() && ledger == old(ledger).Finish().Take()
      ensures stop <==> !sockOpen
      ensures |nodes| + (if currentOutPacket == null then 0 else 1) == old(|nodes|)
      ensures (currentOutPacket == null ==> nodes == []) && (currentOutPacket == null || currentOutPacket in old(nodes))
      ensures forall p :: p in nodes ==> p in old(nodes)
    {
      stop := Complete();
      Advance();
    }

    /** Nothing is left to write, or nothing more may be written. */
    predicate Idle()
      reads this
    {
      (currentOutPacket == null && outPacket == null) || !sockOpen
    }

    /** Writes as much of the queue as the network takes, in order. */
    method PacketWrite() returns (rc: Code)
      requires Valid()
      modifies this`currentOutPacket, this`outPacket, this`outPacketLast, this`nodes, this`ledger
      modifies this`sockOpen, this`grants, this`wire, this`reported, nodes, currentOutPacket
      ensures Valid() && Grew(old(ledger), old(wire), ledger, wire)
      ensures Among(nodes, currentOutPacket, old(nodes), old(currentOutPacket), null)
      ensures !old(sockOpen) ==> rc == NoConn && !sockOpen && ledger == old(ledger)
      ensures old(sockOpen) && connectPending ==>
                rc == Success && sockOpen && wire == old(wire) && grants == old(grants)
      ensures old(sockOpen) && !connectPending ==> Ended(Idle(), old(grants), grants, |wire| - |old(wire)|, rc)
    {
      if !sockOpen {
        return NoConn;
      }
      TakeFirst();
      ghost var (ledger1, nodes1, hand1) := (ledger, nodes, currentOutPacket);
      assert grants == old(grants) && wire == old(wire) && sockOpen;
      rc := WriteOpen();
      GrewThen(old(ledger), old(wire), ledger1, old(wire), ledger, wire);
      AmongThen(old(nodes), old(currentOutPacket), nodes1, hand1, nodes, currentOutPacket, null);
    }

    /** Nothing is written before the connection is established. */
    method WriteOpen() returns (rc: Code)
      requires Valid() && sockOpen && (currentOutPacket == null ==> nodes == [])
      modifies this`currentOutPacket, this`outPacket, this`outPacketLast, this`nodes, this`ledger
      modifies this`sockOpen, this`grants, this`wire, this`reported, nodes, currentOutPacket
      ensures Valid() && Grew(old(ledger), old(wire), ledger, wire)
      ensures Among(nodes, currentOutPacket, old(nodes), old(currentOutPacket), null)
      ensures if connectPending then rc == Success && sockOpen && wire == old(wire) && grants == old(grants)
              else Ended(Idle(), old(grants), grants, |wire| - |old(wire)|, rc)
    {
      if connectPending {
        rc := Success;
      } else {
        rc := WriteAll();
      }
    }

    method TakeFirst()
      requires Valid()
      modifies this`currentOutPacket, this`outPacket, this`outPacketLast, this`nodes, this`ledger
      ensures Valid() && Grew(old(ledger), old(wire), ledger, wire)
      ensures Among(nodes, currentOutPacket, old(nodes), old(currentOutPacket), null)
      ensures currentOutPacket == null ==> nodes == []
      ensures (nodes == old(nodes) && currentOutPacket == old(currentOutPacket))
           || (old(nodes) != [] && nodes == old(nodes[1..]) && currentOutPacket == old(nodes[0]))
    {
      if outPacket != null && currentOutPacket == null {
        BalancedTake(ledger);
        Advance();
      }
    }

    /** The loop of the writer. */
    method WriteAll() returns (rc: Code)
      requires Valid() && sockOpen && (currentOutPacket == null ==> nodes == [])
      modifies this`currentOutPacket, this`outPacket, this`outPacketLast, this`nodes, this`ledger
      modifies this`sockOpen, this`grants, this`wire, this`reported, nodes, currentOutPacket
      ensures Valid() && Grew(old(ledger), old(wire), ledger, wire)
      ensures Among(nodes, currentOutPacket, old(nodes), old(currentOutPacket), null)
      ensures Ended(Idle(), old(grants), grants, |wire| - |old(wire)|, rc)
    {
      while currentOutPacket != null
        invariant Valid() && sockOpen && Grew(old(ledger), old(wire), ledger, wire)
        invariant Among(nodes, currentOutPacket, old(nodes), old(currentOutPacket), null)
        invariant currentOutPacket == null ==> nodes == []
        invariant Served(old(grants), grants, |wire| - |old(wire)|)
        decreases |nodes| + if currentOutPacket == null then 0 else 1
      {
        ghost var (grants1, wire1, ledger1, nodes1, hand1) := (grants, wire, ledger, nodes, currentOutPacket);
        var stop;
        rc, stop := WriteOne();
        GrewThen(old(ledger), old(wire), ledger1, wire1, ledger, wire);
        AmongThen(old(nodes), old(currentOutPacket), nodes1, hand1, nodes, currentOutPacket, null);
        ServedAdds(old(grants), grants1, grants, |wire1| - |old(wire)|, |wire| - |wire1|, rc);
        if stop {
          assert Ended(Idle(), old(grants), grants, |wire| - |old(wire)|, rc);
          return;
        }
      }
      rc := Success;
    }

    /** Queues a finished packet, and writes at once unless a callback is running or another
        thread does the writing. */
    method PacketQueue(packet: Packet) returns (rc: Code)
      requires Valid() && packet !in nodes && packet != currentOutPacket
      requires packet.payload != null && packet.payload.Length == packet.packetLength > 0
      requires packet.command == packet.payload[0]
      modifies this`currentOutPacket, this`outPacket, this`outPacketLast, this`nodes, this`ledger
      modifies this`sockOpen, this`grants, this`wire, this`reported, nodes, currentOutPacket, packet
      ensures Valid()
      ensures ledger.log == old(ledger.log) + [Queued(old(packet.payload[..]), old(packet.mid))]
      ensures ledger.announced == old(ledger.announced)
      ensures old(ledger.done) <= ledger.done && old(wire) <= wire
      ensures Among(nodes, currentOutPacket, old(nodes), old(currentOutPacket), packet)
      ensures !old(sockOpen) ==> !sockOpen && wire == old(wire)
      ensures inCallback || threaded || (old(sockOpen) && connectPending) ==>
                rc == Success && wire == old(wire) && grants == old(grants) && sockOpen == old(sockOpen)
      ensures old(sockOpen) && !inCallback && !threaded && !connectPending ==>
                Ended(Idle(), old(grants), grants, |wire| - |old(wire)|, rc)
    {
      LinkPacket(packet);
      assert grants == old(grants) && wire == old(wire) && sockOpen == old(sockOpen);
      assert ledger.done == old(ledger.done) && ledger.announced == old(ledger.announced);
      ghost var (nodes1, hand1) := (nodes, currentOutPacket);
      rc := WriteNow();
      AmongThen(old(nodes), old(currentOutPacket), nodes1, hand1, nodes, currentOutPacket, packet);
    }

    method LinkPacket(packet: Packet)
      requires Valid() && packet !in nodes && packet != currentOutPacket
      requires packet.payload != null && packet.payload.Length == packet.packetLength > 0
      requires packet.command == packet.payload[0]
      modifies this`outPacket, this`outPacketLast, this`nodes, this`ledger, packet, nodes
      ensures Valid() && nodes == old(nodes) + [packet]
      ensures Among(nodes, currentOutPacket, old(nodes), old(currentOutPacket), packet)
      ensures ledger.log == old(ledger.log) + [Queued(old(packet.payload[..]), old(packet.mid))]
      ensures ledger.announced == old(ledger.announced) && ledger.done == old(ledger.done)
    {
      BalancedQueue(ledger, Queued(packet.payload[..], packet.mid));
      Append(packet);
    }

    /** Unless a callback is running or another thread does the writing. */
    method WriteNow() returns (rc: Code)
      requires Valid()
      modifies this`currentOutPacket, this`outPacket, this`outPacketLast, this`nodes, this`ledger
      modifies this`sockOpen, this`grants, this`wire, this`reported, nodes, currentOutPacket
      ensures Valid() && Grew(old(ledger), old(wire), ledger, wire)
      ensures Among(nodes, currentOutPacket, old(nodes), old(currentOutPacket), null)
      ensures !old(sockOpen) ==> !sockOpen && wire == old(wire)
      ensures inCallback || threaded || (old(sockOpen) && connectPending) ==>
                rc == Success && wire == old(wire) && grants == old(grants) && sockOpen == old(sockOpen)
      ensures old(sockOpen) && !inCallback && !threaded && !connectPending ==>
                Ended(Idle(), old(grants), grants, |wire| - |old(wire)|, rc)
    {
      if !inCallback && !threaded {
        rc := PacketWrite();
      } else {
        rc := Success;
      }
    }

    /** mosquitto.c, _mosquitto_reconnect: drops every packet, current or waiting. The tail
        pointer is left as it was. */
    method Drain()
      requires Linked() && (currentOutPacket != null ==> currentOutPacket !in nodes)
      modifies this`currentOutPacket, this`outPacket, this`nodes
      ensures currentOutPacket == null && outPacket == null && nodes == []
    {
      if outPacket != null && currentOutPacket == null {
        currentOutPacket := outPacket;
        outPacket := outPacket.next;
        nodes := nodes[1..];
      }
      while currentOutPacket != null
        invariant outPacket == (if nodes == [] then null else nodes[0])
        invariant nodes != [] ==> nodes[|nodes| - 1].next == null
        invariant forall i, j :: 0 <= i < j < |nodes| && j == i + 1 ==> nodes[i].next == nodes[j]
        invariant currentOutPacket == null ==> nodes == []
        decreases |nodes| + if currentOutPacket == null then 0 else 1
      {
        currentOutPacket := outPacket;
        if outPacket != null {
          outPacket := outPacket.next;
          nodes := nodes[1..];
        }
      }
    }

    /** The drain, and new accounts for the new connection. */
    method Restart(socketOpens: bool)
      requires Valid()
      modifies this`currentOutPacket, this`outPacket, this`nodes, this`ledger, this`sockOpen
      modifies this`wire, this`reported
      ensures Valid() && nodes == [] && currentOutPacket == null && sockOpen == socketOpens
      ensures ledger.log == [] && wire == [] && reported == [] && !ledger.announced
      ensures forall p :: p in nodes ==> p in old(nodes) || fresh(p)
      ensures currentOutPacket == null || currentOutPacket == old(currentOutPacket) || currentOutPacket in old(nodes)
           || fresh(currentOutPacket)
    {
      Drain();
      wire, reported := [], [];
      ledger := Ledger([], [], [], 0, [], [], [], socketOpens, false);
      sockOpen := socketOpens;
    }

    /** send_client_mosq.c, _mosquitto_send_connect. */
    method SendConnect(c: Connect) returns (rc: Code)
      requires Valid() && ConnectLength(c) < 0x8000_0000 && ledger.log == []
      modifies this`currentOutPacket, this`outPacket, this`outPacketLast, this`nodes, this`ledger
      modifies this`sockOpen, this`grants, this`wire, this`reported, nodes, currentOutPacket
      ensures Valid() && (ledger.announced <==> ConnectLength(c) <= MAX_REMAINING)
      ensures ledger.announced ==> |ledger.log| == 1
      ensures ledger.announced && AllShort(c) ==> ledger.log[0].bytes == EncodeRaw(Raw(CONNECT, ConnectBody(c)))
      ensures !ledger.announced ==> rc == PayloadSize && ledger == old(ledger)
      ensures forall p :: p in nodes ==> p in old(nodes) || fresh(p)
      ensures currentOutPacket == null || currentOutPacket == old(currentOutPacket) || currentOutPacket in old(nodes)
           || fresh(currentOutPacket)
    {
      NothingLogged(ledger);
      var packet;
      rc, packet := BuildConnect(c);
      if rc != Success {
        return;
      }
      assert packet.payload[0] == packet.Written()[0];
      rc := PacketQueue(packet);
      MarkAnnounced();
    }

    ghost method MarkAnnounced()
      requires Valid() && StartsWithConnect(ledger.log)
      modifies this`ledger
      ensures Valid() && ledger == old(ledger).(announced := true)
    {
      Announce(ledger);
      ledger := ledger.(announced := true);
    }

    /** _mosquitto_reconnect, the part about the output: drain, connect the socket, and queue
        the CONNECT. With a socket that opens and a CONNECT that can be built, it is the first
        packet of the new connection. */
    method Reconnect(socketOpens: bool, pendingConnect: bool, c: Connect) returns (rc: Code)
      requires Valid() && ConnectLength(c) < 0x8000_0000
      modifies this, nodes, currentOutPacket
      ensures Valid()
      ensures ledger.announced <==> socketOpens && ConnectLength(c) <= MAX_REMAINING
      ensures ledger.announced ==> |ledger.log| == 1
      ensures ledger.announced && AllShort(c) ==> ledger.log[0].bytes == EncodeRaw(Raw(CONNECT, ConnectBody(c)))
      ensures !ledger.announced ==> rc != Success && ledger.log == [] && wire == []
      ensures forall p :: p in nodes ==> p in old(nodes) || fresh(p)
      ensures currentOutPacket == null || currentOutPacket == old(currentOutPacket) || currentOutPacket in old(nodes)
           || fresh(currentOutPacket)
    {
      Restart(socketOpens);
      if !socketOpens {
        return Errno;
      }
      connectPending := pendingConnect;
      rc := SendConnect(c);
    }

    /** send_mosq.c, _mosquitto_send_simple_command: PINGREQ, PINGRESP, DISCONNECT. */
    method SendSimpleCommand(command: byte) returns (rc: Code)
      requires Valid()
      modifies this`currentOutPacket, this`outPacket, this`outPacketLast, this`nodes, this`ledger
      modifies this`sockOpen, this`grants, this`wire, this`reported, nodes, currentOutPacket
      ensures Valid() && ledger.log == old(ledger.log) + [Queued(EncodeRaw(Raw(command, [])), 0)]
      ensures forall p :: p in nodes ==> p in old(nodes) || fresh(p)
      ensures currentOutPacket == null || currentOutPacket == old(currentOutPacket) || currentOutPacket in old(nodes)
           || fresh(currentOutPacket)
    {
      var packet := BuildSimpleCommand(command);
      assert EncodeRaw(Raw(command, [])) == [command, 0];
      rc := PacketQueue(packet);
    }

    /** send_mosq.c, _mosquitto_send_command_with_mid: PUBACK, PUBREC, PUBREL, PUBCOMP. */
    method SendCommandWithMid(command: byte, mid: uint16) returns (rc: Code)
      requires Valid()
      modifies this`currentOutPacket, this`outPacket, this`outPacketLast, this`nodes, this`ledger
      modifies this`sockOpen, this`grants, this`wire, this`reported, nodes, currentOutPacket
      ensures Valid() && ledger.log == old(ledger.log) + [Queued(EncodeRaw(Raw(command, Uint16(mid))), 0)]
      ensures forall p :: p in nodes ==> p in old(nodes) || fresh(p)
      ensures currentOutPacket == null || currentOutPacket == old(currentOutPacket) || currentOutPacket in old(nodes)
           || fresh(currentOutPacket)
    {
      var packet := BuildCommandWithMid(command, mid);
      assert packet.payload[0] == EncodeRaw(Raw(command, Uint16(mid)))[0];
      rc := PacketQueue(packet);
    }

    /** mosquitto_disconnect. */
    method Disconnect() returns (rc: Code)
      requires Valid()
      modifies this`currentOutPacket, this`outPacket, this`outPacketLast, this`nodes, this`ledger
      modifies this`sockOpen, this`grants, this`wire, this`reported, nodes, currentOutPacket
      ensures Valid()
      ensures !old(sockOpen) ==> rc == NoConn && ledger == old(ledger)
      ensures old(sockOpen) ==> ledger.log == old(ledger.log) + [Queued([DISCONNECT, 0], 0)]
      ensures forall p :: p in nodes ==> p in old(nodes) || fresh(p)
      ensures currentOutPacket == null || currentOutPacket == old(currentOutPacket) || currentOutPacket in old(nodes)
           || fresh(currentOutPacket)
    {
      if !sockOpen {
        return NoConn;
      }
      rc := SendSimpleCommand(DISCONNECT);
      assert EncodeRaw(Raw(DISCONNECT, [])) == [DISCONNECT, 0];
    }

    /** _mosquitto_send_publish and _mosquitto_send_real_publish. */
    method SendPublish(m: Publish) returns (rc: Code)
      requires Valid() && 0 < |m.topic| <= 65535 && |m.payload| <= MAX_REMAINING
      modifies this`currentOutPacket, this`outPacket, this`outPacketLast, this`nodes, this`ledger
      modifies this`sockOpen, this`grants, this`wire, this`reported, nodes, currentOutPacket
      ensures Valid()
      ensures !old(sockOpen) ==> rc == NoConn && ledger == old(ledger)
      ensures old(sockOpen) && PublishLength(m) > MAX_REMAINING ==> rc == PayloadSize && ledger == old(ledger)
      ensures old(sockOpen) && PublishLength(m) <= MAX_REMAINING ==>
                ledger.log == old(ledger.log) + [Queued(EncodeRaw(PublishRaw(m)), m.mid)]
      ensures forall p :: p in nodes ==> p in old(nodes) || fresh(p)
      ensures currentOutPacket == null || currentOutPacket == old(currentOutPacket) || currentOutPacket in old(nodes)
           || fresh(currentOutPacket)
    {
      if !sockOpen {
        return NoConn;
      }
      var packet;
      rc, packet := BuildPublish(m);
      if rc != Success {
        return;
      }
      rc := PacketQueue(packet);
    }

    /** Nothing is lost, repeated or reordered: the bytes on the wire, the unsent tail of the
        current packet's buffer and the buffers of the waiting packets are together all that
        was queued since the connect. The bytes of an announced connection start with those of
        its CONNECT, and on_publish was called for each PUBLISH of QoS 0 written, in order. */
    lemma Conserved()
      requires Valid()
      ensures Flatten(ledger.log) == wire + (Unsent() + Buffers(nodes))
      ensures ledger.announced && wire != [] ==> wire[0] == CONNECT
      ensures reported == Qos0Ids(ledger.done) && ledger.done <= ledger.log
      ensures Flatten(ledger.done) <= wire
    {
      Conservation(ledger);
      BuffersWait(nodes, ledger.waiting);
      if currentOutPacket != null { FlattenOne(ledger.hand[0]); }
    }

    /** Once a DISCONNECT is written the connection is closed, and its bytes are the last ones. */
    lemma NothingAfterDisconnect(k: nat)
      requires Valid() && k < |ledger.done| && IsDisconnect(ledger.done[k])
      ensures !sockOpen && wire == Flatten(ledger.done[..k]) + ledger.done[k].bytes
    {
      LastBytes(ledger, k);
    }

    lemma EndsThere(k: nat)
      requires Valid() && k < |ledger.done| && IsDisconnect(ledger.done[k])
      ensures k == |ledger.done| - 1
    {
    }

    static lemma {:induction false} BuffersWait(ps: seq<Packet>, qs: seq<Queued>)
      requires |ps| == |qs| && forall k :: 0 <= k < |ps| ==> ps[k].payload != null && ps[k].payload[..] == qs[k].bytes
      ensures Buffers(ps) == Flatten(qs)
    {
      if ps == [] {
      } else {
        BuffersWait(ps[1..], qs[1..]);
      }
    }

    /** One turn of the writer's loop. */
    method WriteOne() returns (rc: Code, stop: bool)
      requires Valid() && sockOpen && currentOutPacket != null
      modifies this`currentOutPacket, this`outPacket, this`outPacketLast, this`nodes, this`ledger
      modifies this`sockOpen, this`grants, this`wire, this`reported, currentOutPacket
      ensures Valid() && Grew(old(ledger), old(wire), ledger, wire)
      ensures !stop ==>
                && sockOpen && |nodes| + (if currentOutPacket == null then 0 else 1) == old(|nodes|)
                && (currentOutPacket == null ==> nodes == [])
                && Served(old(grants), grants, |wire| - |old(wire)|)
      ensures Among(nodes, currentOutPacket, old(nodes), old(currentOutPacket), null)
      ensures stop ==> Ended(!sockOpen, old(grants), grants, |wire| - |old(wire)|, rc)
    {
      rc, stop := WriteHand();
      if stop {
        return;
      }
      ghost var (ledger1, wire1) := (ledger, wire);
      stop := FinishOne();
      GrewThen(old(ledger), old(wire), ledger1, wire1, ledger, wire);
    }

    method FinishOne() returns (stop: bool)
      requires Valid() && sockOpen && currentOutPacket != null && ledger.started == |ledger.hand[0].bytes|
      modifies this`currentOutPacket, this`outPacket, this`outPacketLast, this`nodes, this`ledger, this`sockOpen
      modifies this`reported
      ensures Valid() && Grew(old(ledger), old(wire), ledger, wire) && (stop <==> !sockOpen)
      ensures |nodes| + (if currentOutPacket == null then 0 else 1) == old(|nodes|)
      ensures currentOutPacket == null ==> nodes == []
      ensures Among(nodes, currentOutPacket, old(nodes), old(currentOutPacket), null)
    {
      BalancedFinish(ledger);
      BalancedTake(ledger.Finish());
      stop := FinishCurrent();
    }

    method WriteHand() returns (rc: Code, stop: bool)
      requires Valid() && sockOpen && currentOutPacket != null
      modifies this`grants, this`wire, this`ledger, currentOutPacket`pos, currentOutPacket`toProcess
      ensures Valid() && Grew(old(ledger), old(wire), ledger, wire)
      ensures stop || (rc == Success && ledger.started == |ledger.hand[0].bytes|)
      ensures !stop ==> Served(old(grants), grants, |wire| - |old(wire)|)
      ensures stop ==> Stuck(old(grants), grants, |wire| - |old(wire)|, rc)
    {
      rc, stop := WriteCurrent();
    }
  }
}
