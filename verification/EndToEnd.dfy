/** From one client's publish to another's handler: writers, partial writes, short reads and
    the reader put together. */
module EndToEnd {
  import opened Codec
  import opened Wire
  import opened PacketReader
  import opened ReadSteps
  import opened PacketWriter

  /** What a sender queues: a PUBLISH, or some other packet (CONNECT, acknowledgements). */
  datatype Outgoing = Message(m: Publish) | Command(raw: Raw)

  ghost predicate Proper(o: Outgoing) {
    match o
    case Message(m) => Sendable(m)
    case Command(raw) => raw.command / 16 != PUBLISH / 16 && raw.command != 0 && |raw.body| <= MAX_REMAINING
  }

  function RawOf(o: Outgoing): Raw {
    match o
    case Message(m) => PublishRaw(m)
    case Command(raw) => raw
  }

  function RawsOf(os: seq<Outgoing>): (ps: seq<Raw>)
    ensures |ps| == |os|
    ensures forall k :: 0 <= k < |os| ==> ps[k] == RawOf(os[k])
  {
    seq(|os|, k requires 0 <= k < |os| => RawOf(os[k]))
  }

  /** The messages among what was queued, in order. */
  function MessagesIn(os: seq<Outgoing>): seq<Publish> {
    if os == [] then []
    else
      var last := os[|os| - 1];
      MessagesIn(os[..|os| - 1]) + if last.Message? then [last.m] else []
  }

  lemma ProperRaw(o: Outgoing)
    requires Proper(o)
    ensures |RawOf(o).body| <= MAX_REMAINING && RawOf(o).command != 0
    ensures MessageOf(RawOf(o)) == if o.Message? then [o.m] else []
  {
    if o.Message? {
      PublishRoundTrip(o.m);
      HeaderBits(o.m);
    }
  }

  /** The PUBLISH handler finds exactly the messages that were queued. */
  lemma {:induction false} MessagesFound(os: seq<Outgoing>)
    requires forall k :: 0 <= k < |os| ==> Proper(os[k])
    ensures MessagesOf(RawsOf(os)) == MessagesIn(os)
  {
    if os == [] {
    } else {
      var front := os[..|os| - 1];
      assert RawsOf(os)[..|os| - 1] == RawsOf(front);
      MessagesFound(front);
      ProperRaw(os[|os| - 1]);
    }
  }

  lemma {:induction false} MessagesPrefix(ps: seq<Raw>, n: nat)
    requires n <= |ps|
    ensures MessagesOf(ps[..n]) <= MessagesOf(ps)
    decreases |ps|
  {
    if n == |ps| {
      assert ps[..n] == ps;
    } else {
      var front := ps[..|ps| - 1];
      assert ps[..n] == front[..n];
      MessagesPrefix(front, n);
    }
  }

  lemma {:induction false} FlattenIsEncodeAll(log: seq<Queued>, ps: seq<Raw>)
    requires |log| == |ps|
    requires forall k :: 0 <= k < |log| ==> log[k].bytes == EncodeRaw(ps[k])
    ensures Flatten(log) == EncodeAll(ps)
  {
    if log == [] {
    } else {
      FlattenIsEncodeAll(log[1..], ps[1..]);
    }
  }

  lemma {:induction false} CleanStream(ps: seq<Raw>)
    requires forall k :: 0 <= k < |ps| ==> |ps[k].body| <= MAX_REMAINING && ps[k].command != 0
    ensures NoZero(EncodeAll(ps))
  {
    if ps == [] {
    } else {
      ParseOneEncoded(ps[0], EncodeAll(ps[1..]));
      assert EncodeAll(ps)[|EncodeRaw(ps[0])|..] == EncodeAll(ps[1..]);
      CleanStream(ps[1..]);
    }
  }

  lemma CleanFront(ps: seq<Raw>, front: seq<byte>)
    requires forall k :: 0 <= k < |ps| ==> |ps[k].body| <= MAX_REMAINING && ps[k].command != 0
    requires front <= EncodeAll(ps)
    ensures NoZero(front)
  {
    CleanStream(ps);
    assert front + EncodeAll(ps)[|front|..] == EncodeAll(ps);
    NoZeroPrefix(front, EncodeAll(ps)[|front|..]);
  }

  /** What parsing a front of the stream finds. */
  lemma FrontFinds(os: seq<Outgoing>, front: seq<byte>)
    requires forall k :: 0 <= k < |os| ==> Proper(os[k])
    requires front <= EncodeAll(RawsOf(os))
    ensures NoZero(front)
    ensures var found := ParseStream(front).packets;
            && found <= RawsOf(os) && MessagesOf(found) <= MessagesIn(os)
            && (front == EncodeAll(RawsOf(os)) ==> found == RawsOf(os))
    ensures MessagesOf(RawsOf(os)) == MessagesIn(os)
  {
    var ps := RawsOf(os);
    forall k | 0 <= k < |os| ensures |ps[k].body| <= MAX_REMAINING && ps[k].command != 0 { ProperRaw(os[k]); }
    CleanFront(ps, front);
    ParsePrefix(ps, front);
    ParseEncodeAll(ps);
    var found := ParseStream(front).packets;
    assert found == ps[..|found|];
    MessagesPrefix(ps, |found|);
    MessagesFound(os);
  }

  /** Each packet of the log is what the sender makes of the outgoing one. */
  ghost predicate Paired(log: seq<Queued>, os: seq<Outgoing>) {
    |log| == |os| && forall k :: 0 <= k < |os| ==> Proper(os[k]) && log[k].bytes == EncodeRaw(RawOf(os[k]))
  }

  /** A sender and a reader in any states their operations can reach, the reader having
      consumed some of what the sender has written on this connection: the messages the
      reader has handed over are the first of those queued, in order, with the same flags,
      topic, id and payload; and all of them once all bytes are through. */
  lemma Delivered(s: Sender, r: Reader, os: seq<Outgoing>)
    requires s.Valid() && r.Valid() && r.sockOpen
    requires r.Consumed() <= s.wire
    requires Paired(s.ledger.log, os)
    ensures r.handled <= RawsOf(os) && r.messages <= MessagesIn(os)
    ensures r.Consumed() == Flatten(s.ledger.log) ==> r.handled == RawsOf(os) && r.messages == MessagesIn(os)
  {
    FlattenIsEncodeAll(s.ledger.log, RawsOf(os));
    s.Conserved();
    FrontFinds(os, r.Consumed());
    r.Refines();
  }

  /** All bytes are written once nothing is in hand or waiting. */
  lemma AllWritten(s: Sender)
    requires s.Valid() && s.currentOutPacket == null && s.outPacket == null
    ensures s.wire == Flatten(s.ledger.log)
  {
    s.Conserved();
    assert s.nodes == [];
  }

  // ---------------------------------------------------------------- what is reported

  /** The first byte of a packet is its command: so the mask test of the writer finds the messages
      of QoS 0, and the test for the end of the stream the packets of type 14. */
  lemma FirstByteTells(q: Queued, o: Outgoing)
    requires Proper(o) && q.bytes == EncodeRaw(RawOf(o))
    ensures IsQos0Publish(q) <==> o.Message? && o.m.qos == 0
    ensures IsDisconnect(q) <==> o.Command? && o.raw.command / 16 == 14
  {
    assert q.bytes[0] == RawOf(o).command;
    if o.Message? { HeaderBits(o.m); }
  }

  /** The ids of the messages of QoS 0 among the first n packets. */
  function ZeroIds(log: seq<Queued>, os: seq<Outgoing>, n: nat): seq<uint16>
    requires n <= |log| == |os|
  {
    if n == 0 then []
    else ZeroIds(log, os, n - 1) + if os[n - 1].Message? && os[n - 1].m.qos == 0 then [log[n - 1].mid] else []
  }

  lemma {:induction false} ZeroIdsFound(log: seq<Queued>, os: seq<Outgoing>, n: nat)
    requires Paired(log, os) && n <= |os|
    ensures Qos0Ids(log[..n]) == ZeroIds(log, os, n)
  {
    if n == 0 {
    } else {
      ZeroIdsFound(log, os, n - 1);
      FirstByteTells(log[n - 1], os[n - 1]);
      assert log[..n][..n - 1] == log[..n - 1] && log[..n][n - 1] == log[n - 1];
    }
  }

  lemma LastIsEnd(s: Sender, k: nat)
    requires s.Valid() && k < |s.ledger.done| && IsDisconnect(s.ledger.done[k])
    ensures k == |s.ledger.done| - 1 && !s.sockOpen && s.wire == Flatten(s.ledger.done)
  {
    var done := s.ledger.done;
    s.NothingAfterDisconnect(k);
    s.EndsThere(k);
    FlattenConcat(done[..k], [done[k]]);
    FlattenOne(done[k]);
    assert done == done[..k] + [done[k]];
  }

  /** At a write on_publish is called for the messages of QoS 0 among the packets written to their
      end, in order, and for no other. */
  lemma ReportedAtWrite(s: Sender, os: seq<Outgoing>)
    requires s.Valid() && Paired(s.ledger.log, os)
    ensures |s.ledger.done| <= |os| && s.reported == ZeroIds(s.ledger.log, os, |s.ledger.done|)
  {
    s.Conserved();
    ZeroIdsOf(s.ledger.log, s.ledger.done, os);
  }

  lemma ZeroIdsOf(log: seq<Queued>, done: seq<Queued>, os: seq<Outgoing>)
    requires Paired(log, os) && done <= log
    ensures Qos0Ids(done) == ZeroIds(log, os, |done|)
  {
    ZeroIdsFound(log, os, |done|);
    assert done == log[..|done|];
  }

  /** A packet of type 14 written to its end is the last: the socket is closed behind it, and its
      bytes are the last on the wire. */
  lemma EndsAtType14(s: Sender, os: seq<Outgoing>, k: nat)
    requires s.Valid() && Paired(s.ledger.log, os) && k < |s.ledger.done|
    ensures |s.ledger.done| <= |os|
    ensures os[k].Command? && os[k].raw.command / 16 == 14 ==>
              k == |s.ledger.done| - 1 && !s.sockOpen && s.wire == Flatten(s.ledger.done)
  {
    s.Conserved();
    FirstByteTells(s.ledger.log[k], os[k]);
    assert s.ledger.done[k] == s.ledger.log[k];
    if IsDisconnect(s.ledger.done[k]) { LastIsEnd(s, k); }
  }
}
