/** The message engine on top of the output queue: each send of the engine is a call of one of
    the sender's functions, and its result is what that call returns. Engine and sender are
    proved against each other: what is queued since the last CONNECT is what the engine sent,
    in order, and the engine's run is the one whose sends turn out as they did. */
module Connection {
  import opened Codec
  import opened Engine
  import opened Fate
  import Wire
  import PacketBuffer
  import PacketReader
  import PacketWriter
  import EndToEnd
  import Execution
  import MessageLists

  // ---------------------------------------------------------------- packets as queued

  /** A packet the engine wanted to send, whether the socket was open, and what the send
      returned; or a PINGREQ or DISCONNECT. */
  datatype Item = Wanted(packet: Sent, open: bool, ok: bool) | Simple(command: byte)

  /** The packet gets into the queue. Only a PUBLISH can be refused: without a socket, or when
      it is too large. */
  predicate IsQueued(item: Item)
    requires item.Wanted?
  {
    item.packet.SentPublish? ==> item.open && SizeOk(item.packet)
  }

  function Message(c: Content, dup: bool): Wire.Publish {
    Wire.Publish.Publish(dup, c.qos, c.retain, c.topic, c.mid, c.payload)
  }

  /** The type of an acknowledgement. A PUBREL has the bit 2 of its reserved flags set. */
  function RawOf(p: Sent): Raw {
    match p
    case SentPublish(c, dup) => Wire.PublishRaw(Message(c, dup))
    case SentPuback(mid) => Raw(Wire.PUBACK, Wire.Uint16(mid))
    case SentPubrec(mid) => Raw(Wire.PUBREC, Wire.Uint16(mid))
    case SentPubrel(mid) => Raw(Wire.PUBREL + 2, Wire.Uint16(mid))
    case SentPubcomp(mid) => Raw(Wire.PUBCOMP, Wire.Uint16(mid))
  }

  function EntryOf(item: Item): seq<PacketWriter.Queued> {
    match item
    case Wanted(p, open, ok) =>
      if !IsQueued(item) then []
      else [PacketWriter.Queued(EncodeRaw(RawOf(p)), if p.SentPublish? then p.content.mid else 0)]
    case Simple(command) => [PacketWriter.Queued(EncodeRaw(Raw(command, [])), 0)]
  }

  function PacketOf(item: Item): seq<Sent> {
    if item.Wanted? then [item.packet] else []
  }

  function OkOf(item: Item): seq<bool> {
    if item.Wanted? then [item.ok] else []
  }

  /** What all items have of something, in order. */
  function Each<T>(items: seq<Item>, of: Item -> seq<T>): seq<T> {
    if items == [] then [] else of(items[0]) + Each(items[1..], of)
  }

  function Entries(items: seq<Item>): seq<PacketWriter.Queued> {
    Each(items, EntryOf)
  }

  function SentOf(items: seq<Item>): seq<Sent> {
    Each(items, PacketOf)
  }

  function OksOf(items: seq<Item>): seq<bool> {
    Each(items, OkOf)
  }

  lemma EachCons<T>(item: Item, items: seq<Item>, of: Item -> seq<T>)
    ensures Each([item] + items, of) == of(item) + Each(items, of)
  {
    assert ([item] + items)[1..] == items;
  }

  lemma {:induction false} EachConcat<T>(a: seq<Item>, b: seq<Item>, of: Item -> seq<T>)
    ensures Each(a + b, of) == Each(a, of) + Each(b, of)
  {
    if a == [] {
      assert a + b == b;
    } else {
      EachConcat(a[1..], b, of);
      assert (a + b)[1..] == a[1..] + b;
      assert of(a[0]) + (Each(a[1..], of) + Each(b, of)) == of(a[0]) + Each(a[1..], of) + Each(b, of);
    }
  }

  /** What mosquitto_publish checks of a message. */
  predicate Fits(c: Content) {
    0 < |c.topic| <= 65535 && 0 !in c.topic && |c.payload| <= MAX_REMAINING
  }

  predicate SentFits(p: Sent) {
    p.SentPublish? ==> Fits(p.content)
  }

  /** The whole packet is not too large. */
  predicate SizeOk(p: Sent) {
    p.SentPublish? ==> Wire.PublishLength(Message(p.content, p.dup)) <= MAX_REMAINING
  }

  /** What was queued is well-formed, and a send that reports success has queued its packet. */
  predicate ItemOk(item: Item) {
    match item
    case Wanted(p, open, ok) => SentFits(p) && (ok ==> IsQueued(item))
    case Simple(command) => command == Wire.PINGREQ || command == Wire.DISCONNECT
  }

  predicate AllOk(items: seq<Item>) {
    forall k :: 0 <= k < |items| ==> ItemOk(items[k])
  }

  predicate AllFit(ms: seq<Msg>) {
    forall k :: 0 <= k < |ms| ==> Fits(ms[k].content)
  }

  // ---------------------------------------------------------------- results of sends

  /** With the results `oks` for its sends the step leads to s', and uses no more of them. */
  ghost predicate Follows(s: State, e: Event, oks: seq<bool>, s': State) {
    s'.script == [] && forall rest: seq<bool> :: Step(s.(script := oks + rest), e) == s'.(script := rest)
  }

  lemma ScriptHead(ok: bool, rest: seq<bool>)
    ensures ([ok] + rest)[0] == ok && ([ok] + rest)[1..] == rest
  {
  }

  /** One send: its result is the first one of the script. */
  lemma SendTakes(s: State, p: Sent, ok: bool, rest: seq<bool>)
    ensures Send(s.(script := [ok] + rest), p) == s.(sent := s.sent + [p], script := rest)
  {
    ScriptHead(ok, rest);
  }

  /** With the results `oks` for its sends, promotion from k on leads from u to v. */
  ghost predicate PromotedTo(u: State, k: nat, oks: seq<bool>, v: State, rc: Code) {
    v.script == [] && forall rest: seq<bool> :: Promote(u.(script := oks + rest), k) == (v.(script := rest), rc)
  }

  lemma PromotesNone(u: State, k: nat)
    requires u.script == [] && (k >= |u.out| || !HasRoom(u))
    ensures PromotedTo(u, k, [], u, Success)
  {
    forall rest: seq<bool> ensures Promote(u.(script := [] + rest), k) == (u.(script := rest), Success) {
      assert [] + rest == rest;
    }
  }

  lemma PromotesSkip(u: State, k: nat, oks: seq<bool>, v: State, rc: Code)
    requires k < |u.out| && HasRoom(u) && !(u.out[k].state == Invalid && u.out[k].content.qos > 0)
    requires PromotedTo(u, k + 1, oks, v, rc)
    ensures PromotedTo(u, k, oks, v, rc)
  {
    forall rest: seq<bool> ensures Promote(u.(script := oks + rest), k) == (v.(script := rest), rc) {
      assert Promote(u.(script := oks + rest), k) == Promote(u.(script := oks + rest), k + 1);
    }
  }

  lemma StartTakes(u: State, k: nat, ok: bool, rest: seq<bool>)
    requires k < |u.out| && u.script == []
    ensures Start(u.(script := [ok] + rest), k) == Start(u, k).(script := rest) && Start(u, k).script == []
  {
    ScriptHead(ok, rest);
  }

  lemma PromotesStart(u: State, k: nat, oks: seq<bool>, v: State, rc: Code)
    requires k < |u.out| && HasRoom(u) && u.out[k].state == Invalid && u.out[k].content.qos > 0 && u.script == []
    requires PromotedTo(Start(u, k), k + 1, oks, v, rc)
    ensures PromotedTo(u, k, [true] + oks, v, rc)
  {
    forall rest: seq<bool> ensures Promote(u.(script := [true] + oks + rest), k) == (v.(script := rest), rc) {
      assert [true] + oks + rest == [true] + (oks + rest);
      StartTakes(u, k, true, oks + rest);
      ScriptHead(true, oks + rest);
    }
  }

  lemma PromotesFails(u: State, k: nat)
    requires k < |u.out| && HasRoom(u) && u.out[k].state == Invalid && u.out[k].content.qos > 0 && u.script == []
    ensures PromotedTo(u, k, [false], Start(u, k), SendFailed)
  {
    forall rest: seq<bool>
      ensures Promote(u.(script := [false] + rest), k) == (Start(u, k).(script := rest), SendFailed)
    {
      StartTakes(u, k, false, rest);
      ScriptHead(false, rest);
    }
  }

  /** The acknowledgement behind a promotion. */
  function Settled(v: State, rc: Code, c: Content): State {
    if rc == Success then Report(v, c) else Drop(v, c)
  }

  lemma AckFollows(s: State, mid: uint16, oks: seq<bool>, v: State, rc: Code)
    requires Find(s.out, mid) < |s.out| && PromotedTo(Unlink(s, Find(s.out, mid)), 0, oks, v, rc)
    ensures Follows(s, OnAck(mid), oks, Settled(v, rc, s.out[Find(s.out, mid)].content))
  {
    var s' := Settled(v, rc, s.out[Find(s.out, mid)].content);
    forall rest: seq<bool> ensures Step(s.(script := oks + rest), OnAck(mid)) == s'.(script := rest) {
      AckWith(s, mid, oks, v, rc, rest);
    }
  }

  lemma AckWith(s: State, mid: uint16, oks: seq<bool>, v: State, rc: Code, rest: seq<bool>)
    requires Find(s.out, mid) < |s.out| && PromotedTo(Unlink(s, Find(s.out, mid)), 0, oks, v, rc)
    ensures Step(s.(script := oks + rest), OnAck(mid))
         == Settled(v, rc, s.out[Find(s.out, mid)].content).(script := rest)
  {
    var i := Find(s.out, mid);
    SettlesWith(s, mid, oks + rest);
    assert Promote(Unlink(s, i).(script := oks + rest), 0) == (v.(script := rest), rc);
    SettledWith(v, rc, s.out[i].content, rest);
  }

  lemma SettledWith(v: State, rc: Code, c: Content, rest: seq<bool>)
    ensures Settled(v.(script := rest), rc, c) == Settled(v, rc, c).(script := rest)
  {
  }

  lemma SettlesWith(s: State, mid: uint16, script: seq<bool>)
    requires Find(s.out, mid) < |s.out|
    ensures var i := Find(s.out, mid);
            var (v, rc) := Promote(Unlink(s, i).(script := script), 0);
            Ack(s.(script := script), mid) == Settled(v, rc, s.out[i].content)
  {
    var i := Find(s.out, mid);
    assert Unlink(s.(script := script), i) == Unlink(s, i).(script := script);
  }

  lemma RetryFollows(s: State, now: Clock, oks: seq<bool>)
    requires |oks| == |RetrySends(s.out, s.retry, now.out) + RetrySends(s.inn, s.retry, now.inn)| && s.script == []
    ensures Follows(s, DoRetry(now), oks, Retry(s, now))
  {
    forall rest: seq<bool> ensures Retry(s.(script := oks + rest), now) == Retry(s, now).(script := rest) {
      assert DropScript(oks + rest, |oks|) == rest;
    }
  }

  /** The packets of the steps that send at most one. */
  function OneSend(s: State, e: Event): seq<Sent> {
    match e
    case DoPublish(c, now) =>
      if c.qos == 0 || HasRoom(s) then [SentPublish(c.(mid := NextMid(s.lastMid)), false)] else []
    case OnPubrec(mid, now) => if Find(s.out, mid) < |s.out| then [SentPubrel(mid)] else []
    case OnPublish(c, dup, now) =>
      if c.qos == 0 then [] else if c.qos == 1 then [SentPuback(c.mid)] else [SentPubrec(c.mid)]
    case OnPubrel(mid, flagsOk) => if flagsOk then [SentPubcomp(mid)] else []
    case _ => []
  }

  lemma OneWith(s: State, e: Event, oks: seq<bool>, rest: seq<bool>)
    requires !e.OnAck? && !e.DoRetry? && s.script == [] && |oks| == |OneSend(s, e)|
    ensures Step(s.(script := oks + rest), e) == Step(s, e).(script := rest)
  {
    if oks == [] {
      assert oks + rest == rest;
    } else {
      assert oks == [oks[0]];
      ScriptHead(oks[0], rest);
    }
  }

  lemma OneSent(s: State, e: Event)
    requires !e.OnAck? && !e.DoRetry? && s.script == []
    ensures Step(s, e).sent == s.sent + OneSend(s, e) && Step(s, e).script == []
  {
  }

  lemma OneFollows(s: State, e: Event, oks: seq<bool>)
    requires !e.OnAck? && !e.DoRetry? && s.script == [] && |oks| == |OneSend(s, e)|
    ensures Follows(s, e, oks, Step(s, e)) && Step(s, e).sent == s.sent + OneSend(s, e)
  {
    OneSent(s, e);
    forall rest: seq<bool> ensures Step(s.(script := oks + rest), e) == Step(s, e).(script := rest) {
      OneWith(s, e, oks, rest);
    }
  }

  // ---------------------------------------------------------------- fitting messages

  lemma RetryFits(ms: seq<Msg>, retry: nat, now: int)
    requires AllFit(ms)
    ensures forall p :: p in RetrySends(ms, retry, now) ==> SentFits(p)
  {
    if ms != [] { RetryFits(ms[..|ms| - 1], retry, now); }
  }

  lemma {:induction false} WaitingFits(ms: seq<Msg>, retry: nat, now: int)
    requires forall k :: 0 <= k < |ms| ==> ms[k].state == WaitPubrel
    ensures forall p :: p in RetrySends(ms, retry, now) ==> SentFits(p)
  {
    if ms == [] {
    } else {
      WaitingFits(ms[..|ms| - 1], retry, now);
    }
  }

  predicate EventFits(e: Event) {
    e.DoPublish? ==> Fits(e.c)
  }

  lemma UnlinkFits(s: State, i: nat)
    requires AllFit(s.out) && i < |s.out|
    ensures AllFit(Unlink(s, i).out)
  {
    var u := Unlink(s, i);
    assert forall k :: 0 <= k < |u.out| ==> u.out[k] == s.out[if k < i then k else k + 1];
  }

  lemma AckFits(s: State, mid: uint16)
    requires AllFit(s.out)
    ensures AllFit(Ack(s, mid).out)
  {
    AckContents(s, mid);
    var i := Find(s.out, mid);
    if i < |s.out| {
      ContentsFit(Unlink(s, i).out, Ack(s, mid).out) by { UnlinkFits(s, i); ContentsWithout(s.out, i); }
    } else {
      ContentsFit(s.out, Ack(s, mid).out);
    }
  }

  lemma ContentsFit(a: seq<Msg>, b: seq<Msg>)
    requires AllFit(a) && Contents(b) == Contents(a)
    ensures AllFit(b)
  {
    assert |a| == |b|;
    forall k | 0 <= k < |b| ensures Fits(b[k].content) {
      assert b[k].content == Contents(b)[k] == a[k].content;
    }
  }

  lemma StepFits(s: State, e: Event)
    requires AllFit(s.out) && EventFits(e)
    ensures AllFit(Step(s, e).out)
  {
    if e.OnAck? { AckFits(s, e.mid); }
  }

  // ---------------------------------------------------------------- sending

  /** The command byte of an acknowledgement. */
  function CommandOf(p: Sent): byte
    requires !p.SentPublish?
  {
    match p
    case SentPuback(_) => Wire.PUBACK
    case SentPubrec(_) => Wire.PUBREC
    case SentPubrel(_) => Wire.PUBREL + 2
    case SentPubcomp(_) => Wire.PUBCOMP
  }

  /** The packets of the queue, current or waiting. */
  ghost function Packets(sender: PacketWriter.Sender): set<PacketBuffer.Packet>
    reads sender
  {
    (set p | p in sender.nodes) + if sender.currentOutPacket == null then {} else {sender.currentOutPacket}
  }

  /** What the send functions say of the queue, said of its packets. */
  twostate lemma NewPackets(sender: PacketWriter.Sender)
    requires forall p :: p in sender.nodes ==> p in old(sender.nodes) || fresh(p)
    requires var p := sender.currentOutPacket;
             p == null || p == old(sender.currentOutPacket) || p in old(sender.nodes) || fresh(p)
    ensures fresh(Packets(sender) - old(Packets(sender)))
  {
    forall q | q in Packets(sender) ensures q in old(Packets(sender)) || fresh(q) {
      assert q in sender.nodes || q == sender.currentOutPacket;
    }
  }

  /** Hands a packet to the send function for its type. */
  method Transmit(sender: PacketWriter.Sender, p: Sent) returns (ok: bool, ghost item: Item)
    requires sender.Valid() && SentFits(p)
    modifies sender, Packets(sender)
    ensures sender.Valid() && sender.ledger.log == old(sender.ledger.log) + EntryOf(item)
    ensures ItemOk(item) && item == Wanted(p, old(sender.sockOpen), ok)
    ensures fresh(Packets(sender) - old(Packets(sender)))
  {
    var rc;
    ghost var open := sender.sockOpen;
    if p.SentPublish? {
      rc := sender.SendPublish(Message(p.content, p.dup));
    } else {
      rc := sender.SendCommandWithMid(CommandOf(p), p.mid);
    }
    ok := rc == PacketBuffer.Success;
    item := Wanted(p, open, ok);
    NewPackets(sender);
  }

  /** A PINGREQ or DISCONNECT. */
  method TransmitSimple(sender: PacketWriter.Sender, command: byte)
    requires sender.Valid()
    modifies sender, Packets(sender)
    ensures sender.Valid() && sender.ledger.log == old(sender.ledger.log) + EntryOf(Simple(command))
    ensures fresh(Packets(sender) - old(Packets(sender)))
  {
    var _ := sender.SendSimpleCommand(command);
    NewPackets(sender);
  }

  /** The queue of a new connection. */
  method ConnectAnew(sender: PacketWriter.Sender, socketOpens: bool, pendingConnect: bool, c: Wire.Connect)
    requires sender.Valid() && Wire.ConnectLength(c) < 0x8000_0000
    modifies sender, Packets(sender)
    ensures sender.Valid() && fresh(Packets(sender) - old(Packets(sender)))
    ensures socketOpens && Wire.ConnectLength(c) <= MAX_REMAINING && Wire.AllShort(c) ==>
              |sender.ledger.log| == 1
              && sender.ledger.log[0].bytes == EncodeRaw(Raw(Wire.CONNECT, Wire.ConnectBody(c)))
  {
    var _ := sender.Reconnect(socketOpens, pendingConnect, c);
  }

  /** What sending some packets has put behind the log. */
  ghost predicate Sends(log0: seq<PacketWriter.Queued>, log: seq<PacketWriter.Queued>, items: seq<Item>) {
    AllOk(items) && log == log0 + Entries(items)
  }

  lemma SendsFirst(
      log0: seq<PacketWriter.Queued>, log1: seq<PacketWriter.Queued>, log2: seq<PacketWriter.Queued>,
      item: Item, items: seq<Item>)
    requires ItemOk(item) && item.Wanted? && log1 == log0 + EntryOf(item) && Sends(log1, log2, items)
    ensures Sends(log0, log2, [item] + items)
    ensures SentOf([item] + items) == [item.packet] + SentOf(items) && OksOf([item] + items) == [item.ok] + OksOf(items)
  {
    EachCons(item, items, EntryOf);
    EachCons(item, items, PacketOf);
    EachCons(item, items, OkOf);
    Regroup(log0, EntryOf(item), Entries(items));
  }

  lemma SendsNone(log: seq<PacketWriter.Queued>, sent: seq<Sent>)
    ensures Sends(log, log, []) && sent == sent + SentOf([]) && OksOf([]) == []
  {
  }

  /** Several packets, one behind the other. What the sends return is not asked. */
  method TransmitAll(sender: PacketWriter.Sender, ps: seq<Sent>) returns (ghost items: seq<Item>)
    requires sender.Valid() && forall p :: p in ps ==> SentFits(p)
    modifies sender, Packets(sender)
    ensures sender.Valid() && Sends(old(sender.ledger.log), sender.ledger.log, items)
    ensures fresh(Packets(sender) - old(Packets(sender)))
    ensures SentOf(items) == ps && |OksOf(items)| == |ps|
    decreases |ps|, 1
  {
    if ps == [] {
      items := [];
    } else {
      items := TransmitFirst(sender, ps);
    }
  }

  method TransmitFirst(sender: PacketWriter.Sender, ps: seq<Sent>) returns (ghost items: seq<Item>)
    requires sender.Valid() && ps != [] && forall p :: p in ps ==> SentFits(p)
    modifies sender, Packets(sender)
    ensures sender.Valid() && Sends(old(sender.ledger.log), sender.ledger.log, items)
    ensures fresh(Packets(sender) - old(Packets(sender)))
    ensures SentOf(items) == ps && |OksOf(items)| == |ps|
    decreases |ps|, 0
  {
    var ok;
    ghost var item;
    ok, item := Transmit(sender, ps[0]);
    ghost var log1 := sender.ledger.log;
    items := TransmitAll(sender, ps[1..]);
    SendsFirst(old(sender.ledger.log), log1, sender.ledger.log, item, items);
    FirstTransmitted(ps, item, items);
    items := [item] + items;
  }

  lemma FirstTransmitted(ps: seq<Sent>, item: Item, items: seq<Item>)
    requires ps != [] && item.Wanted? && item.packet == ps[0]
    requires SentOf(items) == ps[1..] && |OksOf(items)| == |ps| - 1
    ensures SentOf([item] + items) == ps && |OksOf([item] + items)| == |ps|
  {
    EachCons(item, items, PacketOf);
    EachCons(item, items, OkOf);
    assert ps == [ps[0]] + ps[1..];
  }

  lemma FitsAt(ms: seq<Msg>, k: nat)
    requires AllFit(ms) && k < |ms|
    ensures Fits(ms[k].content)
  {
  }

  lemma StartFits(u: State, k: nat)
    requires AllFit(u.out) && k < |u.out|
    ensures AllFit(Start(u, k).out) && |Start(u, k).out| == |u.out|
    ensures Start(u, k).sent == u.sent + [SentPublish(u.out[k].content, u.out[k].dup)]
  {
  }

  /** Waiting messages from k on are started while there is room, until a send fails. */
  method PromoteRest(sender: PacketWriter.Sender, u: State, k: nat) returns (v: State, rc: Code, ghost items: seq<Item>)
    requires sender.Valid() && u.script == [] && AllFit(u.out)
    modifies sender, Packets(sender)
    ensures sender.Valid() && Sends(old(sender.ledger.log), sender.ledger.log, items)
    ensures fresh(Packets(sender) - old(Packets(sender)))
    ensures PromotedTo(u, k, OksOf(items), v, rc) && v.sent == u.sent + SentOf(items)
    decreases |u.out| - k, 2
  {
    if k >= |u.out| || !HasRoom(u) {
      v, rc, items := u, Success, [];
      PromotesNone(u, k);
      SendsNone(sender.ledger.log, u.sent);
    } else if u.out[k].state == Invalid && u.out[k].content.qos > 0 {
      v, rc, items := PromoteOne(sender, u, k);
    } else {
      v, rc, items := PromoteRest(sender, u, k + 1);
      PromotesSkip(u, k, OksOf(items), v, rc);
    }
  }

  method PromoteOne(sender: PacketWriter.Sender, u: State, k: nat) returns (v: State, rc: Code, ghost items: seq<Item>)
    requires sender.Valid() && u.script == [] && AllFit(u.out)
    requires k < |u.out| && HasRoom(u) && u.out[k].state == Invalid && u.out[k].content.qos > 0
    modifies sender, Packets(sender)
    ensures sender.Valid() && Sends(old(sender.ledger.log), sender.ledger.log, items)
    ensures fresh(Packets(sender) - old(Packets(sender)))
    ensures PromotedTo(u, k, OksOf(items), v, rc) && v.sent == u.sent + SentOf(items)
    decreases |u.out| - k, 1
  {
    FitsAt(u.out, k);
    StartFits(u, k);
    var ok;
    ghost var item;
    ok, item := Transmit(sender, SentPublish(u.out[k].content, u.out[k].dup));
    ghost var log1 := sender.ledger.log;
    v, rc, items := PromoteOn(sender, u, k, ok);
    SendsFirst(old(sender.ledger.log), log1, sender.ledger.log, item, items);
    PromotedOne(u, k, item, v, rc, items);
    items := [item] + items;
  }

  /** Behind a send that failed the loop ends. */
  method PromoteOn(sender: PacketWriter.Sender, u: State, k: nat, ok: bool)
    returns (v: State, rc: Code, ghost items: seq<Item>)
    requires sender.Valid() && k < |u.out| && u.script == [] && AllFit(Start(u, k).out) && |Start(u, k).out| == |u.out|
    modifies sender, Packets(sender)
    ensures sender.Valid() && Sends(old(sender.ledger.log), sender.ledger.log, items)
    ensures fresh(Packets(sender) - old(Packets(sender)))
    ensures v.sent == Start(u, k).sent + SentOf(items)
    ensures if ok then PromotedTo(Start(u, k), k + 1, OksOf(items), v, rc)
            else v == Start(u, k) && rc == SendFailed && items == []
    decreases |u.out| - k, 0
  {
    if ok {
      v, rc, items := PromoteRest(sender, Start(u, k), k + 1);
    } else {
      v, rc, items := Start(u, k), SendFailed, [];
    }
  }

  lemma PromotedOne(u: State, k: nat, item: Item, v: State, rc: Code, items: seq<Item>)
    requires k < |u.out| && HasRoom(u) && u.out[k].state == Invalid && u.out[k].content.qos > 0 && u.script == []
    requires item.Wanted? && item.packet == SentPublish(u.out[k].content, u.out[k].dup)
    requires v.sent == Start(u, k).sent + SentOf(items)
    requires if item.ok then PromotedTo(Start(u, k), k + 1, OksOf(items), v, rc)
             else v == Start(u, k) && rc == SendFailed && items == []
    ensures PromotedTo(u, k, OksOf([item] + items), v, rc) && v.sent == u.sent + SentOf([item] + items)
  {
    EachCons(item, items, PacketOf);
    EachCons(item, items, OkOf);
    assert u.sent + ([item.packet] + SentOf(items)) == u.sent + [item.packet] + SentOf(items);
    if item.ok {
      PromotesStart(u, k, OksOf(items), v, rc);
    } else {
      assert [false] + OksOf(items) == [false];
      PromotesFails(u, k);
    }
  }

  /** One step of the engine, with its sends. */
  method PerformStep(sender: PacketWriter.Sender, s: State, e: Event) returns (s': State, ghost items: seq<Item>)
    requires sender.Valid() && s.script == [] && AllFit(s.out) && InnWaits(s) && EventFits(e)
    modifies sender, Packets(sender)
    ensures sender.Valid() && Sends(old(sender.ledger.log), sender.ledger.log, items)
    ensures fresh(Packets(sender) - old(Packets(sender)))
    ensures Follows(s, e, OksOf(items), s') && s'.sent == s.sent + SentOf(items)
  {
    if e.OnAck? {
      s', items := PerformAck(sender, s, e.mid);
    } else if e.DoRetry? {
      RetryFits(s.out, s.retry, e.at.out);
      WaitingFits(s.inn, s.retry, e.at.inn);
      items := TransmitAll(sender, RetrySends(s.out, s.retry, e.at.out) + RetrySends(s.inn, s.retry, e.at.inn));
      s' := Retry(s, e.at);
      RetryFollows(s, e.at, OksOf(items));
    } else {
      items := TransmitAll(sender, OneSend(s, e));
      s' := Step(s, e);
      OneFollows(s, e, OksOf(items));
    }
  }

  lemma NothingFollows(s: State, mid: uint16)
    requires s.script == [] && Find(s.out, mid) == |s.out|
    ensures Follows(s, OnAck(mid), [], s)
  {
    forall rest: seq<bool> ensures Step(s.(script := [] + rest), OnAck(mid)) == s.(script := rest) {
      NothingWith(s, mid, rest);
    }
  }

  lemma NothingWith(s: State, mid: uint16, rest: seq<bool>)
    requires Find(s.out, mid) == |s.out|
    ensures Step(s.(script := [] + rest), OnAck(mid)) == s.(script := rest)
  {
    assert [] + rest == rest;
  }

  method PerformAck(sender: PacketWriter.Sender, s: State, mid: uint16) returns (s': State, ghost items: seq<Item>)
    requires sender.Valid() && s.script == [] && AllFit(s.out)
    modifies sender, Packets(sender)
    ensures sender.Valid() && Sends(old(sender.ledger.log), sender.ledger.log, items)
    ensures fresh(Packets(sender) - old(Packets(sender)))
    ensures Follows(s, OnAck(mid), OksOf(items), s') && s'.sent == s.sent + SentOf(items)
  {
    var i := Find(s.out, mid);
    if i == |s.out| {
      s', items := s, [];
      NothingFollows(s, mid);
    } else {
      UnlinkFits(s, i);
      var v, rc;
      v, rc, items := PromoteRest(sender, Unlink(s, i), 0);
      s' := Settled(v, rc, s.out[i].content);
      AckFollows(s, mid, OksOf(items), v, rc);
    }
  }

  // ---------------------------------------------------------------- engine and sender together

  /** What is known of the engine behind some events: it is where its run has led it when its
      sends return `oks`, and has used all of them. */
  ghost predicate RunsTo(max: nat, retry: nat, events: seq<Event>, oks: seq<bool>, s: State) {
    && s.script == [] && AllFit(s.out) && InnWaits(s)
    && forall rest: seq<bool> :: Run(Initial(max, retry, oks + rest), events) == s.(script := rest)
  }

  lemma RunsNowhere(max: nat, retry: nat)
    ensures RunsTo(max, retry, [], [], Initial(max, retry, []))
  {
    forall rest: seq<bool> ensures Run(Initial(max, retry, [] + rest), []) == Initial(max, retry, []).(script := rest) {
      assert [] + rest == rest;
    }
  }

  lemma RunsOn(max: nat, retry: nat, events: seq<Event>, oks: seq<bool>, s: State, e: Event, more: seq<bool>, s': State)
    requires RunsTo(max, retry, events, oks, s) && Follows(s, e, more, s') && EventFits(e)
    ensures RunsTo(max, retry, events + [e], oks + more, s')
  {
    StepKeepsAll(s, e, more, s');
    forall rest: seq<bool>
      ensures Run(Initial(max, retry, oks + more + rest), events + [e]) == s'.(script := rest)
    {
      RunsAt(max, retry, events, oks, s, more + rest);
      FollowsAt(s, e, more, s', rest);
      Regroup(oks, more, rest);
      OneMore(Initial(max, retry, oks + more + rest), events, e, s.(script := more + rest), s'.(script := rest));
    }
  }

  lemma RunsAt(max: nat, retry: nat, events: seq<Event>, oks: seq<bool>, s: State, rest: seq<bool>)
    requires RunsTo(max, retry, events, oks, s)
    ensures Run(Initial(max, retry, oks + rest), events) == s.(script := rest)
  {
  }

  lemma FollowsAt(s: State, e: Event, oks: seq<bool>, s': State, rest: seq<bool>)
    requires Follows(s, e, oks, s')
    ensures Step(s.(script := oks + rest), e) == s'.(script := rest)
  {
  }

  lemma OneMore(s0: State, events: seq<Event>, e: Event, s1: State, s2: State)
    requires Run(s0, events) == s1 && Step(s1, e) == s2
    ensures Run(s0, events + [e]) == s2
  {
    RunSnoc(s0, events, e);
  }

  lemma StepKeepsAll(s: State, e: Event, oks: seq<bool>, s': State)
    requires AllFit(s.out) && InnWaits(s) && Follows(s, e, oks, s') && EventFits(e)
    ensures AllFit(s'.out) && InnWaits(s')
  {
    var s1 := s.(script := oks + []);
    assert Step(s1, e) == s'.(script := []);
    StepFits(s1, e);
    StepInnWaits(s1, e);
  }

  /** What has happened: the events so far, and what all their sends returned; and since the
      last connect, the CONNECT queued, the items behind it, and what the engine had sent
      before. */
  datatype Book = Book(
    events: seq<Event>, oks: seq<bool>, connect: seq<PacketWriter.Queued>, items: seq<Item>, sentBefore: seq<Sent>)

  /** The log holds the CONNECT and the items; those of the engine are what it has sent since;
      and its state is that of the run with these results. */
  ghost predicate Kept(max: nat, retry: nat, b: Book, log: seq<PacketWriter.Queued>, s: State) {
    && Sends(b.connect, log, b.items)
    && RunsTo(max, retry, b.events, b.oks, s) && s.sent == b.sentBefore + SentOf(b.items)
  }

  function Recorded(b: Book, e: Event, more: seq<Item>): Book {
    b.(events := b.events + [e], oks := b.oks + OksOf(more), items := b.items + more)
  }

  lemma KeptOn(
      max: nat, retry: nat, b: Book, log: seq<PacketWriter.Queued>, s: State, e: Event,
      more: seq<Item>, log': seq<PacketWriter.Queued>, s': State)
    requires Kept(max, retry, b, log, s) && Sends(log, log', more)
    requires Follows(s, e, OksOf(more), s') && s'.sent == s.sent + SentOf(more) && EventFits(e)
    ensures Kept(max, retry, Recorded(b, e, more), log', s')
  {
    SendsOn(b.connect, log, log', b.items, more);
    SentOn(b.sentBefore, b.items, more);
    RunsOn(max, retry, b.events, b.oks, s, e, OksOf(more), s');
  }

  lemma SendsOn(
      log0: seq<PacketWriter.Queued>, log1: seq<PacketWriter.Queued>, log2: seq<PacketWriter.Queued>,
      a: seq<Item>, b: seq<Item>)
    requires Sends(log0, log1, a) && Sends(log1, log2, b)
    ensures Sends(log0, log2, a + b)
  {
    EachConcat(a, b, EntryOf);
    Regroup(log0, Entries(a), Entries(b));
    AllOkConcat(a, b);
  }

  lemma Regroup<T>(a: seq<T>, b: seq<T>, c: seq<T>)
    ensures a + b + c == a + (b + c)
  {
  }

  lemma AllOkConcat(a: seq<Item>, b: seq<Item>)
    requires AllOk(a) && AllOk(b)
    ensures AllOk(a + b)
  {
  }

  lemma SentOn(before: seq<Sent>, a: seq<Item>, b: seq<Item>)
    ensures before + SentOf(a) + SentOf(b) == before + SentOf(a + b)
  {
    EachConcat(a, b, PacketOf);
    Regroup(before, SentOf(a), SentOf(b));
  }

  function Reconnected(b: Book, connect: seq<PacketWriter.Queued>, sent: seq<Sent>): Book {
    Book(b.events + [DoReset], b.oks, connect, [], sent)
  }

  lemma KeptReset(
      max: nat, retry: nat, b: Book, log: seq<PacketWriter.Queued>, s: State, connect: seq<PacketWriter.Queued>)
    requires Kept(max, retry, b, log, s)
    ensures Kept(max, retry, Reconnected(b, connect, s.sent), connect, Reset(s)) && Reset(s).sent == s.sent
  {
    OneFollows(s, DoReset, []);
    RunsOn(max, retry, b.events, b.oks, s, DoReset, [], Reset(s));
    assert b.oks + [] == b.oks;
  }

  function Added(b: Book, command: byte): Book {
    b.(items := b.items + [Simple(command)])
  }

  lemma KeptSimple(
      max: nat, retry: nat, b: Book, log: seq<PacketWriter.Queued>, s: State, command: byte,
      log': seq<PacketWriter.Queued>)
    requires Kept(max, retry, b, log, s) && ItemOk(Simple(command)) && log' == log + EntryOf(Simple(command))
    ensures Kept(max, retry, Added(b, command), log', s)
  {
    var more := [Simple(command)];
    assert more == more + [];
    EachCons(Simple(command), [], EntryOf);
    EachCons(Simple(command), [], PacketOf);
    SendsOn(b.connect, log, log', b.items, more);
    SentOn(b.sentBefore, b.items, more);
  }

  lemma KeptFirst(max: nat, retry: nat)
    ensures Kept(max, retry, Book([], [], [], [], []), [], Initial(max, retry, []))
  {
    RunsNowhere(max, retry);
  }

  /** A client with its output queue. */
  class Endpoint {
    const sender: PacketWriter.Sender
    const max: nat
    const retry: nat
    var s: State
    ghost var book: Book

    ghost predicate Valid()
      reads this, sender, sender.nodes, sender.currentOutPacket
      reads set p: PacketBuffer.Packet | p in sender.nodes :: p.payload
      reads if sender.currentOutPacket == null then null else sender.currentOutPacket.payload
    {
      sender.Valid() && Kept(max, retry, book, sender.ledger.log, s)
    }

    constructor (max: nat, retry: nat, threaded: bool, grants: seq<PacketWriter.Grant>)
      ensures Valid() && book.events == [] && book.oks == [] && this.max == max && this.retry == retry
      ensures fresh(sender) && Packets(sender) == {}
    {
      sender := new PacketWriter.Sender(threaded, grants);
      this.max, this.retry := max, retry;
      s, book := Initial(max, retry, []), Book([], [], [], [], []);
      KeptFirst(max, retry);
    }

    method Record(s': State, ghost b: Book)
      requires sender.Valid() && Kept(max, retry, b, sender.ledger.log, s')
      modifies this
      ensures Valid() && s == s' && book == b
    {
      s, book := s', b;
    }

    /** Any event but a reconnect. */
    method Perform(e: Event)
      requires Valid() && EventFits(e) && e != DoReset
      modifies this, sender, Packets(sender)
      ensures Valid() && exists more :: book == Recorded(old(book), e, more)
      ensures fresh(Packets(sender) - old(Packets(sender)))
    {
      ghost var log := sender.ledger.log;
      var s';
      ghost var more;
      s', more := PerformStep(sender, s, e);
      KeptOn(max, retry, book, log, s, e, more, sender.ledger.log, s');
      Record(s', Recorded(book, e, more));
    }

    /** A reconnect: the queue is drained, the engine reset, and a CONNECT queued. */
    method Reconnect(socketOpens: bool, pendingConnect: bool, c: Wire.Connect)
      requires Valid() && Wire.ConnectLength(c) < 0x8000_0000
      modifies this, sender, Packets(sender)
      ensures Valid() && book == Reconnected(old(book), sender.ledger.log, s.sent) && s == Reset(old(s))
      ensures fresh(Packets(sender) - old(Packets(sender)))
      ensures socketOpens && Wire.ConnectLength(c) <= MAX_REMAINING && Wire.AllShort(c) ==>
                |book.connect| == 1 && book.connect[0].bytes == EncodeRaw(Raw(Wire.CONNECT, Wire.ConnectBody(c)))
    {
      ghost var log := sender.ledger.log;
      ConnectAnew(sender, socketOpens, pendingConnect, c);
      KeptReset(max, retry, book, log, s, sender.ledger.log);
      Record(Reset(s), Reconnected(book, sender.ledger.log, s.sent));
    }

    /** A PINGREQ or DISCONNECT. */
    method Simple(command: byte)
      requires Valid() && (command == Wire.PINGREQ || command == Wire.DISCONNECT)
      modifies this, sender, Packets(sender)
      ensures Valid() && s == old(s) && book == Added(old(book), command)
      ensures fresh(Packets(sender) - old(Packets(sender)))
    {
      ghost var log := sender.ledger.log;
      TransmitSimple(sender, command);
      KeptSimple(max, retry, book, log, s, command, sender.ledger.log);
      Record(s, Added(book, command));
    }

    /** The engine is where its run with these results is; since the last connect the queue has had
        the CONNECT, and what the engine sent, in order, with the PINGREQ and DISCONNECT packets
        between, but for PUBLISH packets that were refused, the only ones, whose send failed. */
    lemma Accounts()
      requires Valid()
      ensures s == Run(Initial(max, retry, book.oks), book.events) && s.sent == book.sentBefore + SentOf(book.items)
      ensures sender.ledger.log == book.connect + Entries(book.items)
      ensures forall k :: 0 <= k < |book.items| && book.items[k].Wanted? ==>
                var item := book.items[k];
                && (IsQueued(item) <==> EntryOf(item) != [])
                && (!IsQueued(item) ==> item.packet.SentPublish? && !item.ok)
    {
      RunsAt(max, retry, book.events, book.oks, s, []);
      assert book.oks + [] == book.oks;
      assert forall k :: 0 <= k < |book.items| ==> ItemOk(book.items[k]);
    }

    /** The linked lists, run through the same events with the results these sends had, are in
        the state of this engine. */
    method Lists(events: seq<Event>, oks: seq<bool>) returns (client: MessageLists.Client)
      requires Valid() && events == book.events && oks == book.oks
      requires Execution.NeverStale(Initial(max, retry, oks), events)
      ensures client.Valid() && client.View() == s
    {
      RunsAt(max, retry, events, oks, s, []);
      assert oks + [] == oks;
      var done;
      client, done := Execution.Execute(max, retry, oks, events);
    }
  }

  // ---------------------------------------------------------------- runs

  /** What happens to a client: an event, a reconnect, or a PINGREQ or DISCONNECT. */
  datatype Act =
    | Happens(e: Event)
    | Connect(socketOpens: bool, pending: bool, connect: Wire.Connect)
    | Command(command: byte)

  predicate ActFits(a: Act) {
    match a
    case Happens(e) => EventFits(e) && e != DoReset
    case Connect(opens, pending, c) => Wire.ConnectLength(c) < 0x8000_0000
    case Command(command) => command == Wire.PINGREQ || command == Wire.DISCONNECT
  }

  function EventsOf(acts: seq<Act>): seq<Event> {
    if acts == [] then []
    else
      EventsOf(acts[..|acts| - 1]) +
      match acts[|acts| - 1]
      case Happens(e) => [e]
      case Connect(_, _, _) => [DoReset]
      case Command(_) => []
  }

  lemma EventsNext(acts: seq<Act>, n: nat)
    requires n < |acts|
    ensures EventsOf(acts[..n + 1]) == EventsOf(acts[..n]) + EventsOf([acts[n]])
  {
    assert acts[..n + 1][..n] == acts[..n] && [acts[n]][..0] == [];
  }

  method PerformAct(endpoint: Endpoint, a: Act)
    requires endpoint.Valid() && ActFits(a)
    modifies endpoint, endpoint.sender, Packets(endpoint.sender)
    ensures endpoint.Valid() && endpoint.book.events == old(endpoint.book.events) + EventsOf([a])
    ensures fresh(Packets(endpoint.sender) - old(Packets(endpoint.sender)))
  {
    assert [a][..0] == [];
    match a {
      case Happens(e) => endpoint.Perform(e);
      case Connect(opens, pending, c) => endpoint.Reconnect(opens, pending, c);
      case Command(command) => endpoint.Simple(command);
    }
  }

  /** Through any sequence of them, a client is in a state for which `Accounts` holds. */
  method Execute(max: nat, retry: nat, threaded: bool, grants: seq<PacketWriter.Grant>, acts: seq<Act>)
    returns (endpoint: Endpoint)
    requires forall k :: 0 <= k < |acts| ==> ActFits(acts[k])
    ensures endpoint.Valid() && endpoint.book.events == EventsOf(acts) && endpoint.max == max && endpoint.retry == retry
  {
    endpoint := new Endpoint(max, retry, threaded, grants);
    PerformFrom(endpoint, acts, 0);
    assert acts[..|acts|] == acts;
  }

  /** The acts from the n-th on. */
  method PerformFrom(endpoint: Endpoint, acts: seq<Act>, n: nat)
    requires n <= |acts| && forall k :: 0 <= k < |acts| ==> ActFits(acts[k])
    requires endpoint.Valid() && endpoint.book.events == EventsOf(acts[..n])
    modifies endpoint, endpoint.sender, Packets(endpoint.sender)
    ensures endpoint.Valid() && endpoint.book.events == EventsOf(acts[..|acts|])
    decreases |acts| - n
  {
    if n < |acts| {
      EventsNext(acts, n);
      PerformAct(endpoint, acts[n]);
      PerformFrom(endpoint, acts, n + 1);
    }
  }

  // ---------------------------------------------------------------- at the other end

  /** The message a PUBLISH in the queue carries: for QoS 0 the id is not sent. */
  function MessageIn(item: Item): seq<Wire.Publish> {
    if item.Wanted? && item.packet.SentPublish? && IsQueued(item) then
      var m := Message(item.packet.content, item.packet.dup);
      [if m.qos == 0 then m.(mid := 0) else m]
    else []
  }

  function OutgoingOf(item: Item): seq<EndToEnd.Outgoing> {
    match item
    case Wanted(p, open, ok) =>
      if !IsQueued(item) then []
      else if p.SentPublish? then [EndToEnd.Message(MessageIn(item)[0])]
      else [EndToEnd.Command(RawOf(p))]
    case Simple(command) => [EndToEnd.Command(Raw(command, []))]
  }

  lemma PairedConcat(
      log1: seq<PacketWriter.Queued>, os1: seq<EndToEnd.Outgoing>,
      log2: seq<PacketWriter.Queued>, os2: seq<EndToEnd.Outgoing>)
    requires EndToEnd.Paired(log1, os1) && EndToEnd.Paired(log2, os2)
    ensures EndToEnd.Paired(log1 + log2, os1 + os2)
  {
  }

  lemma PairedItem(item: Item)
    requires ItemOk(item)
    ensures EndToEnd.Paired(EntryOf(item), OutgoingOf(item))
  {
    if item.Wanted? && item.packet.SentPublish? && IsQueued(item) {
      var m := Message(item.packet.content, item.packet.dup);
      assert Wire.PublishRaw(m.(mid := 0)) == Wire.PublishRaw(m) || m.qos > 0;
    }
  }

  lemma {:induction false} PairedItems(items: seq<Item>)
    requires AllOk(items)
    ensures EndToEnd.Paired(Entries(items), Each(items, OutgoingOf))
  {
    if items == [] {
    } else {
      PairedItem(items[0]);
      PairedItems(items[1..]);
      PairedConcat(EntryOf(items[0]), OutgoingOf(items[0]), Entries(items[1..]), Each(items[1..], OutgoingOf));
    }
  }

  lemma {:induction false} MessagesConcat(a: seq<EndToEnd.Outgoing>, b: seq<EndToEnd.Outgoing>)
    ensures EndToEnd.MessagesIn(a + b) == EndToEnd.MessagesIn(a) + EndToEnd.MessagesIn(b)
  {
    if b == [] {
      assert a + b == a;
    } else {
      assert (a + b)[..|a + b| - 1] == a + b[..|b| - 1];
      MessagesConcat(a, b[..|b| - 1]);
    }
  }

  lemma {:induction false} MessagesOfItems(items: seq<Item>)
    ensures EndToEnd.MessagesIn(Each(items, OutgoingOf)) == Each(items, MessageIn)
  {
    if items == [] {
    } else {
      MessagesOfItems(items[1..]);
      MessagesConcat(OutgoingOf(items[0]), Each(items[1..], OutgoingOf));
      assert [OutgoingOf(items[0])][0] == OutgoingOf(items[0]);
    }
  }

  /** From the engine of one client to the PUBLISH handler of another: a reader that has taken
      some of the bytes written has found the first of the messages the engine has sent since
      the connect and that were not refused, in order; and all of them once all bytes are
      through. */
  lemma Received(e: Endpoint, r: PacketReader.Reader, c: Wire.Connect)
    requires e.Valid() && r.Valid() && r.sockOpen && r.Consumed() <= e.sender.wire
    requires |e.book.connect| == 1 && |Wire.ConnectBody(c)| <= MAX_REMAINING
    requires e.book.connect[0].bytes == EncodeRaw(Raw(Wire.CONNECT, Wire.ConnectBody(c)))
    ensures e.s.sent == e.book.sentBefore + SentOf(e.book.items)
    ensures r.messages <= Each(e.book.items, MessageIn)
    ensures r.Consumed() == PacketWriter.Flatten(e.sender.ledger.log) ==> r.messages == Each(e.book.items, MessageIn)
  {
    var first := [EndToEnd.Command(Raw(Wire.CONNECT, Wire.ConnectBody(c)))];
    var os := first + Each(e.book.items, OutgoingOf);
    PairedItems(e.book.items);
    PairedConcat(e.book.connect, first, Entries(e.book.items), Each(e.book.items, OutgoingOf));
    EndToEnd.Delivered(e.sender, r, os);
    MessagesConcat(first, Each(e.book.items, OutgoingOf));
    MessagesOfItems(e.book.items);
  }
}
