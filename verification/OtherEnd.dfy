/** What the packets on the wire mean at the other end, and which ids are reported at this one. The
    reader here goes by the numbers and places of the standard, not by the constants and layouts
    of the writers. */
module OtherEnd {
  import opened Codec
  import opened Engine
  import Wire
  import PacketReader
  import PacketWriter
  import EndToEnd
  import opened Connection

  // ---------------------------------------------------------------- by the numbers

  /** The handlers of read_handle.c. */
  datatype Handler =
    | Connack | Publish | Pubackcomp | Pubrec | Pubrel | Suback | Unsuback | Pingreq | Pingresp
    | NoHandler

  /** The switch of _mosquitto_packet_handle on the upper four bits. */
  function HandlerFor(command: byte): Handler {
    match command / 16 * 16
    case 0x20 => Connack
    case 0x30 => Publish
    case 0x40 => Pubackcomp
    case 0x50 => Pubrec
    case 0x60 => Pubrel
    case 0x70 => Pubackcomp
    case 0x90 => Suback
    case 0xB0 => Unsuback
    case 0xC0 => Pingreq
    case 0xD0 => Pingresp
    case _ => NoHandler
  }

  /** The reader refuses exactly the types without a handler. */
  lemma KnownExactly(command: byte)
    ensures PacketReader.KnownCommand(command) <==> HandlerFor(command) != NoHandler
  {
    var kind := command / 16;
    assert kind <= 15;
  }

  /** A packet as read: a CONNECT, one the engine sends, a PINGREQ or a DISCONNECT. */
  datatype Read = Hello(c: Wire.Connect) | FromEngine(p: Sent) | Ping | Bye

  /** The packet id of an acknowledgement: two bytes, the high one first, and nothing else. */
  function IdIn(body: seq<byte>): Option<uint16> {
    if |body| != 2 then None else Some((body[0] as int) * 256 + body[1] as int)
  }

  /** The types of section 2.2.1 of MQTT 3.1.1, with the reserved flags of section 2.2.2: those of a
      PUBREL are 2, those of the others 0. */
  function ReadPacket(p: Raw): seq<Read> {
    match p.command
    case 0x10 => (match Wire.ParseConnect(p) case None => [] case Some(c) => [Hello(c)])
    case 0x40 => (match IdIn(p.body) case None => [] case Some(mid) => [FromEngine(SentPuback(mid))])
    case 0x50 => (match IdIn(p.body) case None => [] case Some(mid) => [FromEngine(SentPubrec(mid))])
    case 0x62 => (match IdIn(p.body) case None => [] case Some(mid) => [FromEngine(SentPubrel(mid))])
    case 0x70 => (match IdIn(p.body) case None => [] case Some(mid) => [FromEngine(SentPubcomp(mid))])
    case 0xC0 => if p.body == [] then [Ping] else []
    case 0xE0 => if p.body == [] then [Bye] else []
    case _ => if p.command / 16 == 3 then ReadMessage(p) else []
  }

  function ReadMessage(p: Raw): seq<Read> {
    match Wire.DecodePublish(p)
    case None => []
    case Some(m) => [FromEngine(SentPublish(Content(m.mid, m.topic, m.payload, m.qos, m.retain), m.dup))]
  }

  function AllOf<T>(ps: seq<Raw>, of: Raw -> seq<T>): seq<T> {
    if ps == [] then [] else AllOf(ps[..|ps| - 1], of) + of(ps[|ps| - 1])
  }

  function ReadAll(ps: seq<Raw>): seq<Read> {
    AllOf(ps, ReadPacket)
  }

  lemma {:induction false} AllConcat<T>(a: seq<Raw>, b: seq<Raw>, of: Raw -> seq<T>)
    ensures AllOf(a + b, of) == AllOf(a, of) + AllOf(b, of)
  {
    if b == [] {
      assert a + b == a;
    } else {
      assert (a + b)[..|a + b| - 1] == a + b[..|b| - 1];
      AllConcat(a, b[..|b| - 1], of);
    }
  }

  lemma AllOne<T>(p: Raw, of: Raw -> seq<T>)
    ensures AllOf([p], of) == of(p)
  {
    assert AllOf([p][..0], of) == [];
  }

  lemma ReadOne(p: Raw)
    ensures ReadAll([p]) == ReadPacket(p)
  {
    AllOne(p, ReadPacket);
  }

  // ---------------------------------------------------------------- what an item says

  /** What is read of an item: a packet that was queued, as it was sent. A message of QoS 0 has no
      id on the wire. */
  function Seen(item: Item): seq<Read> {
    match item
    case Wanted(p, open, ok) =>
      if !IsQueued(item) then []
      else if p.SentPublish? && p.content.qos == 0 then [FromEngine(p.(content := p.content.(mid := 0)))]
      else [FromEngine(p)]
    case Simple(command) => if command == Wire.PINGREQ then [Ping] else [Bye]
  }

  function RawIn(item: Item): seq<Raw> {
    match item
    case Wanted(p, open, ok) => if IsQueued(item) then [RawOf(p)] else []
    case Simple(command) => [Raw(command, [])]
  }

  lemma AckRead(p: Sent)
    requires !p.SentPublish?
    ensures ReadPacket(RawOf(p)) == [FromEngine(p)]
  {
    assert IdIn(RawOf(p).body) == Some(p.mid);
  }

  lemma MessageRead(c: Content, dup: bool)
    requires SentFits(SentPublish(c, dup)) && SizeOk(SentPublish(c, dup))
    ensures ReadPacket(Wire.PublishRaw(Message(c, dup)))
         == [FromEngine(SentPublish(if c.qos == 0 then c.(mid := 0) else c, dup))]
  {
    var m := Message(c, dup);
    var sent := if c.qos == 0 then m.(mid := 0) else m;
    assert Wire.PublishRaw(sent) == Wire.PublishRaw(m);
    Wire.PublishRoundTrip(sent);
    Wire.HeaderBits(m);
  }

  /** The other end reads back each packet as the engine sent it. */
  lemma ItemRead(item: Item)
    requires ItemOk(item)
    ensures ReadAll(RawIn(item)) == Seen(item)
  {
    match item
    case Wanted(p, open, ok) =>
      if IsQueued(item) {
        ReadOne(RawOf(p));
        if p.SentPublish? { MessageRead(p.content, p.dup); } else { AckRead(p); }
      }
    case Simple(command) => ReadOne(Raw(command, []));
  }

  lemma {:induction false} ItemsRead(items: seq<Item>)
    requires AllOk(items)
    ensures ReadAll(Each(items, RawIn)) == Each(items, Seen)
  {
    if items == [] {
    } else {
      ItemRead(items[0]);
      ItemsRead(items[1..]);
      AllConcat(RawIn(items[0]), Each(items[1..], RawIn), ReadPacket);
    }
  }

  lemma RawsOfOne(item: Item)
    requires ItemOk(item)
    ensures EndToEnd.RawsOf(OutgoingOf(item)) == RawIn(item)
  {
    if item.Wanted? && item.packet.SentPublish? && IsQueued(item) {
      var m := Message(item.packet.content, item.packet.dup);
      assert m.qos == 0 ==> Wire.PublishRaw(m.(mid := 0)) == Wire.PublishRaw(m);
    }
  }

  lemma {:induction false} RawsOfItems(items: seq<Item>)
    requires AllOk(items)
    ensures EndToEnd.RawsOf(Each(items, OutgoingOf)) == Each(items, RawIn)
  {
    if items == [] {
    } else {
      RawsOfOne(items[0]);
      RawsOfItems(items[1..]);
      var (a, b) := (OutgoingOf(items[0]), Each(items[1..], OutgoingOf));
      assert EndToEnd.RawsOf(a + b) == EndToEnd.RawsOf(a) + EndToEnd.RawsOf(b);
    }
  }

  lemma ReadFront(a: seq<Raw>, b: seq<Raw>)
    requires a <= b
    ensures ReadAll(a) <= ReadAll(b)
  {
    assert b == a + b[|a|..];
    AllConcat(a, b[|a|..], ReadPacket);
  }

  // ---------------------------------------------------------------- at the other end

  /** What an endpoint has queued since its CONNECT. */
  function Outgoings(connect: Wire.Connect, items: seq<Item>): seq<EndToEnd.Outgoing> {
    [EndToEnd.Command(Raw(Wire.CONNECT, Wire.ConnectBody(connect)))] + Each(items, OutgoingOf)
  }

  /** The queue begins with the CONNECT of c, which is whole. */
  ghost predicate Greets(e: Endpoint, c: Wire.Connect)
    reads e
  {
    && |e.book.connect| == 1 && |Wire.ConnectBody(c)| <= MAX_REMAINING && Wire.AllShort(c)
    && e.book.connect[0].bytes == EncodeRaw(Raw(Wire.CONNECT, Wire.ConnectBody(c)))
  }

  lemma LogPaired(e: Endpoint, c: Wire.Connect)
    requires e.Valid() && Greets(e, c)
    ensures EndToEnd.Paired(e.sender.ledger.log, Outgoings(c, e.book.items)) && AllOk(e.book.items)
  {
    var first := [EndToEnd.Command(Raw(Wire.CONNECT, Wire.ConnectBody(c)))];
    PairedItems(e.book.items);
    PairedConcat(e.book.connect, first, Entries(e.book.items), Each(e.book.items, OutgoingOf));
  }

  lemma HelloRead(c: Wire.Connect)
    requires Wire.AllShort(c)
    ensures ReadAll([Raw(Wire.CONNECT, Wire.ConnectBody(c))]) == [Hello(c.(password := Wire.SentPassword(c)))]
  {
    Wire.ConnectRoundTrip(c);
    ReadOne(Raw(Wire.CONNECT, Wire.ConnectBody(c)));
  }

  lemma RawsOfOutgoings(c: Wire.Connect, items: seq<Item>)
    requires AllOk(items)
    ensures EndToEnd.RawsOf(Outgoings(c, items)) == [Raw(Wire.CONNECT, Wire.ConnectBody(c))] + Each(items, RawIn)
  {
    RawsOfItems(items);
    var os := Each(items, OutgoingOf);
    assert EndToEnd.RawsOf(Outgoings(c, items))[1..] == EndToEnd.RawsOf(os);
  }

  lemma OutgoingsRead(c: Wire.Connect, items: seq<Item>)
    requires AllOk(items) && Wire.AllShort(c)
    ensures ReadAll(EndToEnd.RawsOf(Outgoings(c, items)))
         == [Hello(c.(password := Wire.SentPassword(c)))] + Each(items, Seen)
  {
    var hello := Raw(Wire.CONNECT, Wire.ConnectBody(c));
    HelloRead(c);
    ItemsRead(items);
    RawsOfOutgoings(c, items);
    AllConcat([hello], Each(items, RawIn), ReadPacket);
  }

  /** A reader that has taken some of the bytes written has been given the CONNECT and then the
      packets the engine sent since, each of its type and with its id, in order, and the PINGREQ
      and DISCONNECT packets between; and all of them once all bytes are through. */
  lemma AllReceived(e: Endpoint, r: PacketReader.Reader, c: Wire.Connect)
    requires e.Valid() && Greets(e, c) && r.Valid() && r.sockOpen && r.Consumed() <= e.sender.wire
    ensures e.s.sent == e.book.sentBefore + SentOf(e.book.items)
    ensures var all := [Hello(c.(password := Wire.SentPassword(c)))] + Each(e.book.items, Seen);
            && ReadAll(r.handled) <= all
            && (r.Consumed() == PacketWriter.Flatten(e.sender.ledger.log) ==> ReadAll(r.handled) == all)
  {
    var os := Outgoings(c, e.book.items);
    LogPaired(e, c);
    EndToEnd.Delivered(e.sender, r, os);
    OutgoingsRead(c, e.book.items);
    ReadFront(r.handled, EndToEnd.RawsOf(os));
  }

  // ---------------------------------------------------------------- at this end

  /** The id of a message of QoS 0 that was queued. */
  function ZeroId(item: Item): seq<uint16> {
    if item.Wanted? && item.packet.SentPublish? && IsQueued(item) && item.packet.content.qos == 0
    then [item.packet.content.mid] else []
  }

  lemma {:induction false} IdsConcat(a: seq<PacketWriter.Queued>, b: seq<PacketWriter.Queued>)
    ensures PacketWriter.Qos0Ids(a + b) == PacketWriter.Qos0Ids(a) + PacketWriter.Qos0Ids(b)
  {
    if b == [] {
      assert a + b == a;
    } else {
      assert (a + b)[..|a + b| - 1] == a + b[..|b| - 1];
      IdsConcat(a, b[..|b| - 1]);
    }
  }

  lemma ItemIds(item: Item)
    requires ItemOk(item)
    ensures PacketWriter.Qos0Ids(EntryOf(item)) == ZeroId(item)
  {
    PairedItem(item);
    if EntryOf(item) != [] {
      var (q, o) := (EntryOf(item)[0], OutgoingOf(item)[0]);
      EndToEnd.FirstByteTells(q, o);
      assert EntryOf(item) == [q] && [q][..0] == [];
    }
  }

  lemma {:induction false} ItemsIds(items: seq<Item>)
    requires AllOk(items)
    ensures PacketWriter.Qos0Ids(Entries(items)) == Each(items, ZeroId)
  {
    if items == [] {
    } else {
      ItemIds(items[0]);
      ItemsIds(items[1..]);
      IdsConcat(EntryOf(items[0]), Entries(items[1..]));
    }
  }

  /** The packets of the first j items stand behind the CONNECT in the queue. */
  lemma FirstEntries(e: Endpoint, j: nat)
    requires e.Valid() && j <= |e.book.items|
    ensures e.book.connect + Entries(e.book.items[..j]) <= e.sender.ledger.log
  {
    var items := e.book.items;
    EachConcat(items[..j], items[j..], EntryOf);
    assert items == items[..j] + items[j..];
  }

  /** on_publish is called at a write for the messages of QoS 0 the engine sent, and for no message
      of QoS 1 or 2: when the packets of the first j items are written to their end, the ids
      reported are those of the messages of QoS 0 among these items, in order. */
  lemma ZerosReported(e: Endpoint, c: Wire.Connect, j: nat)
    requires e.Valid() && Greets(e, c) && j <= |e.book.items|
    requires |e.sender.ledger.done| == 1 + |Entries(e.book.items[..j])|
    ensures e.sender.reported == Each(e.book.items[..j], ZeroId)
  {
    var (front, done) := (e.book.items[..j], e.sender.ledger.done);
    LogPaired(e, c);
    FirstEntries(e, j);
    e.sender.Conserved();
    assert done == e.book.connect + Entries(front);
    ItemsIds(front);
    var hello := EndToEnd.Command(Raw(Wire.CONNECT, Wire.ConnectBody(c)));
    EndToEnd.FirstByteTells(e.book.connect[0], hello);
    assert e.book.connect == [e.book.connect[0]] && [e.book.connect[0]][..0] == [];
    IdsConcat(e.book.connect, Entries(front));
  }

  /** There is such a j whenever the CONNECT is written. */
  lemma {:induction false} WrittenItems(items: seq<Item>, n: nat) returns (j: nat)
    requires n <= |Entries(items)|
    ensures j <= |items| && n == |Entries(items[..j])|
  {
    if n == 0 {
      j := 0;
    } else if n <= |EntryOf(items[0])| {
      j := 1;
      assert items[..1] == [items[0]] + [];
      EachCons(items[0], [], EntryOf);
    } else {
      var i := WrittenItems(items[1..], n - |EntryOf(items[0])|);
      j := i + 1;
      assert items[..j] == [items[0]] + items[1..][..i];
      EachCons(items[0], items[1..][..i], EntryOf);
    }
  }
}
