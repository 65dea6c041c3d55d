/** What becomes of the lists when a message is published while the tail pointer of the empty
    outgoing list is stale. */
module StaleTail {
  import opened Codec
  import opened Engine
  import opened MessageLists
  import opened Execution

  /** The client has received a QoS 2 message and lost the connection. */
  lemma ReceivedAndReset(s0: State, c: Content)
    requires s0 == Initial(20, 20, []) && c.qos == 2
    ensures var s := Reset(Receive(s0, c, false, 1));
            && s.out == [] && s.inn == [Msg(c, WaitPubrel, false, 0)] && s.inflight == 0 && s.max == 20
            && s.reported == [] && s.acked == [] && s.dropped == [] && s.published == [] && s.lastMid == 0
            && AllTwo(Receive(s0, c, false, 1).inn)
  {
    assert Receive(s0, c, false, 1).inn == [Msg(c, WaitPubrel, false, 1)];
  }

  lemma OneStep(s: State, es: seq<Event>, e: Event, r: State, r': State)
    requires Run(s, es) == r && Step(r, e) == r'
    ensures Run(s, es + [e]) == r'
  {
    RunSnoc(s, es, e);
  }

  lemma FourSteps(s: State, c: Content, p: Content)
    ensures Run(s, [OnPublish(c, false, 1), DoReset, DoPublish(p, 2), OnAck(1)])
         == Ack(Publish(Reset(Receive(s, c, false, 1)), p, 2), 1)
  {
    var (es, s1) := ([OnPublish(c, false, 1)], Receive(s, c, false, 1));
    var (s2, s3) := (Reset(s1), Publish(Reset(s1), p, 2));
    assert es == [] + es;
    OneStep(s, [], OnPublish(c, false, 1), s, s1);
    OneStep(s, es, DoReset, s1, s2);
    OneStep(s, es + [DoReset], DoPublish(p, 2), s2, s3);
    OneStep(s, es + [DoReset] + [DoPublish(p, 2)], OnAck(1), s3, Ack(s3, 1));
    assert es + [DoReset] + [DoPublish(p, 2)] + [OnAck(1)]
        == [OnPublish(c, false, 1), DoReset, DoPublish(p, 2), OnAck(1)];
  }

  /** The engine goes on from there as it should: the message is listed, acknowledged, reported. */
  lemma EngineReports(s0: State, c: Content, p: Content)
    requires s0 == Initial(20, 20, []) && c.qos == 2 && p.qos == 1
    ensures var s := Run(s0, [OnPublish(c, false, 1), DoReset, DoPublish(p, 2), OnAck(1)]);
            s.out == [] && s.reported == [1] && s.inflight == 0
  {
    FourSteps(s0, c, p);
    ReceivedAndReset(s0, c);
    PublishAndAck(Reset(Receive(s0, c, false, 1)), p);
  }

  lemma PublishAndAck(s: State, p: Content)
    requires s.out == [] && s.inflight == 0 && s.max == 20 && s.lastMid == 0 && s.reported == [] && p.qos == 1
    ensures var s' := Ack(Publish(s, p, 2), 1);
            s'.out == [] && s'.reported == [1] && s'.inflight == 0
  {
    var s1 := Publish(s, p, 2);
    assert s1.out == [Msg(p.(mid := 1), WaitPuback, false, 2)];
    assert Unlink(s1, 0).out == [];
  }

  // ---------------------------------------------------------------- the steps

  /** A reset of a client that has no outgoing message. */
  method ResetLists(client: Client) returns (ok: bool)
    requires client.Valid() && client.out.nodes == []
    modifies client, client.out, client.inn, Reached(client)
    ensures ok <==> Walk(old(client.View()).inn, 0, 0).Some?
    ensures ok ==> client.Valid() && ResetTo(old(client.View()), client.View())
    ensures ok ==> client.out.nodes == [] && client.out.last == client.inn.last && client.inn.Tailed()
    ensures ok ==> fresh(Reached(client) - old(Reached(client)))
  {
    ok := client.ReconnectReset();
    assert ok && client.inn.last != null ==> client.inn.last in client.inn.nodes;
  }

  method Acknowledge(client: Client, mid: uint16)
    requires client.Valid() && client.out.nodes == []
    modifies client, client.out, client.inn, Reached(client)
    ensures client.Valid() && client.out.nodes == [] && client.View() == old(client.View())
    ensures Reached(client) == old(Reached(client))
  {
    assert |client.View().out| == 0 && Ack(client.View(), mid) == client.View();
    client.HandlePubackComp(mid);
    assert |client.View().out| == |client.out.nodes|;
  }

  method Release(client: Client, mid: uint16)
    requires client.Valid() && client.out.nodes == []
    modifies client, client.out, client.inn, Reached(client)
    ensures client.Valid() && client.out.nodes == [] && client.View() == Pubrel(old(client.View()), mid, true)
    ensures Reached(client) <= old(Reached(client))
  {
    assert Pubrel(client.View(), mid, true ==> 0x62 % 16 == 2) == Pubrel(client.View(), mid, true);
    var _ := client.HandlePubrel(0x62, true, mid);
  }

  /** A publish while the tail pointer is the last incoming message. */
  method PublishBehind(client: Client, p: Content)
    requires client.Valid() && client.out.nodes == [] && p.qos == 1
    requires |client.inn.nodes| == 1 && client.out.last == client.inn.nodes[0]
    modifies client, client.out, client.inn, Reached(client)
    ensures client.Valid() && client.out.nodes == [] && client.out.first == null
    ensures var (s, s') := (Engine.Publish(old(client.View()), p, 2), client.View());
            |s.out| == 1 && s' == s.(out := [], inn := old(client.View()).inn + s.out)
    ensures fresh(Reached(client) - old(Reached(client)))
  {
    ghost var (before, values) := (client.inn.nodes, client.View().inn);
    assert client.out.last in Reached(client) && PlaceOf(before, before[0]) == 0;
    var _, m := client.EnqueueStale(p, 2);
    assert client.inn.nodes == before + [m] && client.View().inn == values + [m.Value()];
  }

  // ---------------------------------------------------------------- the run

  /** The client has received the message and lost the connection: the tail pointer of the empty
      outgoing list is the received message. */
  method Received(c: Content) returns (client: Client)
    requires c.qos == 2
    ensures fresh(client) && fresh(client.out) && fresh(client.inn) && fresh(Reached(client))
    ensures client.Valid() && client.View() == Reset(Receive(Initial(20, 20, []), c, false, 1))
    ensures |client.inn.nodes| == 1 && client.out.nodes == [] && client.out.last == client.inn.nodes[0]
  {
    client := NewClient();
    ReceivedAndReset(Initial(20, 20, []), c);
    ReceiveAndLose(client, Initial(20, 20, []), c);
  }

  method ReceiveAndLose(client: Client, ghost s: State, c: Content)
    requires Stands(client, s, false) && s.out == [] && s.inn == [] && c.qos == 2
    modifies client, client.out, client.inn, Reached(client)
    ensures client.Valid() && client.View() == Reset(Receive(s, c, false, 1))
    ensures fresh(Reached(client) - old(Reached(client)))
    ensures |client.inn.nodes| == 1 && client.out.nodes == [] && client.out.last == client.inn.nodes[0]
  {
    ghost var s1 := Receive(s, c, false, 1);
    assert s1.inn == [Msg(c, WaitPubrel, false, 1)] && s1.out == [];
    FollowPlain(client, s, OnPublish(c, false, 1), false);
    assert client.Valid() && client.View() == s1;
    LoseConnection(client, s1);
  }

  method NewClient() returns (client: Client)
    ensures fresh(client) && fresh(client.out) && fresh(client.inn) && fresh(Reached(client))
    ensures Stands(client, Initial(20, 20, []), false)
  {
    client := new Client(20, 20, []);
    assert Reached(client) == {};
  }

  method LoseConnection(client: Client, ghost s: State)
    requires client.Valid() && client.View() == s && s.out == [] && |s.inn| == 1 && AllTwo(s.inn)
    modifies client, client.out, client.inn, Reached(client)
    ensures client.Valid() && client.View() == Reset(s) && fresh(Reached(client) - old(Reached(client)))
    ensures |client.inn.nodes| == 1 && client.out.nodes == [] && client.out.last == client.inn.nodes[0]
  {
    assert |client.View().out| == |client.out.nodes|;
    ResetTwo(s, Reset(s));
    var _ := ResetLists(client);
    ResetTwo(s, client.View());
    assert |client.View().inn| == |client.inn.nodes|;
  }

  /** The message published then stands in the incoming list. */
  method Published(c: Content, p: Content) returns (client: Client)
    requires c.qos == 2 && p.qos == 1
    ensures fresh(client) && fresh(client.out) && fresh(client.inn) && fresh(Reached(client))
    ensures client.Valid() && client.out.nodes == [] && Behind(client.View(), c, p)
  {
    client := Received(c);
    PublishBehind(client, p);
    NowBehind(Initial(20, 20, []), client.View(), c, p);
  }

  lemma NowBehind(s0: State, s': State, c: Content, p: Content)
    requires s0 == Initial(20, 20, []) && c.qos == 2 && p.qos == 1
    requires var s := Reset(Receive(s0, c, false, 1));
             s' == Engine.Publish(s, p, 2).(out := [], inn := s.inn + Engine.Publish(s, p, 2).out)
    ensures Behind(s', c, p)
  {
    ReceivedAndReset(s0, c);
  }

  ghost predicate Behind(s: State, c: Content, p: Content) {
    && s.out == [] && s.inn == [Msg(c, WaitPubrel, false, 0), Msg(p.(mid := 1), WaitPuback, false, 2)]
    && s.outLen == 1 && s.inflight == 1 && s.published == [p.(mid := 1)] && Unreported(s)
  }

  /** Nothing was acknowledged. */
  ghost predicate Unreported(s: State) {
    s.reported == [] && s.acked == [] && s.dropped == []
  }

  lemma WalkBoth(c: Msg, p: Msg)
    requires c.content.qos == 2 && p.content.qos == 1
    ensures Walk([c, p], 0, 0) == Some(([c.(timestamp := 0)], 2))
  {
    WalkExactly([c, p]);
    assert [c, p][1..] == [p] && [p][1..] == [];
    assert Kept([p]) == [] + Kept([p][1..]);
    assert Kept([c, p]) == [c.(timestamp := 0)] + Kept([c, p][1..]) == [c.(timestamp := 0)];
  }

  lemma WalkReleased(s: State, c: Content, p: Content)
    requires Behind(s, c, p) && p.qos == 1
    ensures Walk(Pubrel(s, c.mid, true).inn, 0, 0) == None
  {
    assert Find(s.inn, c.mid) == 0 && Without(s.inn, 0) == [s.inn[1]];
    assert Pubrel(s, c.mid, true).inn == [s.inn[1]];
  }

  /** Its PUBACK finds nothing, so it is never reported, and its slot of the window stays taken.
      The next reset takes the branch for messages without QoS 2, and it is gone: in no list,
      and not reported. */
  method Lost(c: Content, p: Content) returns (client: Client)
    requires c.qos == 2 && p.qos == 1
    ensures client.Valid()
    ensures var s := client.View();
            && s.out == [] && s.inn == [Msg(c, WaitPubrel, false, 0)] && s.inLen == 2
            && s.published == [p.(mid := 1)] && Unreported(s)
  {
    client := Published(c, p);
    Acknowledge(client, 1);
    assert Behind(client.View(), c, p);
    WalkBoth(client.View().inn[0], client.View().inn[1]);
    var _ := ResetLists(client);
  }

  /** If the received message is released before, that branch follows a null pointer. */
  method NullPointer(c: Content, p: Content) returns (ok: bool)
    requires c.qos == 2 && p.qos == 1
    ensures !ok
  {
    var client := Published(c, p);
    WalkReleased(client.View(), c, p);
    Release(client, c.mid);
    ok := ResetLists(client);
  }
}
