/** The receiving side of QoS 2: what becomes of every PUBLISH that arrives. */
module Qos2Receiver {
  import opened Codec
  import opened Engine
  import opened Runs
  import opened Fate

  /** The QoS 2 contents with a given id, in order. */
  function WithId(cs: seq<Content>, mid: uint16): seq<Content> {
    if cs == [] then [] else WithId(cs[..|cs| - 1], mid) + Matching(cs[|cs| - 1], mid)
  }

  function Matching(c: Content, mid: uint16): seq<Content> {
    if c.qos == 2 && c.mid == mid then [c] else []
  }

  lemma WithIdSnoc(cs: seq<Content>, c: Content, mid: uint16)
    ensures WithId(cs + [c], mid) == WithId(cs, mid) + Matching(c, mid)
  {
    assert (cs + [c])[..|cs|] == cs;
  }

  lemma {:induction false} WithIdConcat(a: seq<Content>, b: seq<Content>, mid: uint16)
    ensures WithId(a + b, mid) == WithId(a, mid) + WithId(b, mid)
  {
    if b == [] {
      assert a + b == a;
    } else {
      assert (a + b)[..|a + b| - 1] == a + b[..|b| - 1];
      WithIdConcat(a, b[..|b| - 1], mid);
    }
  }

  lemma {:induction false} WithIdNone(cs: seq<Content>, mid: uint16)
    requires forall k :: 0 <= k < |cs| ==> cs[k].mid != mid
    ensures WithId(cs, mid) == []
  {
    if cs == [] {
    } else {
      WithIdNone(cs[..|cs| - 1], mid);
    }
  }

  lemma WithIdSplit(front: seq<Content>, c: Content, back: seq<Content>, mid: uint16)
    ensures WithId(front + [c] + back, mid) == WithId(front, mid) + Matching(c, mid) + WithId(back, mid)
  {
    WithIdConcat(front + [c], back, mid);
    WithIdSnoc(front, c, mid);
  }

  /** Taking out the first content with its id takes off the head for that id and nothing for
      the others. */
  lemma WithIdWithout(cs: seq<Content>, i: nat, mid: uint16)
    requires i < |cs| && forall k :: 0 <= k < i ==> cs[k].mid != cs[i].mid
    ensures WithId(cs, mid) == Matching(cs[i], mid) + WithId(Without(cs, i), mid)
  {
    var (front, back) := (cs[..i], cs[i + 1..]);
    assert cs == front + [cs[i]] + back;
    WithIdSplit(front, cs[i], back, mid);
    WithIdConcat(front, back, mid);
    if cs[i].mid == mid { WithIdNone(front, mid); }
    MoveFront(WithId(front, mid), Matching(cs[i], mid), WithId(back, mid));
  }

  lemma MoveFront(a: seq<Content>, b: seq<Content>, c: seq<Content>)
    requires a == [] || b == []
    ensures a + b + c == b + (a + c)
  {
  }

  // ---------------------------------------------------------------- what arrived

  /** The QoS 2 messages with an id that arrived in a run, in order. */
  function ArrivedWith(es: seq<Event>, mid: uint16): seq<Content> {
    if es == [] then [] else ArrivedWith(es[..|es| - 1], mid) + Brought(es[|es| - 1], mid)
  }

  function Brought(e: Event, mid: uint16): seq<Content> {
    if e.OnPublish? && e.c.qos == 2 && e.c.mid == mid then [e.c] else []
  }

  /** Those that were delivered, and behind them those that are listed. */
  function Got(s: State, mid: uint16): seq<Content> {
    WithId(s.delivered, mid) + WithId(Contents(s.inn), mid)
  }

  /** All listed incoming messages have QoS 2 and wait for PUBREL. */
  predicate Held(s: State) {
    s.inLen == |s.inn| && forall k :: 0 <= k < |s.inn| ==> s.inn[k].content.qos == 2 && s.inn[k].state == WaitPubrel
  }

  lemma ReceiveGot(s: State, c: Content, dup: bool, now: int, mid: uint16)
    ensures Got(Receive(s, c, dup, now), mid) == Got(s, mid) + Matching(c, mid)
  {
    if c.qos < 2 {
      WithIdSnoc(s.delivered, c, mid);
    } else {
      assert Contents(Receive(s, c, dup, now).inn) == Contents(s.inn) + [c];
      WithIdSnoc(Contents(s.inn), c, mid);
      Regroup(WithId(s.delivered, mid), WithId(Contents(s.inn), mid), Matching(c, mid));
    }
  }

  lemma Regroup(a: seq<Content>, b: seq<Content>, c: seq<Content>)
    ensures a + (b + c) == a + b + c
  {
  }

  lemma PubrelGot(s: State, id: uint16, flagsOk: bool, mid: uint16)
    ensures Got(Pubrel(s, id, flagsOk), mid) == Got(s, mid)
  {
    var i := Find(s.inn, id);
    if flagsOk && i < |s.inn| {
      var (cs, c) := (Contents(s.inn), s.inn[i].content);
      ContentsWithout(s.inn, i);
      WithIdSnoc(s.delivered, c, mid);
      WithIdWithout(cs, i, mid);
      Regroup(WithId(s.delivered, mid), Matching(c, mid), WithId(Without(cs, i), mid));
    }
  }

  lemma SameGot(s: State, s': State, mid: uint16)
    requires |s'.inn| == |s.inn| && s'.delivered == s.delivered
    requires forall k :: 0 <= k < |s.inn| ==> s'.inn[k].content == s.inn[k].content
    ensures Got(s', mid) == Got(s, mid)
  {
    assert Contents(s'.inn) == Contents(s.inn);
  }

  lemma AckKeepsInn(s: State, mid: uint16)
    ensures var s' := Ack(s, mid); s'.inn == s.inn && s'.inLen == s.inLen && s'.delivered == s.delivered
  {
    var i := Find(s.out, mid);
    if i < |s.out| { PromoteLogs(Unlink(s, i), 0); }
  }

  lemma StepGot(s: State, e: Event, mid: uint16)
    ensures Got(Step(s, e), mid) == Got(s, mid) + Brought(e, mid)
  {
    match e
    case OnPublish(c, dup, now) => ReceiveGot(s, c, dup, now, mid);
    case OnPubrel(id, flagsOk) => PubrelGot(s, id, flagsOk, mid);
    case OnAck(id) => AckKeepsInn(s, id);
    case _ => SameGot(s, Step(s, e), mid);
  }

  lemma StepHeld(s: State, e: Event)
    requires Held(s)
    ensures Held(Step(s, e))
  {
    if e.OnAck? { AckKeepsInn(s, e.mid); }
  }

  /** Over every interleaving of PUBLISH, PUBREL, retries and reconnects, and for each id: the
      messages delivered, followed by those still listed, are the QoS 2 messages that arrived,
      in order. So each copy is delivered at most once, first in first out, and none is lost.
      The listed ones have QoS 2, so the reset takes none out, as long as the linked lists do
      what the engine does (module Execution). */
  lemma {:induction false} IncomingAlwaysQos2(max: nat, retry: nat, script: seq<bool>, es: seq<Event>)
    ensures Held(Run(Initial(max, retry, script), es))
    ensures forall mid :: Got(Run(Initial(max, retry, script), es), mid) == ArrivedWith(es, mid)
  {
    var s0 := Initial(max, retry, script);
    if es == [] {
      assert Contents(s0.inn) == [];
    } else {
      var s := Run(s0, es[..|es| - 1]);
      IncomingAlwaysQos2(max, retry, script, es[..|es| - 1]);
      StepHeld(s, es[|es| - 1]);
      forall mid ensures Got(Run(s0, es), mid) == ArrivedWith(es, mid) { StepGot(s, es[|es| - 1], mid); }
    }
  }

  lemma ReceiveDelivers(s: State, c: Content, dup: bool, now: int, mid: uint16)
    ensures WithId(Receive(s, c, dup, now).delivered, mid) == WithId(s.delivered, mid)
  {
    if c.qos < 2 { WithIdSnoc(s.delivered, c, mid); }
  }

  lemma PassOnDelivers(s: State, id: uint16, mid: uint16)
    ensures WithId(PassOn(s, id).delivered, mid)
         == WithId(s.delivered, mid)
          + if Find(s.inn, id) < |s.inn| then Matching(s.inn[Find(s.inn, id)].content, mid) else []
  {
    var i := Find(s.inn, id);
    if i < |s.inn| { WithIdSnoc(s.delivered, s.inn[i].content, mid); }
  }

  lemma OthersDeliver(s: State, e: Event)
    requires !e.OnPublish? && !e.OnPubrel?
    ensures Step(s, e).delivered == s.delivered
  {
    if e.OnAck? { AckKeepsInn(s, e.mid); }
  }

  /** Only a PUBREL delivers a QoS 2 message, only one with its id, and only one message; all
      other steps leave the QoS 2 deliveries alone. */
  lemma DeliveredOnPubrel(s: State, e: Event, mid: uint16)
    ensures WithId(Step(s, e).delivered, mid) == WithId(s.delivered, mid)
         || (e.OnPubrel? && e.mid == mid && e.flagsOk && Find(s.inn, mid) < |s.inn|
             && WithId(Step(s, e).delivered, mid) == WithId(s.delivered, mid) + [s.inn[Find(s.inn, mid)].content])
  {
    match e
    case OnPublish(c, dup, now) => ReceiveDelivers(s, c, dup, now, mid);
    case OnPubrel(id, flagsOk) => PassOnDelivers(s, id, mid);
    case _ => OthersDeliver(s, e);
  }

  /** The code has no duplicate check: a PUBLISH repeated before its PUBREL is queued twice, and
      two PUBRELs deliver it twice. Exactly-once needs a peer that does not do that. */
  lemma RepeatedPublishDeliveredTwice(c: Content)
    requires c.qos == 2
    ensures Run(Initial(20, 20, []),
                [OnPublish(c, false, 1), OnPublish(c, true, 2), OnPubrel(c.mid, true), OnPubrel(c.mid, true)]).delivered
         == [c, c]
  {
    var s0 := Initial(20, 20, []);
    FoldFour(Step, s0, OnPublish(c, false, 1), OnPublish(c, true, 2), OnPubrel(c.mid, true), OnPubrel(c.mid, true));
    TwoDelivered(s0, c);
  }

  lemma TwoDelivered(s: State, c: Content)
    requires s.inn == [] && s.delivered == [] && c.qos == 2
    ensures Pubrel(Pubrel(Receive(Receive(s, c, false, 1), c, true, 2), c.mid, true), c.mid, true).delivered == [c, c]
  {
    var (m1, m2) := (Msg(c, WaitPubrel, false, 1), Msg(c, WaitPubrel, true, 2));
    var s2 := Receive(Receive(s, c, false, 1), c, true, 2);
    assert s2.inn == [m1] + [m2];
    PubrelDelivers(s2, m1, [m2]);
    PubrelDelivers(Pubrel(s2, c.mid, true), m2, []);
  }

  lemma PubrelDelivers(s: State, m: Msg, rest: seq<Msg>)
    requires s.inn == [m] + rest
    ensures var s' := Pubrel(s, m.content.mid, true); s'.inn == rest && s'.delivered == s.delivered + [m.content]
  {
    assert Find(s.inn, m.content.mid) == 0;
    assert Without(s.inn, 0) == rest;
  }
}
