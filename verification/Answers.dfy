/** What is answered, and what is handed over, at once, over whole runs. */
module Answers {
  import opened Codec
  import opened Engine
  import opened Fate

  /** The acknowledgements of a log that no retry sends: PUBACK and PUBCOMP. */
  function Acks(sent: seq<Sent>): seq<Sent> {
    if sent == [] then []
    else Acks(sent[..|sent| - 1]) + (var p := sent[|sent| - 1]; if p.SentPuback? || p.SentPubcomp? then [p] else [])
  }

  lemma {:induction false} AcksConcat(a: seq<Sent>, b: seq<Sent>)
    ensures Acks(a + b) == Acks(a) + Acks(b)
  {
    if b == [] {
      assert a + b == a;
    } else {
      assert (a + b)[..|a + b| - 1] == a + b[..|b| - 1];
      AcksConcat(a, b[..|b| - 1]);
    }
  }

  lemma {:induction false} NoAcks(sent: seq<Sent>)
    requires forall k :: 0 <= k < |sent| ==> !sent[k].SentPuback? && !sent[k].SentPubcomp?
    ensures Acks(sent) == []
  {
    if sent == [] {
    } else {
      NoAcks(sent[..|sent| - 1]);
    }
  }

  lemma AcksSnoc(sent: seq<Sent>, p: Sent)
    ensures Acks(sent + [p]) == Acks(sent) + if p.SentPuback? || p.SentPubcomp? then [p] else []
  {
    assert (sent + [p])[..|sent|] == sent;
  }

  /** The acknowledgement an event asks for. */
  function Wanted(e: Event): seq<Sent> {
    match e
    case OnPublish(c, _, _) => if c.qos == 1 then [SentPuback(c.mid)] else []
    case OnPubrel(mid, flagsOk) => if flagsOk then [SentPubcomp(mid)] else []
    case _ => []
  }

  function AllWanted(es: seq<Event>): seq<Sent> {
    if es == [] then [] else AllWanted(es[..|es| - 1]) + Wanted(es[|es| - 1])
  }

  lemma {:induction false} PromoteAcks(s: State, k: nat)
    ensures Acks(Promote(s, k).0.sent) == Acks(s.sent)
    decreases |s.out| - k
  {
    if k < |s.out| && HasRoom(s) {
      if s.out[k].state == Invalid && s.out[k].content.qos > 0 {
        AcksSnoc(s.sent, Start(s, k).sent[|s.sent|]);
        if SendOk(s) { PromoteAcks(Start(s, k), k + 1); }
      } else {
        PromoteAcks(s, k + 1);
      }
    }
  }

  lemma {:induction false} RetrySendsNoAcks(ms: seq<Msg>, retry: nat, now: int)
    ensures forall k :: 0 <= k < |RetrySends(ms, retry, now)| ==>
              !RetrySends(ms, retry, now)[k].SentPuback? && !RetrySends(ms, retry, now)[k].SentPubcomp?
  {
    if ms == [] {
    } else {
      RetrySendsNoAcks(ms[..|ms| - 1], retry, now);
    }
  }

  lemma RetryAcks(s: State, now: Clock)
    ensures Acks(Retry(s, now).sent) == Acks(s.sent)
  {
    var (a, b) := (RetrySends(s.out, s.retry, now.out), RetrySends(s.inn, s.retry, now.inn));
    RetrySendsNoAcks(s.out, s.retry, now.out);
    RetrySendsNoAcks(s.inn, s.retry, now.inn);
    NoAcks(a + b);
    AcksConcat(s.sent, a + b);
  }

  lemma PublishAcks(s: State, c: Content, now: int)
    ensures Acks(Publish(s, c, now).sent) == Acks(s.sent)
  {
    AcksSnoc(s.sent, SentPublish(c.(mid := NextMid(s.lastMid)), false));
  }

  lemma AckAcks(s: State, mid: uint16)
    ensures Acks(Ack(s, mid).sent) == Acks(s.sent)
  {
    var i := Find(s.out, mid);
    if i < |s.out| { PromoteAcks(Unlink(s, i), 0); }
  }

  lemma ReceiveAcks(s: State, c: Content, dup: bool, now: int)
    ensures Acks(Receive(s, c, dup, now).sent) == Acks(s.sent) + if c.qos == 1 then [SentPuback(c.mid)] else []
  {
    AcksSnoc(s.sent, SentPuback(c.mid));
    AcksSnoc(s.sent, SentPubrec(c.mid));
  }

  lemma StepAcks(s: State, e: Event)
    ensures Acks(Step(s, e).sent) == Acks(s.sent) + Wanted(e)
  {
    match e
    case DoPublish(c, now) => PublishAcks(s, c, now);
    case OnAck(mid) => AckAcks(s, mid);
    case OnPubrec(mid, _) => AcksSnoc(s.sent, SentPubrel(mid));
    case OnPublish(c, dup, now) => ReceiveAcks(s, c, dup, now);
    case OnPubrel(mid, flagsOk) => AcksSnoc(s.sent, SentPubcomp(mid));
    case DoRetry(now) => RetryAcks(s, now);
    case DoReset =>
    case DoDraw =>
  }

  /** Over every run, the PUBACKs and PUBCOMPs sent are one for each PUBLISH of QoS 1 and one
      for each well-formed PUBREL, with its id, in the order these arrived. A PUBREL is
      answered whether or not its message is listed, and no retry repeats an answer. */
  lemma {:induction false} EachAnsweredOnce(s: State, es: seq<Event>)
    ensures Acks(Run(s, es).sent) == Acks(s.sent) + AllWanted(es)
  {
    if es == [] {
    } else {
      EachAnsweredOnce(s, es[..|es| - 1]);
      StepAcks(Run(s, es[..|es| - 1]), es[|es| - 1]);
    }
  }

  /** The packets of a log that publish nothing. */
  function NoPublishes(sent: seq<Sent>): seq<Sent> {
    if sent == [] then []
    else NoPublishes(sent[..|sent| - 1]) + if sent[|sent| - 1].SentPublish? then [] else [sent[|sent| - 1]]
  }

  lemma NoPublishesSnoc(sent: seq<Sent>, p: Sent)
    ensures NoPublishes(sent + [p]) == NoPublishes(sent) + if p.SentPublish? then [] else [p]
  {
    assert (sent + [p])[..|sent|] == sent;
  }

  lemma {:induction false} PromotePublishes(s: State, k: nat)
    ensures NoPublishes(Promote(s, k).0.sent) == NoPublishes(s.sent)
    decreases |s.out| - k
  {
    if k < |s.out| && HasRoom(s) {
      if s.out[k].state == Invalid && s.out[k].content.qos > 0 {
        NoPublishesSnoc(s.sent, Start(s, k).sent[|s.sent|]);
        if SendOk(s) { PromotePublishes(Start(s, k), k + 1); }
      } else {
        PromotePublishes(s, k + 1);
      }
    }
  }

  lemma AckPublishes(s: State, mid: uint16)
    ensures NoPublishes(Ack(s, mid).sent) == NoPublishes(s.sent)
  {
    var i := Find(s.out, mid);
    if i < |s.out| { PromotePublishes(Unlink(s, i), 0); }
  }

  lemma ReceiveReply(s: State, c: Content, dup: bool, now: int)
    ensures NoPublishes(Receive(s, c, dup, now).sent) == NoPublishes(s.sent)
            + if c.qos == 1 then [SentPuback(c.mid)] else if c.qos == 2 then [SentPubrec(c.mid)] else []
  {
    NoPublishesSnoc(s.sent, if c.qos == 1 then SentPuback(c.mid) else SentPubrec(c.mid));
  }

  /** What the client answers to an event: a PUBACK to a PUBLISH of QoS 1, a PUBREC to one of QoS 2,
      a PUBREL to a PUBREC with the id of a listed message, and a PUBCOMP to a PUBREL. */
  function Reply(s: State, e: Event): seq<Sent> {
    match e
    case OnPublish(c, _, _) =>
      if c.qos == 1 then [SentPuback(c.mid)] else if c.qos == 2 then [SentPubrec(c.mid)] else []
    case OnPubrec(mid, _) =>
      if exists k :: 0 <= k < |s.out| && s.out[k].content.mid == mid then [SentPubrel(mid)] else []
    case OnPubrel(mid, flagsOk) => if flagsOk then [SentPubcomp(mid)] else []
    case _ => []
  }

  /** In every state: but for PUBLISH packets and a retry pass, a step sends its answer and nothing
      else. */
  lemma AnswersAtOnce(s: State, e: Event)
    requires !e.DoRetry?
    ensures NoPublishes(Step(s, e).sent) == NoPublishes(s.sent) + Reply(s, e)
  {
    match e
    case DoPublish(c, now) => NoPublishesSnoc(s.sent, SentPublish(c.(mid := NextMid(s.lastMid)), false));
    case OnAck(mid) => AckPublishes(s, mid);
    case OnPubrec(mid, now) =>
      NoPublishesSnoc(s.sent, SentPubrel(mid));
      assert Find(s.out, mid) < |s.out| <==> exists k :: 0 <= k < |s.out| && s.out[k].content.mid == mid;
    case OnPublish(c, dup, now) => ReceiveReply(s, c, dup, now);
    case OnPubrel(mid, flagsOk) => NoPublishesSnoc(s.sent, SentPubcomp(mid));
    case _ =>
  }

  // ---------------------------------------------------------------- delivered at once

  function Direct(cs: seq<Content>): seq<Content> {
    if cs == [] then []
    else Direct(cs[..|cs| - 1]) + if cs[|cs| - 1].qos < 2 then [cs[|cs| - 1]] else []
  }

  lemma DirectSnoc(cs: seq<Content>, c: Content)
    ensures Direct(cs + [c]) == Direct(cs) + if c.qos < 2 then [c] else []
  {
    assert (cs + [c])[..|cs|] == cs;
  }

  function Arrived(es: seq<Event>): seq<Content> {
    if es == [] then []
    else
      var e := es[|es| - 1];
      Arrived(es[..|es| - 1]) + if e.OnPublish? && e.c.qos < 2 then [e.c] else []
  }

  predicate AllQos2(ms: seq<Msg>) {
    forall k :: 0 <= k < |ms| ==> ms[k].content.qos == 2
  }

  lemma StepQos2(s: State, e: Event)
    requires AllQos2(s.inn)
    ensures AllQos2(Step(s, e).inn)
  {
    if e.OnAck? {
      var i := Find(s.out, e.mid);
      if i < |s.out| { PromoteLogs(Unlink(s, i), 0); }
    }
  }

  lemma StepDirect(s: State, e: Event)
    requires AllQos2(s.inn)
    ensures Direct(Step(s, e).delivered) == Direct(s.delivered) + if e.OnPublish? && e.c.qos < 2 then [e.c] else []
  {
    match e
    case OnAck(mid) =>
      var i := Find(s.out, mid);
      if i < |s.out| { PromoteLogs(Unlink(s, i), 0); }
    case OnPublish(c, dup, now) => DirectSnoc(s.delivered, c);
    case OnPubrel(mid, flagsOk) =>
      var i := Find(s.inn, mid);
      if i < |s.inn| { DirectSnoc(s.delivered, s.inn[i].content); }
    case _ =>
  }

  /** Over every run the messages of QoS 0 and 1 are handed to on_message once for each time
      they arrive, in that order. */
  lemma {:induction false} ArrivedDelivered(s: State, es: seq<Event>)
    requires AllQos2(s.inn)
    ensures Direct(Run(s, es).delivered) == Direct(s.delivered) + Arrived(es)
    ensures AllQos2(Run(s, es).inn)
  {
    if es == [] {
    } else {
      ArrivedDelivered(s, es[..|es| - 1]);
      StepDirect(Run(s, es[..|es| - 1]), es[|es| - 1]);
      StepQos2(Run(s, es[..|es| - 1]), es[|es| - 1]);
    }
  }
}
