/** The messages published, told by the events of a run: what the log `published` stands for, and
    what becomes of the messages of QoS 0. */
module Published {
  import opened Codec
  import opened Engine
  import opened Window
  import opened Fate
  import opened Order
  import opened Answers
  import opened Ids

  /** The id of draw n. */
  function IdOf(n: nat): uint16
    requires n > 0
  {
    (n - 1) % 65535 + 1
  }

  /** The messages of QoS 1 and 2 published in a run, in order, with their ids. */
  function PublishedBy(es: seq<Event>): seq<Content> {
    if es == [] then []
    else
      var (front, e) := (es[..|es| - 1], es[|es| - 1]);
      PublishedBy(front) + if e.DoPublish? && e.c.qos > 0 then [e.c.(mid := IdOf(Drawn(front) + 1))] else []
  }

  /** Those of QoS 0. */
  function ZerosBy(es: seq<Event>): seq<Sent> {
    if es == [] then []
    else
      var (front, e) := (es[..|es| - 1], es[|es| - 1]);
      ZerosBy(front)
      + if e.DoPublish? && e.c.qos == 0 then [SentPublish(e.c.(mid := IdOf(Drawn(front) + 1)), false)] else []
  }

  lemma DrawnNext(drawn: nat)
    ensures NextMid(Kth(drawn)) == IdOf(drawn + 1)
  {
    KthId(drawn + 1);
  }

  /** Nothing but a publish extends the log. */
  lemma StepPublished(s: State, e: Event)
    ensures Step(s, e).published == s.published +
            if e.DoPublish? && e.c.qos > 0 then [e.c.(mid := NextMid(s.lastMid))] else []
  {
    if e.OnAck? && Find(s.out, e.mid) < |s.out| { PromoteLogs(Unlink(s, Find(s.out, e.mid)), 0); }
  }

  lemma {:induction false} PublishedAreEvents(max: nat, retry: nat, script: seq<bool>, es: seq<Event>)
    ensures Run(Initial(max, retry, script), es).published == PublishedBy(es)
  {
    if es == [] {
    } else {
      var (s0, front) := (Initial(max, retry, script), es[..|es| - 1]);
      PublishedAreEvents(max, retry, script, front);
      RunNumbered(max, retry, script, front);
      StepPublished(Run(s0, front), es[|es| - 1]);
      DrawnNext(Drawn(front));
    }
  }

  /** Over every run each message published with QoS 1 or 2 is in exactly one place: listed, in
      publish order; acknowledged, and reported once with its id; or acknowledged without a
      report because a promotion failed to send. */
  lemma EachInOnePlace(max: nat, retry: nat, script: seq<bool>, es: seq<Event>)
    ensures var s := Run(Initial(max, retry, script), es);
            && multiset(PublishedBy(es)) == multiset(Contents(s.out)) + multiset(s.acked) + multiset(s.dropped)
            && Within(Contents(s.out), PublishedBy(es)) && s.reported == MidsOf(s.acked)
  {
    RunAccounted(max, retry, script, es);
    PublishedAreEvents(max, retry, script, es);
  }

  /** Over runs whose resets are quiet the transmissions with DUP clear are the messages published,
      in order, each once, up to those still waiting. */
  lemma EachSentInOrder(max: nat, retry: nat, script: seq<bool>, es: seq<Event>)
    requires AnswersActive(Initial(max, retry, script), es) && QuietResets(Initial(max, retry, script), es)
    ensures var s := Run(Initial(max, retry, script), es); Firsts(s.sent) + Waiting(s.out) == PublishedBy(es)
  {
    RunInOrder(max, retry, script, es);
    PublishedAreEvents(max, retry, script, es);
  }

  // ---------------------------------------------------------------- QoS 0

  /** The PUBLISH packets of QoS 0 in a log. */
  function Zeros(sent: seq<Sent>): seq<Sent> {
    if sent == [] then [] else Zeros(sent[..|sent| - 1]) + Zero(sent[|sent| - 1])
  }

  function Zero(p: Sent): seq<Sent> {
    if p.SentPublish? && p.content.qos == 0 then [p] else []
  }

  lemma ZerosSnoc(sent: seq<Sent>, p: Sent)
    ensures Zeros(sent + [p]) == Zeros(sent) + Zero(p)
  {
    assert (sent + [p])[..|sent|] == sent;
  }

  lemma {:induction false} ZerosConcat(a: seq<Sent>, b: seq<Sent>)
    ensures Zeros(a + b) == Zeros(a) + Zeros(b)
  {
    if b == [] {
      assert a + b == a;
    } else {
      assert (a + b)[..|a + b| - 1] == a + b[..|b| - 1];
      ZerosConcat(a, b[..|b| - 1]);
    }
  }

  lemma {:induction false} PromoteNoZeros(s: State, k: nat)
    requires AllQos(s.out)
    ensures Zeros(Promote(s, k).0.sent) == Zeros(s.sent)
    decreases |s.out| - k
  {
    if k < |s.out| && HasRoom(s) {
      if s.out[k].state == Invalid {
        ZerosSnoc(s.sent, Start(s, k).sent[|s.sent|]);
        if SendOk(s) { PromoteNoZeros(Start(s, k), k + 1); }
      } else {
        PromoteNoZeros(s, k + 1);
      }
    }
  }

  lemma OneNoZeros(m: Msg, retry: nat, now: int)
    requires m.content.qos > 0
    ensures Zeros(RetryOne(m, retry, now)) == []
  {
    var sends := RetryOne(m, retry, now);
    assert sends == [] || (|sends| == 1 && Zero(sends[0]) == []);
    assert sends[..0] == [];
  }

  lemma {:induction false} RetryNoZeros(ms: seq<Msg>, retry: nat, now: int)
    requires AllQos(ms)
    ensures Zeros(RetrySends(ms, retry, now)) == []
  {
    if ms == [] {
    } else {
      var (front, last) := (ms[..|ms| - 1], ms[|ms| - 1]);
      RetryNoZeros(front, retry, now);
      OneNoZeros(last, retry, now);
      ZerosConcat(RetrySends(front, retry, now), RetryOne(last, retry, now));
    }
  }

  lemma AckZeros(s: State, mid: uint16)
    requires Sound(s)
    ensures Zeros(Ack(s, mid).sent) == Zeros(s.sent)
  {
    var i := Find(s.out, mid);
    if i < |s.out| {
      UnlinkCounts(s, i);
      PromoteNoZeros(Unlink(s, i), 0);
    }
  }

  lemma RetryZeros(s: State, at: Clock)
    requires AllQos(s.out) && AllQos(s.inn)
    ensures Zeros(Retry(s, at).sent) == Zeros(s.sent)
  {
    var (a, b) := (RetrySends(s.out, s.retry, at.out), RetrySends(s.inn, s.retry, at.inn));
    RetryNoZeros(s.out, s.retry, at.out);
    RetryNoZeros(s.inn, s.retry, at.inn);
    ZerosConcat(a, b);
    ZerosConcat(s.sent, a + b);
  }

  lemma PublishZeros(s: State, c: Content, now: int)
    ensures Zeros(Publish(s, c, now).sent) == Zeros(s.sent) +
            if c.qos == 0 then [SentPublish(c.(mid := NextMid(s.lastMid)), false)] else []
  {
    ZerosSnoc(s.sent, SentPublish(c.(mid := NextMid(s.lastMid)), false));
  }

  lemma PubrecZeros(s: State, mid: uint16, now: int)
    ensures Zeros(Pubrec(s, mid, now).sent) == Zeros(s.sent)
  {
    ZerosSnoc(s.sent, SentPubrel(mid));
  }

  lemma ReceiveZeros(s: State, c: Content, dup: bool, now: int)
    ensures Zeros(Receive(s, c, dup, now).sent) == Zeros(s.sent)
  {
    ZerosSnoc(s.sent, if c.qos == 1 then SentPuback(c.mid) else SentPubrec(c.mid));
  }

  lemma PubrelZeros(s: State, mid: uint16, flagsOk: bool)
    ensures Zeros(Pubrel(s, mid, flagsOk).sent) == Zeros(s.sent)
  {
    ZerosSnoc(s.sent, SentPubcomp(mid));
  }

  lemma StepZeros(s: State, e: Event)
    requires Sound(s) && AllQos2(s.inn)
    ensures Zeros(Step(s, e).sent) == Zeros(s.sent) +
            if e.DoPublish? && e.c.qos == 0 then [SentPublish(e.c.(mid := NextMid(s.lastMid)), false)] else []
  {
    match e
    case DoPublish(c, now) => PublishZeros(s, c, now);
    case OnAck(mid) => AckZeros(s, mid);
    case DoRetry(at) => RetryZeros(s, at);
    case OnPubrec(mid, now) => PubrecZeros(s, mid, now);
    case OnPublish(c, dup, now) => ReceiveZeros(s, c, dup, now);
    case OnPubrel(mid, flagsOk) => PubrelZeros(s, mid, flagsOk);
    case _ =>
  }

  /** Over every run the PUBLISH packets of QoS 0 are the messages published with it, in order, each
      sent once, at once and with DUP clear. */
  lemma {:induction false} ZerosSentOnce(max: nat, retry: nat, script: seq<bool>, es: seq<Event>)
    ensures Zeros(Run(Initial(max, retry, script), es).sent) == ZerosBy(es)
    ensures Sound(Run(Initial(max, retry, script), es)) && AllQos2(Run(Initial(max, retry, script), es).inn)
  {
    if es == [] {
    } else {
      var (s0, front, e) := (Initial(max, retry, script), es[..|es| - 1], es[|es| - 1]);
      ZerosSentOnce(max, retry, script, front);
      RunNumbered(max, retry, script, front);
      StepMoves(Run(s0, front), e);
      StepZeros(Run(s0, front), e);
      StepQos2(Run(s0, front), e);
      DrawnNext(Drawn(front));
    }
  }
}
