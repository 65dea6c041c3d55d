/** The sending side of QoS 2: what the engine keeps of a PUBREC. */
module Qos2Sender {
  import opened Codec
  import opened Engine
  import opened Runs
  import opened Window
  import opened Fate

  /** A QoS 2 message with this id has been answered by a PUBREC, and it is the only message
      with the id. */
  predicate Released(s: State, mid: uint16) {
    var i := Find(s.out, mid);
    && i < |s.out| && s.out[i].content.qos == 2 && s.out[i].state == WaitPubcomp
    && forall k :: 0 <= k < |s.out| && s.out[k].content.mid == mid ==> k == i
  }

  predicate Absent(s: State, mid: uint16) {
    forall k :: 0 <= k < |s.out| ==> s.out[k].content.mid != mid
  }

  /** The PUBREC of an active QoS 2 message with a unique id releases it. */
  lemma PubrecReleases(s: State, mid: uint16, now: int)
    requires var i := Find(s.out, mid);
             && i < |s.out| && s.out[i].content.qos == 2
             && forall k :: 0 <= k < |s.out| && s.out[k].content.mid == mid ==> k == i
    ensures Released(Pubrec(s, mid, now), mid)
    ensures Pubrec(s, mid, now).sent == s.sent + [SentPubrel(mid)]
  {
    FindAfter(Pubrec(s, mid, now).out, mid, Find(s.out, mid));
  }

  /** A reset keeps the release exactly when the message is in front of the window's end. */
  lemma ResetReleased(s: State, mid: uint16)
    requires AllQos(s.out) && Released(s, mid)
    ensures Released(Reset(s), mid) <==> InFront(s, mid)
  {
    var (i, rs) := (Find(s.out, mid), Reset(s).out);
    ResetOutAt(s.out, s.max, i);
    assert rs[i].content.mid == mid;
    assert Find(rs, mid) == i;
  }

  /** No PUBLISH of this id among some packets. */
  predicate NoPublish(sent: seq<Sent>, mid: uint16) {
    forall k :: 0 <= k < |sent| && sent[k].SentPublish? ==> sent[k].content.mid != mid
  }

  /** No PUBLISH of this id was sent from s to s'. */
  predicate Unpublished(s: State, s': State, mid: uint16) {
    s.sent <= s'.sent && NoPublish(s'.sent[|s.sent|..], mid)
  }

  lemma UnpublishedAdds(s: State, s1: State, s2: State, mid: uint16)
    requires Unpublished(s, s1, mid) && Unpublished(s1, s2, mid)
    ensures Unpublished(s, s2, mid)
  {
    assert s2.sent[|s.sent|..] == s1.sent[|s.sent|..] + s2.sent[|s1.sent|..];
  }

  /** Steps that do not give the id to a new message. */
  predicate Keeps(s: State, mid: uint16, e: Event) {
    e.DoPublish? ==> NextMid(s.lastMid) != mid
  }

  /** The first message with the id is in front of the window's end. */
  predicate InFront(s: State, mid: uint16) {
    s.max == 0 || Find(s.out, mid) + 1 < s.max
  }

  /** The packets one step adds. */
  lemma {:induction false} PromoteSends(s: State, k: nat, mid: uint16)
    requires AllQos(s.out)
    requires forall i :: k <= i < |s.out| && s.out[i].state == Invalid ==> s.out[i].content.mid != mid
    ensures var s' := Promote(s, k).0;
            && Unpublished(s, s', mid)
            && |s'.out| == |s.out|
            && forall i :: 0 <= i < |s.out| ==> s'.out[i].content == s.out[i].content
                                                && (s.out[i].state != Invalid ==> s'.out[i] == s.out[i])
    decreases |s.out| - k
  {
    if k < |s.out| && HasRoom(s) {
      if s.out[k].state == Invalid {
        if SendOk(s) {
          var s1 := Start(s, k);
          PromoteSends(s1, k + 1, mid);
          var s' := Promote(s1, k + 1).0;
          assert s'.sent[|s.sent|..] == [s1.sent[|s.sent|]] + s'.sent[|s1.sent|..];
        }
      } else {
        PromoteSends(s, k + 1, mid);
      }
    }
  }

  /** What the theorem follows through a run. */
  ghost predicate Settled(s: State, mid: uint16) {
    AllQos(s.out) && (Released(s, mid) || Absent(s, mid))
  }

  lemma FindAfter(ms: seq<Msg>, mid: uint16, i: nat)
    requires i < |ms| && ms[i].content.mid == mid
    requires forall k :: 0 <= k < |ms| && ms[k].content.mid == mid ==> k == i
    ensures Find(ms, mid) == i
  {
  }

  lemma UnlinkSettled(s: State, j: nat, mid: uint16)
    requires Settled(s, mid) && j < |s.out| && j == Find(s.out, s.out[j].content.mid)
    ensures Settled(Unlink(s, j), mid)
  {
    var u := Unlink(s, j);
    assert forall k :: 0 <= k < |u.out| ==> u.out[k] == s.out[if k < j then k else k + 1];
    if Released(s, mid) {
      if s.out[j].content.mid != mid {
        var i := Find(s.out, mid);
        var i' := if i < j then i else i - 1;
        assert u.out[i'] == s.out[i];
        FindAfter(u.out, mid, i');
        assert Released(u, mid);
      } else {
        assert Absent(u, mid);
      }
    } else {
      assert Absent(u, mid);
    }
  }

  /** A list that differs in no content, and not in the message with the id. */
  lemma SameSettled(s: State, s': State, mid: uint16)
    requires Settled(s, mid) && |s'.out| == |s.out|
    requires forall i :: 0 <= i < |s.out| ==> s'.out[i].content == s.out[i].content
    requires forall i :: 0 <= i < |s.out| && s.out[i].content.mid == mid ==> s'.out[i].state == s.out[i].state
    ensures Settled(s', mid)
  {
    if Released(s, mid) { FindAfter(s'.out, mid, Find(s.out, mid)); }
  }

  lemma AckSettled(s: State, other: uint16, mid: uint16)
    requires Settled(s, mid)
    ensures var s' := Ack(s, other);
            Settled(s', mid) && Unpublished(s, s', mid)
  {
    var j := Find(s.out, other);
    if j < |s.out| {
      var u := Unlink(s, j);
      var p := Promote(u, 0).0;
      UnlinkSettled(s, j, mid);
      PromoteSettled(u, mid);
      assert Ack(s, other).out == p.out && Ack(s, other).sent == p.sent;
    }
  }

  lemma PromoteSettled(s: State, mid: uint16)
    requires Settled(s, mid)
    ensures var s' := Promote(s, 0).0;
            Settled(s', mid) && Unpublished(s, s', mid)
  {
    PromoteSends(s, 0, mid);
    SameSettled(s, Promote(s, 0).0, mid);
  }

  /** Every retry of a released message is a PUBREL. */
  lemma {:induction false} RetrySettled(ms: seq<Msg>, retry: nat, now: int, mid: uint16)
    requires forall k :: 0 <= k < |ms| && ms[k].content.mid == mid ==>
               ms[k].state == WaitPubcomp || ms[k].state == WaitPubrel
    ensures NoPublish(RetrySends(ms, retry, now), mid)
  {
    if ms == [] {
    } else {
      RetrySettled(ms[..|ms| - 1], retry, now, mid);
    }
  }

  lemma RetryStepSettled(s: State, now: Clock, mid: uint16)
    requires Settled(s, mid)
    requires InnWaits(s)
    ensures var s' := Retry(s, now);
            Settled(s', mid) && Unpublished(s, s', mid)
  {
    var (a, b) := (RetrySends(s.out, s.retry, now.out), RetrySends(s.inn, s.retry, now.inn));
    RetrySettled(s.out, s.retry, now.out, mid);
    RetrySettled(s.inn, s.retry, now.inn, mid);
    assert NoPublish(a + b, mid);
    assert (s.sent + (a + b))[|s.sent|..] == a + b;
    SameSettled(s, Retry(s, now), mid);
  }

  lemma ResetSettled(s: State, mid: uint16)
    requires Settled(s, mid) && (Released(s, mid) ==> InFront(s, mid))
    ensures Settled(Reset(s), mid)
  {
    if Released(s, mid) { ResetReleased(s, mid); }
  }

  lemma PublishSettled(s: State, c: Content, now: int, mid: uint16)
    requires Settled(s, mid) && NextMid(s.lastMid) != mid
    ensures var s' := Publish(s, c, now);
            Settled(s', mid) && Unpublished(s, s', mid)
  {
    var s' := Publish(s, c, now);
    if Released(s, mid) { FindAfter(s'.out, mid, Find(s.out, mid)); }
  }

  lemma PubrecSettled(s: State, other: uint16, now: int, mid: uint16)
    requires Settled(s, mid)
    ensures var s' := Pubrec(s, other, now);
            Settled(s', mid) && Unpublished(s, s', mid)
  {
    var s' := Pubrec(s, other, now);
    if Released(s, mid) { FindAfter(s'.out, mid, Find(s.out, mid)); }
  }

  lemma ReceiveSettled(s: State, c: Content, dup: bool, now: int, mid: uint16)
    requires Settled(s, mid)
    ensures var s' := Receive(s, c, dup, now);
            Settled(s', mid) && Unpublished(s, s', mid)
  {
    assert (s.sent + [SentPuback(c.mid)])[|s.sent|..] == [SentPuback(c.mid)];
    assert (s.sent + [SentPubrec(c.mid)])[|s.sent|..] == [SentPubrec(c.mid)];
  }

  lemma PubrelSettled(s: State, other: uint16, flagsOk: bool, mid: uint16)
    requires Settled(s, mid)
    ensures var s' := Pubrel(s, other, flagsOk);
            Settled(s', mid) && Unpublished(s, s', mid)
  {
    assert (s.sent + [SentPubcomp(other)])[|s.sent|..] == [SentPubcomp(other)];
  }

  lemma StepSettled(s: State, e: Event, mid: uint16)
    requires Settled(s, mid) && Keeps(s, mid, e) && InnWaits(s)
    requires e == DoReset && Released(s, mid) ==> InFront(s, mid)
    ensures var s' := Step(s, e);
            Settled(s', mid) && Unpublished(s, s', mid)
  {
    match e
    case DoPublish(c, now) => PublishSettled(s, c, now, mid);
    case OnAck(other) => AckSettled(s, other, mid);
    case OnPubrec(other, now) => PubrecSettled(s, other, now, mid);
    case DoRetry(now) => RetryStepSettled(s, now, mid);
    case DoReset => ResetSettled(s, mid);
    case OnPublish(c, dup, now) => ReceiveSettled(s, c, dup, now, mid);
    case OnPubrel(other, flagsOk) => PubrelSettled(s, other, flagsOk, mid);
    case DoDraw =>
  }

  predicate RunKeeps(s: State, mid: uint16, es: seq<Event>) {
    Along((s1, e) => Keeps(s1, mid, e), s, es)
  }

  lemma FoundBy(ms: seq<Msg>, mid: uint16, k: nat)
    requires k < |ms| && ms[k].content.mid == mid
    ensures Find(ms, mid) <= k
  {
  }

  /** No step moves a message back in the list. */
  lemma StepInFront(s: State, e: Event, mid: uint16)
    requires Settled(s, mid) && Keeps(s, mid, e) && (Released(s, mid) ==> InFront(s, mid))
    requires Released(Step(s, e), mid) ==> Released(s, mid)
    ensures Step(s, e).max == s.max && (Released(Step(s, e), mid) ==> InFront(Step(s, e), mid))
  {
    var (s', p) := (Step(s, e), Find(s.out, mid));
    if e.OnAck? {
      AckInFront(s, e.mid, mid);
    } else if Released(s, mid) {
      assert s'.out[p].content.mid == mid;
      FoundBy(s'.out, mid, p);
    }
  }

  lemma AckInFront(s: State, other: uint16, mid: uint16)
    requires Settled(s, mid) && (Released(s, mid) ==> InFront(s, mid))
    requires Released(Ack(s, other), mid) ==> Released(s, mid)
    ensures Ack(s, other).max == s.max && (Released(Ack(s, other), mid) ==> InFront(Ack(s, other), mid))
  {
    var (s', p, j) := (Ack(s, other), Find(s.out, mid), Find(s.out, other));
    if j < |s.out| { PromoteLogs(Unlink(s, j), 0); }
    if Released(s', mid) {
      AckContents(s, other);
      var k := Find(s'.out, mid);
      assert s'.out[k].content == Contents(s'.out)[k];
      if j < |s.out| {
        var k' := if k < j then k else k + 1;
        assert s.out[k'].content == Contents(s.out)[k'] == s'.out[k].content;
      }
    }
  }

  /** A message that is gone stays gone. */
  lemma StepAbsent(s: State, e: Event, mid: uint16)
    requires Absent(s, mid) && Keeps(s, mid, e)
    ensures Absent(Step(s, e), mid)
  {
    if e.OnAck? { AckAbsent(s, e.mid, mid); }
  }

  lemma AckAbsent(s: State, other: uint16, mid: uint16)
    requires Absent(s, mid)
    ensures Absent(Ack(s, other), mid)
  {
    AckContents(s, other);
    var (ms, j) := (Ack(s, other).out, Find(s.out, other));
    forall k | 0 <= k < |ms| ensures ms[k].content.mid != mid {
      assert ms[k].content == Contents(ms)[k];
      if j < |s.out| { assert Contents(ms)[k] == s.out[if k < j then k else k + 1].content; }
    }
  }

  /** Section 4.3.3 of MQTT 3.1.1, sending side: once its PUBREC is handled, a message in front
      of the window's end is never published again. Over every run that gives its id to no new
      message, through any number of resets: it stays released until it is removed, and no
      PUBLISH with its id is sent. */
  lemma {:induction false} NeverPublishedAgain(s: State, es: seq<Event>, mid: uint16)
    requires AllQos(s.out) && Released(s, mid) && InFront(s, mid) && RunKeeps(s, mid, es)
    requires InnWaits(s)
    ensures var s' := Run(s, es);
            && Settled(s', mid) && Unpublished(s, s', mid)
            && InnWaits(s') && (Released(s', mid) ==> InFront(s', mid))
  {
    if es == [] {
    } else {
      var (front, e) := (es[..|es| - 1], es[|es| - 1]);
      NeverPublishedAgain(s, front, mid);
      var (s1, s') := (Run(s, front), Run(s, es));
      StepSettled(s1, e, mid);
      StepInnWaits(s1, e);
      if Absent(s1, mid) { StepAbsent(s1, e, mid); }
      StepInFront(s1, e, mid);
      UnpublishedAdds(s, s1, s', mid);
    }
  }

  /** An input that needs the position. With a limit of 2, two QoS 2 messages are published
      and the second is released; a reset pushes it out of the window, and when the first is
      acknowledged the second is published a second time, with DUP clear. */
  lemma PublishedAgain(s0: State, a: Content, b: Content)
    requires s0 == Initial(2, 20, []) && a.qos == b.qos == 2
    ensures var s := Run(s0, [DoPublish(a, 1), DoPublish(b, 1), OnPubrec(2, 1), DoReset] + [OnAck(1)]);
            var b' := b.(mid := 2);
            s.sent == [SentPublish(a.(mid := 1), false), SentPublish(b', false), SentPubrel(2), SentPublish(b', false)]
  {
    var es := [DoPublish(a, 1), DoPublish(b, 1), OnPubrec(2, 1), DoReset];
    FoldFour(Step, s0, es[0], es[1], es[2], es[3]);
    RunSnoc(s0, es, OnAck(1));
    PublishedAgainSteps(s0, a, b);
  }

  lemma PublishedAgainSteps(s0: State, a: Content, b: Content)
    requires s0 == Initial(2, 20, []) && a.qos == b.qos == 2
    ensures var (s, b') := (Ack(Reset(Pubrec(Publish(Publish(s0, a, 1), b, 1), 2, 1)), 1), b.(mid := 2));
            s.sent == [SentPublish(a.(mid := 1), false), SentPublish(b', false), SentPubrel(2), SentPublish(b', false)]
  {
    var (a', b') := (a.(mid := 1), b.(mid := 2));
    BothStarted(s0, a, b);
    var s2 := Publish(Publish(s0, a, 1), b, 1);
    SecondReset(s2, a', b');
    SecondStarted(Reset(Pubrec(s2, 2, 1)), a', b');
  }

  lemma BothStarted(s0: State, a: Content, b: Content)
    requires s0 == Initial(2, 20, []) && a.qos == b.qos == 2
    ensures var s := Publish(Publish(s0, a, 1), b, 1);
            && s.out == [Msg(a.(mid := 1), WaitPubrec, false, 1), Msg(b.(mid := 2), WaitPubrec, false, 1)]
            && s.max == 2 && s.script == []
            && s.sent == [SentPublish(a.(mid := 1), false), SentPublish(b.(mid := 2), false)]
  {
    var s1 := Publish(s0, a, 1);
    assert s1.out == [Msg(a.(mid := 1), WaitPubrec, false, 1)] && s1.sent == [SentPublish(a.(mid := 1), false)];
  }

  lemma SecondReset(s: State, a: Content, b: Content)
    requires a.qos == b.qos == 2 && a.mid == 1 && b.mid == 2 && s.max == 2
    requires s.out == [Msg(a, WaitPubrec, false, 1), Msg(b, WaitPubrec, false, 1)]
    ensures var s' := Reset(Pubrec(s, 2, 1));
            && s'.out == [Msg(a, WaitPubrec, false, 0), Msg(b, Invalid, false, 0)]
            && s'.inflight == 2 && s'.max == 2 && s'.sent == s.sent + [SentPubrel(2)]
            && (s.script == [] ==> s'.script == [])
  {
    FindSecond(s.out, 2);
    var s1 := Pubrec(s, 2, 1);
    assert s1.out == [Msg(a, WaitPubrec, false, 1), Msg(b, WaitPubcomp, false, 1)];
    ResetOutAt(s1.out, 2, 0);
    ResetOutAt(s1.out, 2, 1);
    ActiveAndInvalid(s1.out);
  }

  lemma SecondStarted(s: State, a: Content, b: Content)
    requires a.qos == b.qos == 2 && a.mid == 1 && b.mid == 2 && s.max == 2 && s.inflight == 2 && s.script == []
    requires s.out == [Msg(a, WaitPubrec, false, 0), Msg(b, Invalid, false, 0)]
    ensures Ack(s, 1).sent == s.sent + [SentPublish(b, false)]
  {
    var u := Unlink(s, 0);
    assert u.out == [Msg(b, Invalid, false, 0)] && u.inflight == 1;
    assert Promote(Start(u, 0), 1).0 == Start(u, 0);
  }
}
