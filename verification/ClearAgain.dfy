/** When a message in flight can be sent a second time with DUP clear, which section 3.3.1.1 of
    MQTT 3.1.1 forbids: a reset puts it back among the waiting messages, and its DUP flag is set
    by retries only. */
module ClearAgain {
  import opened Codec
  import opened Engine
  import opened Runs
  import opened Window
  import opened Fate
  import opened ClosedForGood
  import opened Qos2Sender
  import opened Qos2Repeat

  /** The only message with the id is in flight. */
  predicate Flying(s: State, mid: uint16) {
    var i := Find(s.out, mid);
    && i < |s.out| && s.out[i].state != Invalid
    && forall k :: 0 <= k < |s.out| && s.out[k].content.mid == mid ==> k == i
  }

  /** It is in flight in front of the window's end, or gone. */
  ghost predicate Stays(s: State, mid: uint16) {
    AllQos(s.out) && (Absent(s, mid) || (Flying(s, mid) && InFront(s, mid)))
  }

  predicate NoClear(sent: seq<Sent>, mid: uint16) {
    forall k :: 0 <= k < |sent| && sent[k].SentPublish? && sent[k].content.mid == mid ==> sent[k].dup
  }

  /** No PUBLISH of this id with DUP clear was sent from s to s'. */
  predicate Unclear(s: State, s': State, mid: uint16) {
    s.sent <= s'.sent && NoClear(s'.sent[|s.sent|..], mid)
  }

  lemma UnclearAdds(s: State, s1: State, s2: State, mid: uint16)
    requires Unclear(s, s1, mid) && Unclear(s1, s2, mid)
    ensures Unclear(s, s2, mid)
  {
    assert s2.sent[|s.sent|..] == s1.sent[|s.sent|..] + s2.sent[|s1.sent|..];
  }

  lemma UnclearMore(s: State, s': State, more: seq<Sent>, mid: uint16)
    requires s'.sent == s.sent + more && NoClear(more, mid)
    ensures Unclear(s, s', mid)
  {
    assert s'.sent[|s.sent|..] == more;
  }

  /** A list that differs in no content, and leaves the message in flight. */
  lemma SameStays(s: State, s': State, mid: uint16)
    requires Stays(s, mid) && s'.max == s.max && |s'.out| == |s.out|
    requires forall i :: 0 <= i < |s.out| ==> s'.out[i].content == s.out[i].content
    requires forall i :: 0 <= i < |s.out| && s.out[i].content.mid == mid && s.out[i].state != Invalid ==>
               s'.out[i].state != Invalid
    ensures Stays(s', mid)
  {
    if Flying(s, mid) { FindAfter(s'.out, mid, Find(s.out, mid)); }
  }

  lemma UnlinkStays(s: State, j: nat, mid: uint16)
    requires Stays(s, mid) && j < |s.out| && j == Find(s.out, s.out[j].content.mid)
    ensures Stays(Unlink(s, j), mid)
  {
    var u := Unlink(s, j);
    assert forall k :: 0 <= k < |u.out| ==> u.out[k] == s.out[if k < j then k else k + 1];
    if Flying(s, mid) && s.out[j].content.mid != mid {
      var i := Find(s.out, mid);
      var i' := if i < j then i else i - 1;
      assert u.out[i'] == s.out[i];
      FindAfter(u.out, mid, i');
      assert Flying(u, mid) && InFront(u, mid);
    } else {
      assert Absent(u, mid);
    }
  }

  lemma PromoteStays(s: State, mid: uint16)
    requires Stays(s, mid)
    ensures var s' := Promote(s, 0).0; Stays(s', mid) && Unpublished(s, s', mid)
  {
    PromoteSends(s, 0, mid);
    PromoteLogs(s, 0);
    SameStays(s, Promote(s, 0).0, mid);
  }

  lemma AckStays(s: State, other: uint16, mid: uint16)
    requires Stays(s, mid)
    ensures var s' := Ack(s, other); Stays(s', mid) && Unclear(s, s', mid)
  {
    var j := Find(s.out, other);
    if j < |s.out| {
      var u := Unlink(s, j);
      var p := Promote(u, 0).0;
      UnlinkStays(s, j, mid);
      PromoteStays(u, mid);
      var s' := Ack(s, other);
      assert s'.out == p.out && s'.sent == p.sent && s'.max == p.max;
    }
  }

  lemma PublishStays(s: State, c: Content, now: int, mid: uint16)
    requires Stays(s, mid) && NextMid(s.lastMid) != mid
    ensures var s' := Publish(s, c, now); Stays(s', mid) && Unclear(s, s', mid)
  {
    var s' := Publish(s, c, now);
    if Flying(s, mid) { FindAfter(s'.out, mid, Find(s.out, mid)); }
    var p := SentPublish(c.(mid := NextMid(s.lastMid)), false);
    UnclearMore(s, s', if c.qos == 0 || HasRoom(s) then [p] else [], mid);
  }

  lemma {:induction false} RetriesSetDup(ms: seq<Msg>, retry: nat, now: int)
    ensures forall k :: 0 <= k < |RetrySends(ms, retry, now)| && RetrySends(ms, retry, now)[k].SentPublish? ==>
              RetrySends(ms, retry, now)[k].dup
  {
    if ms == [] {
    } else {
      RetriesSetDup(ms[..|ms| - 1], retry, now);
    }
  }

  lemma RetryStays(s: State, now: Clock, mid: uint16)
    requires Stays(s, mid)
    ensures var s' := Retry(s, now); Stays(s', mid) && Unclear(s, s', mid)
  {
    RetriesSetDup(s.out, s.retry, now.out);
    RetriesSetDup(s.inn, s.retry, now.inn);
    UnclearMore(s, Retry(s, now), RetrySends(s.out, s.retry, now.out) + RetrySends(s.inn, s.retry, now.inn), mid);
    SameStays(s, Retry(s, now), mid);
  }

  lemma ResetStays(s: State, mid: uint16)
    requires Stays(s, mid)
    ensures Stays(Reset(s), mid)
  {
    var rs := Reset(s).out;
    forall k | 0 <= k < |s.out| ensures rs[k] == ResetMsg(s.out[k], k + 1, s.max) { ResetOutAt(s.out, s.max, k); }
    if Flying(s, mid) { FindAfter(rs, mid, Find(s.out, mid)); }
  }

  lemma OtherStays(s: State, e: Event, mid: uint16)
    requires Stays(s, mid) && (e.OnPubrec? || e.OnPublish? || e.OnPubrel? || e.DoDraw?)
    ensures var s' := Step(s, e); Stays(s', mid) && Unclear(s, s', mid)
  {
    var s' := Step(s, e);
    SameStays(s, s', mid);
    match e
    case OnPubrec(other, now) =>
      UnclearMore(s, s', if Find(s.out, other) < |s.out| then [SentPubrel(other)] else [], mid);
    case OnPublish(c, dup, now) =>
      var answer := if c.qos == 0 then [] else if c.qos == 1 then [SentPuback(c.mid)] else [SentPubrec(c.mid)];
      UnclearMore(s, s', answer, mid);
    case OnPubrel(other, flagsOk) => UnclearMore(s, s', if flagsOk then [SentPubcomp(other)] else [], mid);
    case DoDraw => UnclearMore(s, s', [], mid);
  }

  lemma StepStays(s: State, e: Event, mid: uint16)
    requires Stays(s, mid) && Keeps(s, mid, e)
    ensures var s' := Step(s, e); Stays(s', mid) && Unclear(s, s', mid)
  {
    match e
    case DoPublish(c, now) => PublishStays(s, c, now, mid);
    case OnAck(other) => AckStays(s, other, mid);
    case DoRetry(now) => RetryStays(s, now, mid);
    case DoReset => ResetStays(s, mid);
    case _ => OtherStays(s, e, mid);
  }

  lemma {:induction false} RunStays(s: State, es: seq<Event>, mid: uint16)
    requires Stays(s, mid) && RunKeeps(s, mid, es)
    ensures var s' := Run(s, es); Stays(s', mid) && Unclear(s, s', mid)
  {
    if es == [] {
    } else {
      var (front, e) := (es[..|es| - 1], es[|es| - 1]);
      RunStays(s, front, mid);
      StepStays(Run(s, front), e, mid);
      UnclearAdds(s, Run(s, front), Run(s, es), mid);
    }
  }

  /** No run that gives the id to no new message sends a PUBLISH with it and DUP clear. */
  ghost predicate NotClearAgain(s: State, mid: uint16) {
    forall es :: RunKeeps(s, mid, es) ==> Unclear(s, Run(s, es), mid)
  }

  /** A message in flight whose DUP flag is clear is not sent with DUP clear again exactly when
      it stands in front of the window's end, or there is no limit. */
  lemma NotClearAgainExactly(s: State, mid: uint16)
    requires AllQos(s.out) && Flying(s, mid) && !s.out[Find(s.out, mid)].dup
    ensures NotClearAgain(s, mid) <==> InFront(s, mid)
  {
    if InFront(s, mid) {
      forall es | RunKeeps(s, mid, es) ensures Unclear(s, Run(s, es), mid) { RunStays(s, es, mid); }
    } else {
      var (p, r) := (Find(s.out, mid), Reset(s));
      ResetAt(s);
      var rest := MoveUp(r, mid, false, p, |s.sent|);
      RepeatsLater(s, DoReset, rest, mid, false, |s.sent|);
      SaidIsClear(s, Run(s, [DoReset] + rest), mid);
    }
  }

  lemma SaidIsClear(s: State, s': State, mid: uint16)
    requires Said(s', mid, false, |s.sent|)
    ensures !Unclear(s, s', mid)
  {
    var k :| |s.sent| <= k < |s'.sent| && s'.sent[k].SentPublish? && s'.sent[k].content.mid == mid && !s'.sent[k].dup;
    assert s'.sent[|s.sent|..][k - |s.sent|] == s'.sent[k];
  }

  /** The case occurs: with a limit of 2, two messages are published, the client reconnects, and
      the first is acknowledged. The second is sent twice with DUP clear. */
  lemma SentTwiceClear(s0: State, a: Content, b: Content)
    requires s0 == Initial(2, 20, []) && a.qos == b.qos == 1
    ensures var (a', b') := (a.(mid := 1), b.(mid := 2));
            Run(s0, [DoPublish(a, 1), DoPublish(b, 1), DoReset, OnAck(1)]).sent
            == [SentPublish(a', false), SentPublish(b', false)] + [SentPublish(b', false)]
  {
    FoldFour(Step, s0, DoPublish(a, 1), DoPublish(b, 1), DoReset, OnAck(1));
    BothSent(s0, a, b);
    ResetAndAcked(Publish(Publish(s0, a, 1), b, 1), a.(mid := 1), b.(mid := 2));
  }

  lemma BothSent(s0: State, a: Content, b: Content)
    requires s0 == Initial(2, 20, []) && a.qos == b.qos == 1
    ensures var (s, a', b') := (Publish(Publish(s0, a, 1), b, 1), a.(mid := 1), b.(mid := 2));
            && s.out == [Msg(a', WaitPuback, false, 1), Msg(b', WaitPuback, false, 1)] && s.max == 2 && s.script == []
            && s.sent == [SentPublish(a', false), SentPublish(b', false)]
  {
    var s1 := Publish(s0, a, 1);
    assert s1.out == [Msg(a.(mid := 1), WaitPuback, false, 1)] && s1.sent == [SentPublish(a.(mid := 1), false)];
  }

  lemma ResetAndAcked(s: State, a: Content, b: Content)
    requires a.qos == b.qos == 1 && a.mid == 1 && b.mid == 2 && s.max == 2 && s.script == []
    requires s.out == [Msg(a, WaitPuback, false, 1), Msg(b, WaitPuback, false, 1)]
    ensures Ack(Reset(s), 1).sent == s.sent + [SentPublish(b, false)]
  {
    ResetOutAt(s.out, 2, 0);
    ResetOutAt(s.out, 2, 1);
    ActiveAndInvalid(s.out);
    var r := Reset(s);
    assert r.out == [Msg(a, WaitPuback, false, 0), Msg(b, Invalid, false, 0)] && r.inflight == 2;
    var u := Unlink(r, 0);
    assert u.out == [Msg(b, Invalid, false, 0)] && u.inflight == 1;
    assert Promote(Start(u, 0), 1).0 == Start(u, 0);
  }
}
