/** When a QoS 2 message can be published again after its PUBREC. */
module Qos2Repeat {
  import opened Codec
  import opened Engine
  import opened Window
  import opened Fate
  import opened ClosedForGood
  import opened DeadWindow
  import opened Qos2Sender

  /** A PUBLISH with the id and this DUP flag is among the packets from the n-th on. */
  predicate Said(s: State, mid: uint16, dup: bool, n: nat) {
    exists k :: n <= k < |s.sent| && s.sent[k].SentPublish? && s.sent[k].content.mid == mid && s.sent[k].dup == dup
  }

  /** The run gives the id to no new message, and publishes it. */
  ghost predicate Repeats(s: State, es: seq<Event>, mid: uint16, dup: bool, n: nat) {
    RunKeeps(s, mid, es) && Said(Run(s, es), mid, dup, n)
  }

  lemma RepeatsLater(s: State, e: Event, es: seq<Event>, mid: uint16, dup: bool, n: nat)
    requires Keeps(s, mid, e) && Repeats(Step(s, e), es, mid, dup, n)
    ensures Repeats(s, [e] + es, mid, dup, n)
  {
    RunCons(s, e, es);
    AlongCons((s1, e1) => Keeps(s1, mid, e1), s, e, es);
  }

  lemma RepeatsAlready(s: State, mid: uint16, dup: bool, n: nat)
    requires Said(s, mid, dup, n)
    ensures Repeats(s, [], mid, dup, n)
  {
  }

  /** The message with the id is the first one with it, waits at position p, and has this DUP
      flag. */
  predicate WaitsAt(s: State, mid: uint16, dup: bool, p: nat) {
    && AllQos(s.out) && s.max > 0 && p < |s.out| && s.out[p].content.mid == mid && s.out[p].state == Invalid
    && s.out[p].dup == dup
    && forall k :: 0 <= k < p ==> s.out[k].content.mid != mid
  }

  // ---------------------------------------------------------------- moving it up

  lemma {:induction false} PromoteGrows(s: State, k: nat)
    ensures s.sent <= Promote(s, k).0.sent
    decreases |s.out| - k
  {
    if k < |s.out| && HasRoom(s) {
      if s.out[k].state == Invalid && s.out[k].content.qos > 0 {
        if SendOk(s) { PromoteGrows(Start(s, k), k + 1); }
      } else {
        PromoteGrows(s, k + 1);
      }
    }
  }

  /** A promotion publishes a waiting message or leaves it waiting. */
  lemma {:induction false} PromoteHits(s: State, k: nat, p: nat, mid: uint16, dup: bool)
    requires WaitsAt(s, mid, dup, p) && k <= p
    ensures var s' := Promote(s, k).0; Said(s', mid, dup, |s.sent|) || WaitsAt(s', mid, dup, p)
    decreases p - k
  {
    if HasRoom(s) {
      if s.out[k].state == Invalid {
        var s1 := Start(s, k);
        assert s1.sent[|s.sent|] == SentPublish(s.out[k].content, s.out[k].dup);
        if SendOk(s) {
          PromoteGrows(s1, k + 1);
          if k < p { PromoteHits(s1, k + 1, p, mid, dup); }
        }
      } else {
        PromoteHits(s, k + 1, p, mid, dup);
      }
    }
  }

  lemma AckHits(s: State, mid: uint16, dup: bool, p: nat, other: uint16)
    requires WaitsAt(s, mid, dup, p) && other != mid && Find(s.out, other) < |s.out|
    ensures var (s', j) := (Ack(s, other), Find(s.out, other));
            Said(s', mid, dup, |s.sent|) || WaitsAt(s', mid, dup, if j < p then p - 1 else p)
    ensures s.sent <= Ack(s, other).sent && Ack(s, other).max == s.max
  {
    var j := Find(s.out, other);
    var (u, q) := (Unlink(s, j), if j < p then p - 1 else p);
    assert forall k :: 0 <= k < |u.out| ==> u.out[k] == s.out[if k < j then k else k + 1];
    PromoteHits(u, 0, q, mid, dup);
    PromoteGrows(u, 0);
    PromoteLogs(u, 0);
    var (v, s') := (Promote(u, 0).0, Ack(s, other));
    assert s'.out == v.out && s'.sent == v.sent && s'.max == v.max;
  }

  // ---------------------------------------------------------------- making room

  /** A new message is published and acknowledged, though it may not have been sent. */
  lemma RoundHits(s: State, mid: uint16, dup: bool, c: Content)
    requires WaitsAt(s, mid, dup, 0) && NextMid(s.lastMid) != mid && c.qos == 1
    ensures var (id, s1) := (NextMid(s.lastMid), Publish(s, c, 0));
            var s' := Ack(s1, id);
            && s.sent <= s'.sent && s'.max == s.max
            && (Said(s', mid, dup, |s.sent|) || (WaitsAt(s', mid, dup, 0) && s'.inflight == s.inflight - 1 >= s'.max))
  {
    var (id, s1) := (NextMid(s.lastMid), Publish(s, c, 0));
    var last := |s.out|;
    assert s1.out[last].content.mid == id && s1.out[0] == s.out[0];
    FoundBy(s1.out, id, last);
    var j := Find(s1.out, id);
    var u := Unlink(s1, j);
    AckHits(s1, mid, dup, 0, id);
    assert u.inflight == if HasRoom(s) then s.inflight else s.inflight - 1;
    if HasRoom(u) { HeadStarts(u, mid, dup); } else { assert Promote(u, 0) == (u, Success); }
    assert Ack(s1, id).sent == Promote(u, 0).0.sent;
  }

  lemma HeadStarts(u: State, mid: uint16, dup: bool)
    requires WaitsAt(u, mid, dup, 0) && HasRoom(u)
    ensures Said(Promote(u, 0).0, mid, dup, |u.sent|)
  {
    var s1 := Start(u, 0);
    assert s1.sent[|u.sent|] == SentPublish(u.out[0].content, u.out[0].dup);
    if SendOk(u) { PromoteGrows(s1, 1); }
    assert Promote(u, 0).0.sent[|u.sent|] == s1.sent[|u.sent|];
  }

  lemma SaidEarlier(s: State, mid: uint16, dup: bool, n: nat, m: nat)
    requires Said(s, mid, dup, m) && n <= m
    ensures Said(s, mid, dup, n)
  {
  }

  /** From the head of the list it is published once there is room. */
  lemma {:induction false} MakeRoom(s: State, mid: uint16, dup: bool, n: nat) returns (es: seq<Event>)
    requires WaitsAt(s, mid, dup, 0) && n <= |s.sent|
    ensures Repeats(s, es, mid, dup, n)
    decreases if HasRoom(s) then 0 else s.inflight - s.max + 1, if NextMid(s.lastMid) == mid then 1 else 0
  {
    if NextMid(s.lastMid) == mid {
      var rest := MakeRoom(Step(s, DoDraw), mid, dup, n);
      RepeatsLater(s, DoDraw, rest, mid, dup, n);
      es := [DoDraw] + rest;
    } else {
      var c := Content(0, [], [], 1, false);
      var (e, a) := (DoPublish(c, 0), OnAck(NextMid(s.lastMid)));
      var s1 := Step(s, e);
      var s' := Step(s1, a);
      RoundHits(s, mid, dup, c);
      var rest := [];
      if Said(s', mid, dup, |s.sent|) {
        SaidEarlier(s', mid, dup, n, |s.sent|);
        RepeatsAlready(s', mid, dup, n);
      } else {
        rest := MakeRoom(s', mid, dup, n);
      }
      RepeatsLater(s1, a, rest, mid, dup, n);
      RepeatsLater(s, e, [a] + rest, mid, dup, n);
      es := [e] + ([a] + rest);
    }
  }

  /** A waiting message is published when those in front of it are acknowledged, and some more
      behind it. */
  lemma {:induction false} MoveUp(s: State, mid: uint16, dup: bool, p: nat, n: nat) returns (es: seq<Event>)
    requires WaitsAt(s, mid, dup, p) && n <= |s.sent|
    ensures Repeats(s, es, mid, dup, n)
    decreases p
  {
    if p == 0 {
      es := MakeRoom(s, mid, dup, n);
    } else {
      var other := s.out[0].content.mid;
      var (e, s') := (OnAck(other), Ack(s, other));
      assert Find(s.out, other) == 0;
      AckHits(s, mid, dup, p, other);
      var rest := [];
      if Said(s', mid, dup, |s.sent|) {
        SaidEarlier(s', mid, dup, n, |s.sent|);
        RepeatsAlready(s', mid, dup, n);
      } else {
        rest := MoveUp(s', mid, dup, p - 1, n);
      }
      RepeatsLater(s, e, rest, mid, dup, n);
      es := [e] + rest;
    }
  }

  // ---------------------------------------------------------------- exactly

  /** No run that gives the id to no new message publishes it again, whatever the peer does. */
  ghost predicate NotRepeated(s: State, mid: uint16) {
    forall es :: RunKeeps(s, mid, es) ==> Unpublished(s, Run(s, es), mid)
  }

  lemma SaidIsPublished(s: State, s': State, mid: uint16, dup: bool)
    requires Said(s', mid, dup, |s.sent|)
    ensures !Unpublished(s, s', mid)
  {
    var k :| |s.sent| <= k < |s'.sent| && s'.sent[k].SentPublish? && s'.sent[k].content.mid == mid;
    assert s'.sent[|s.sent|..][k - |s.sent|] == s'.sent[k];
  }

  /** A message is not published again after its PUBREC exactly when it stands in front of the
      window's end, or there is no limit. */
  lemma NotRepeatedExactly(s: State, mid: uint16)
    requires AllQos(s.out) && Released(s, mid) && InnWaits(s)
    ensures NotRepeated(s, mid) <==> InFront(s, mid)
  {
    if InFront(s, mid) {
      forall es | RunKeeps(s, mid, es) ensures Unpublished(s, Run(s, es), mid) { NeverPublishedAgain(s, es, mid); }
    } else {
      var (p, r) := (Find(s.out, mid), Reset(s));
      ResetAt(s);
      var dup := s.out[p].dup;
      var rest := MoveUp(r, mid, dup, p, |s.sent|);
      RepeatsLater(s, DoReset, rest, mid, dup, |s.sent|);
      SaidIsPublished(s, Run(s, [DoReset] + rest), mid, dup);
    }
  }

  // ---------------------------------------------------------------- a limit of 1

  lemma OtherUnpublished(s: State, e: Event, mid: uint16)
    requires e.DoDraw? || e.OnPublish? || e.OnPubrel? || e.DoReset?
    ensures Unpublished(s, Step(s, e), mid)
  {
    match e
    case OnPublish(c, dup, now) =>
      assert (s.sent + [SentPuback(c.mid)])[|s.sent|..] == [SentPuback(c.mid)];
      assert (s.sent + [SentPubrec(c.mid)])[|s.sent|..] == [SentPubrec(c.mid)];
    case OnPubrel(other, flagsOk) => assert (s.sent + [SentPubcomp(other)])[|s.sent|..] == [SentPubcomp(other)];
    case _ =>
  }

  lemma DeadUnpublished(s: State, e: Event, mid: uint16)
    requires Dead(s) && Keeps(s, mid, e) && Answered(s, e) && InnWaits(s)
    ensures Unpublished(s, Step(s, e), mid)
  {
    match e
    case DoPublish(c, now) =>
      var p := SentPublish(c.(mid := NextMid(s.lastMid)), false);
      assert (s.sent + [p])[|s.sent|..] == [p];
    case OnAck(other) => assert Step(s, e) == s;
    case OnPubrec(other, now) => assert Step(s, e) == s;
    case DoRetry(now) =>
      var sends := RetrySends(s.inn, s.retry, now.inn);
      WaitingSilent(s.out, s.retry, now.out);
      IncomingSilent(s.inn, s.retry, now.inn);
      assert [] + sends == sends && (s.sent + sends)[|s.sent|..] == sends;
    case _ => OtherUnpublished(s, e, mid);
  }

  lemma LimitOneStep(s: State, e: Event, mid: uint16)
    requires Sound(s) && s.max == 1 && InnWaits(s) && Keeps(s, mid, e) && Answered(s, e)
    requires Settled(s, mid) || Dead(s)
    ensures var s' := Step(s, e);
            && Sound(s') && s'.max == 1 && InnWaits(s') && Unpublished(s, s', mid)
            && (Settled(s', mid) || Dead(s'))
  {
    StepMoves(s, e);
    StepInnWaits(s, e);
    if Dead(s) {
      DeadStep(s, e);
      DeadUnpublished(s, e, mid);
    } else if e == DoReset && Released(s, mid) {
      ResetDies(s);
      OtherUnpublished(s, e, mid);
    } else {
      StepSettled(s, e, mid);
    }
  }

  /** With a limit of 1 every reset takes the release back, and still the message is never
      published again as long as the peer answers active messages only: nothing is. */
  lemma {:induction false} LimitOneNeverAgain(s: State, es: seq<Event>, mid: uint16)
    requires Sound(s) && s.max == 1 && InnWaits(s) && Released(s, mid)
    requires AnswersActive(s, es) && RunKeeps(s, mid, es)
    ensures var s' := Run(s, es);
            && Sound(s') && s'.max == 1 && InnWaits(s') && Unpublished(s, s', mid)
            && (Settled(s', mid) || Dead(s'))
  {
    if es == [] {
    } else {
      var (front, e) := (es[..|es| - 1], es[|es| - 1]);
      LimitOneNeverAgain(s, front, mid);
      LimitOneStep(Run(s, front), e, mid);
      UnpublishedAdds(s, Run(s, front), Run(s, es), mid);
    }
  }
}
