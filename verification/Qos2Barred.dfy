/** Whether a QoS 2 message that a reset has put back among the waiting ones is published again
    when the peer answers active messages only: it is not exactly when the wall of module
    ClosedForGood stands. */
module Qos2Barred {
  import opened Codec
  import opened Engine
  import opened Window
  import opened Fate
  import opened ClosedWindow
  import opened ClosedForGood
  import opened DeadWindow
  import opened Qos2Sender
  import opened Qos2Repeat

  // ---------------------------------------------------------------- behind the wall

  /** There is a wall and no room, and every message with the id is a waiting one of QoS 2. */
  ghost predicate Barred(s: State, mid: uint16) {
    && Sound(s) && InnWaits(s) && s.max > 0 && Drift(s) >= s.max && Walled(s.out, s.max - 1)
    && Parked(s.out, mid)
  }

  predicate Parked(ms: seq<Msg>, mid: uint16) {
    forall k :: 0 <= k < |ms| && ms[k].content.mid == mid ==> IsWaitingTwo(ms[k])
  }

  lemma ParkedWithout(ms: seq<Msg>, i: nat, mid: uint16)
    requires Parked(ms, mid) && i < |ms|
    ensures Parked(Without(ms, i), mid)
  {
    var rest := Without(ms, i);
    assert forall k :: 0 <= k < |rest| ==> rest[k] == ms[if k < i then k else k + 1];
  }

  lemma BarredPublish(s: State, c: Content, now: int, mid: uint16)
    requires Barred(s, mid) && NextMid(s.lastMid) != mid
    ensures Barred(Publish(s, c, now), mid) && Unpublished(s, Publish(s, c, now), mid)
  {
    var (s', content) := (Publish(s, c, now), c.(mid := NextMid(s.lastMid)));
    PublishMoves(s, c, now);
    EffectiveWindow(s);
    if c.qos == 0 {
      assert s'.sent[|s.sent|..] == [SentPublish(content, false)];
    } else {
      WalledAppend(s.out, Msg(content, Invalid, false, now), s.max - 1);
    }
  }

  lemma BarredAck(s: State, other: uint16, mid: uint16)
    requires Barred(s, mid) && Answered(s, OnAck(other))
    ensures Barred(Ack(s, other), mid) && Unpublished(s, Ack(s, other), mid)
  {
    var i := Find(s.out, other);
    AckMoves(s, other);
    if i < |s.out| {
      var u := Unlink(s, i);
      UnlinkCounts(s, i);
      EffectiveWindow(u);
      assert Promote(u, 0) == (u, Success);
      RemoveKeepsWall(s.out, i, s.max - 1);
      ParkedWithout(s.out, i, mid);
      assert Ack(s, other).out == u.out && Ack(s, other).sent == s.sent;
    }
  }

  lemma BarredPubrec(s: State, other: uint16, now: int, mid: uint16)
    requires Barred(s, mid) && Answered(s, OnPubrec(other, now))
    ensures Barred(Pubrec(s, other, now), mid) && Unpublished(s, Pubrec(s, other, now), mid)
  {
    var s' := Pubrec(s, other, now);
    PubrecMoves(s, other, now);
    WallsSame(s.out, s'.out);
    if Find(s.out, other) < |s.out| { assert s'.sent[|s.sent|..] == [SentPubrel(other)]; }
  }

  lemma {:induction false} WaitingNotPublished(ms: seq<Msg>, retry: nat, now: int, mid: uint16)
    requires forall k :: 0 <= k < |ms| && ms[k].content.mid == mid ==> ms[k].state == Invalid
    ensures NoPublish(RetrySends(ms, retry, now), mid)
  {
    if ms == [] {
    } else {
      WaitingNotPublished(ms[..|ms| - 1], retry, now, mid);
    }
  }

  lemma BarredRetry(s: State, now: Clock, mid: uint16)
    requires Barred(s, mid)
    ensures Barred(Retry(s, now), mid) && Unpublished(s, Retry(s, now), mid)
  {
    var s' := Retry(s, now);
    var (a, b) := (RetrySends(s.out, s.retry, now.out), RetrySends(s.inn, s.retry, now.inn));
    RetryMoves(s, now);
    WallsSame(s.out, s'.out);
    WaitingNotPublished(s.out, s.retry, now.out, mid);
    IncomingSilent(s.inn, s.retry, now.inn);
    assert s'.sent[|s.sent|..] == a + b;
  }

  lemma BarredReset(s: State, mid: uint16)
    requires Barred(s, mid)
    ensures Barred(Reset(s), mid)
  {
    ResetMoves(s);
    ResetAt(s);
    WalledAfterReset(s);
    WalledIsWaiting(Reset(s).out, s.max - 1);
    StepInnWaits(s, DoReset);
  }

  lemma BarredStep(s: State, e: Event, mid: uint16)
    requires Barred(s, mid) && Answered(s, e) && Keeps(s, mid, e)
    ensures Barred(Step(s, e), mid) && Unpublished(s, Step(s, e), mid)
  {
    StepInnWaits(s, e);
    match e
    case DoPublish(c, now) => BarredPublish(s, c, now, mid);
    case OnAck(other) => BarredAck(s, other, mid);
    case OnPubrec(other, now) => BarredPubrec(s, other, now, mid);
    case DoRetry(now) => BarredRetry(s, now, mid);
    case DoReset => BarredReset(s, mid);
    case _ =>
      StepMoves(s, e);
      OtherUnpublished(s, e, mid);
  }

  lemma {:induction false} BarredRun(s: State, es: seq<Event>, mid: uint16)
    requires Barred(s, mid) && AnswersActive(s, es) && RunKeeps(s, mid, es)
    ensures Barred(Run(s, es), mid) && Unpublished(s, Run(s, es), mid)
  {
    if es == [] {
    } else {
      var (front, e) := (es[..|es| - 1], es[|es| - 1]);
      BarredRun(s, front, mid);
      BarredStep(Run(s, front), e, mid);
      UnpublishedAdds(s, Run(s, front), Run(s, es), mid);
    }
  }

  // ---------------------------------------------------------------- a free packet id

  function IdsOf(ms: seq<Msg>): (ids: set<int>)
    ensures |ids| <= |ms| && forall k :: 0 <= k < |ms| ==> ms[k].content.mid as int in ids
  {
    if ms == [] then {} else IdsOf(ms[..|ms| - 1]) + {ms[|ms| - 1].content.mid as int}
  }

  function UpTo(n: nat): (ns: set<int>)
    ensures |ns| == n && forall i :: i in ns <==> 1 <= i <= n
  {
    if n == 0 then {} else UpTo(n - 1) + {n}
  }

  lemma {:induction false} Pigeonhole(n: nat, ids: set<int>)
    requires UpTo(n) <= ids
    ensures n <= |ids|
  {
    if n > 0 {
      assert n in UpTo(n) && UpTo(n - 1) <= ids - {n};
      Pigeonhole(n - 1, ids - {n});
    }
  }

  /** With fewer than 65535 messages listed some id is free. */
  lemma FreeId(ms: seq<Msg>) returns (id: uint16)
    requires |ms| < 65535
    ensures id > 0 && forall k :: 0 <= k < |ms| ==> ms[k].content.mid != id
  {
    var ids := IdsOf(ms);
    assert !(UpTo(65535) <= ids) by { if UpTo(65535) <= ids { Pigeonhole(65535, ids); } }
    var i :| i in UpTo(65535) && i !in ids;
    id := i;
  }

  /** How many draws away an id is. */
  function Draws(lastMid: uint16, id: uint16): int {
    if lastMid < id then id - lastMid else id + 65535 - lastMid
  }

  /** The run answers active messages only, gives the id to no new message, and publishes it. */
  ghost predicate Frees(s: State, es: seq<Event>, mid: uint16, dup: bool, n: nat) {
    AnswersActive(s, es) && Repeats(s, es, mid, dup, n)
  }

  lemma FreesLater(s: State, e: Event, es: seq<Event>, mid: uint16, dup: bool, n: nat)
    requires Answered(s, e) && Keeps(s, mid, e) && Frees(Step(s, e), es, mid, dup, n)
    ensures Frees(s, [e] + es, mid, dup, n)
  {
    RepeatsLater(s, e, es, mid, dup, n);
    AlongCons(Answered, s, e, es);
  }

  // ---------------------------------------------------------------- without the wall

  /** What the way out keeps. */
  ghost predicate Open(s: State, mid: uint16, dup: bool, p: nat, n: nat) {
    && Sound(s) && DistinctIds(s.out) && WaitsAt(s, mid, dup, p) && s.out[p].content.qos == 2
    && n <= |s.sent| && (Drift(s) < s.max || !Walled(s.out, s.max - 1))
  }

  lemma AckOpen(s: State, k: nat, mid: uint16, dup: bool, p: nat, n: nat)
    requires Open(s, mid, dup, p, n) && k < |s.out| && IsActive(s.out[k])
    ensures var (e, s') := (OnAck(s.out[k].content.mid), Ack(s, s.out[k].content.mid));
            && Answered(s, e) && |s'.out| == |s.out| - 1
            && (Said(s', mid, dup, |s.sent|) || Open(s', mid, dup, if k < p then p - 1 else p, n))
  {
    var other := s.out[k].content.mid;
    FindDistinct(s.out, k);
    AckActive(s, k);
    AckHits(s, mid, dup, p, other);
    AckKeepsQos(s, k, p);
    if Drift(s) >= s.max { RemoveAddsNoWall(s.out, k, s.max - 1); }
  }

  lemma AckKeepsQos(s: State, k: nat, p: nat)
    requires DistinctIds(s.out) && k < |s.out| && p < |s.out| && p != k
    ensures var (s', p') := (Ack(s, s.out[k].content.mid), if k < p then p - 1 else p);
            p' < |s'.out| && s'.out[p'].content == s.out[p].content
  {
    var (s', p') := (Ack(s, s.out[k].content.mid), if k < p then p - 1 else p);
    FindDistinct(s.out, k);
    AckContents(s, s.out[k].content.mid);
    assert |s'.out| == |Contents(s'.out)| == |s.out| - 1;
    assert s'.out[p'].content == Contents(s'.out)[p'];
  }

  lemma ResetOpen(s: State, mid: uint16, dup: bool, p: nat, n: nat)
    requires Open(s, mid, dup, p, n) && AllWait(s.out) && Drift(s) >= s.max
    ensures var r := Reset(s);
            Open(r, mid, dup, p, n) && |r.out| == |s.out| && (Active(r.out) == 0 ==> Drift(r) < r.max)
  {
    ResetSound(s);
    ResetAt(s);
    NoWallReset(s);
    NothingActivated(s);
    ResetMoves(s);
    ResetDup(s, p);
  }

  lemma ResetDup(s: State, p: nat)
    requires AllQos(s.out) && p < |s.out|
    ensures Reset(s).out[p].dup == s.out[p].dup
  {
  }

  /** A new message with a free id is started and acknowledged, which starts the first waiting
      one. */
  lemma RoundOpen(s: State, c: Content, mid: uint16, dup: bool, p: nat, n: nat)
    requires Open(s, mid, dup, p, n) && AllWait(s.out) && Drift(s) < s.max && c.qos == 1
    requires forall k :: 0 <= k < |s.out| ==> s.out[k].content.mid != NextMid(s.lastMid)
    ensures var (id, s1) := (NextMid(s.lastMid), Publish(s, c, 0));
            var s2 := Ack(s1, id);
            && Answered(s1, OnAck(id)) && |s2.out| == |s.out|
            && (Said(s2, mid, dup, n) || (Open(s2, mid, dup, p, n) && Active(s2.out) > 0))
  {
    var (id, s1) := (NextMid(s.lastMid), Publish(s, c, 0));
    PublishOpen(s, c, mid, dup, p, n);
    AckOpen(s1, |s.out|, mid, dup, p, n);
    FindDistinct(s1.out, |s.out|);
    var s2 := Ack(s1, id);
    if Said(s2, mid, dup, |s1.sent|) {
      SaidEarlier(s2, mid, dup, n, |s1.sent|);
    } else {
      FirstStarted(s1, |s.out|);
    }
  }

  lemma PublishOpen(s: State, c: Content, mid: uint16, dup: bool, p: nat, n: nat)
    requires Open(s, mid, dup, p, n) && AllWait(s.out) && Drift(s) < s.max && c.qos == 1
    requires forall k :: 0 <= k < |s.out| ==> s.out[k].content.mid != NextMid(s.lastMid)
    ensures var s1 := Publish(s, c, 0);
            && |s1.out| == |s.out| + 1 && s1.out[|s.out|].content.mid == NextMid(s.lastMid) && IsActive(s1.out[|s.out|])
            && s1.out[..|s.out|] == s.out && Sound(s1) && DistinctIds(s1.out) && WaitsAt(s1, mid, dup, p)
            && s1.max == s.max && Drift(s1) == Drift(s) && s.sent <= s1.sent && s1.out[p] == s.out[p]
  {
    var s1 := Publish(s, c, 0);
    CountZero(s.out, IsActive);
    PublishMoves(s, c, 0);
    assert s1.out == s.out + [s1.out[|s.out|]];
  }

  /** The removal leaves room, and the first waiting message is started. */
  lemma FirstStarted(s: State, k: nat)
    requires Sound(s) && DistinctIds(s.out) && s.max > 0 && 0 < k < |s.out| && k == |s.out| - 1
    requires AllWait(s.out[..k]) && IsActive(s.out[k]) && Drift(s) < s.max
    ensures Active(Ack(s, s.out[k].content.mid).out) > 0
  {
    var (mid, u) := (s.out[k].content.mid, Unlink(s, k));
    FindDistinct(s.out, k);
    assert u.out == s.out[..k];
    UnlinkCounts(s, k);
    CountZero(u.out, IsActive);
    assert HasRoom(u) && u.out[0].state == Invalid;
    var v := Promote(u, 0).0;
    StartedStays(u);
    CountZero(v.out, IsActive);
    assert Ack(s, mid).out == v.out;
  }

  lemma StartedStays(u: State)
    requires AllQos(u.out) && u.out != [] && HasRoom(u) && u.out[0].state == Invalid
    ensures var v := Promote(u, 0).0; v.out != [] && IsActive(v.out[0])
  {
    var u1 := Start(u, 0);
    if SendOk(u) { PromoteBehind(u1, 1); }
  }

  lemma {:induction false} PromoteBehind(s: State, k: nat)
    ensures var v := Promote(s, k).0;
            |v.out| == |s.out| && forall i :: 0 <= i < k && i < |s.out| ==> v.out[i] == s.out[i]
    decreases |s.out| - k
  {
    if k < |s.out| && HasRoom(s) {
      if s.out[k].state == Invalid && s.out[k].content.qos > 0 {
        if SendOk(s) { PromoteBehind(Start(s, k), k + 1); }
      } else {
        PromoteBehind(s, k + 1);
      }
    }
  }

  /** The client draws ids until the free one is next. */
  lemma {:induction false} DrawTo(s: State, id: uint16, mid: uint16, dup: bool, p: nat, n: nat) returns (es: seq<Event>)
    requires Open(s, mid, dup, p, n) && AllWait(s.out) && Drift(s) < s.max && |s.out| < 65535
    requires id > 0 && forall k :: 0 <= k < |s.out| ==> s.out[k].content.mid != id
    ensures Frees(s, es, mid, dup, n)
    decreases |s.out|, 1, Draws(s.lastMid, id)
  {
    if NextMid(s.lastMid) == id {
      es := Round(s, mid, dup, p, n);
    } else {
      var rest := DrawTo(Step(s, DoDraw), id, mid, dup, p, n);
      FreesLater(s, DoDraw, rest, mid, dup, n);
      es := [DoDraw] + rest;
    }
  }

  lemma {:induction false} Round(s: State, mid: uint16, dup: bool, p: nat, n: nat) returns (es: seq<Event>)
    requires Open(s, mid, dup, p, n) && AllWait(s.out) && Drift(s) < s.max && |s.out| < 65535
    requires forall k :: 0 <= k < |s.out| ==> s.out[k].content.mid != NextMid(s.lastMid)
    ensures Frees(s, es, mid, dup, n)
    decreases |s.out|, 1, 0
  {
    var c := Content(0, [], [], 1, false);
    var (e, a) := (DoPublish(c, 0), OnAck(NextMid(s.lastMid)));
    var s1 := Step(s, e);
    var s2 := Step(s1, a);
    RoundOpen(s, c, mid, dup, p, n);
    var rest := FreeOr(s2, mid, dup, p, n);
    FreesLater(s1, a, rest, mid, dup, n);
    assert s.out[p].content.mid == mid;
    FreesLater(s, e, [a] + rest, mid, dup, n);
    es := [e] + ([a] + rest);
  }

  /** Unless it has happened already. */
  lemma {:induction false} FreeOr(s: State, mid: uint16, dup: bool, p: nat, n: nat) returns (es: seq<Event>)
    requires Said(s, mid, dup, n) || (Open(s, mid, dup, p, n) && |s.out| < 65535 && Active(s.out) > 0)
    ensures Frees(s, es, mid, dup, n)
    decreases |s.out|, 0, 1
  {
    if Said(s, mid, dup, n) {
      RepeatsAlready(s, mid, dup, n);
      es := [];
    } else {
      es := Free(s, mid, dup, p, n);
    }
  }

  /** Without a wall, or with room, the message is published in some run. */
  lemma {:induction false} Free(s: State, mid: uint16, dup: bool, p: nat, n: nat) returns (es: seq<Event>)
    requires Open(s, mid, dup, p, n) && |s.out| < 65535
    ensures Frees(s, es, mid, dup, n)
    decreases |s.out|, if Active(s.out) == 0 then 2 else 0, 0
  {
    CountZero(s.out, IsActive);
    if k :| 0 <= k < |s.out| && IsActive(s.out[k]) {
      es := FreeAck(s, k, mid, dup, p, n);
    } else if Drift(s) < s.max {
      es := FreeIdle(s, mid, dup, p, n);
    } else {
      es := FreeReset(s, mid, dup, p, n);
    }
  }

  lemma {:induction false} FreeAck(s: State, k: nat, mid: uint16, dup: bool, p: nat, n: nat) returns (es: seq<Event>)
    requires Open(s, mid, dup, p, n) && |s.out| < 65535 && k < |s.out| && IsActive(s.out[k])
    ensures Frees(s, es, mid, dup, n)
    decreases |s.out| - 1, 3, 0
  {
    var e := OnAck(s.out[k].content.mid);
    AckOpen(s, k, mid, dup, p, n);
    var (s', p') := (Step(s, e), if k < p then p - 1 else p);
    var rest := [];
    if Said(s', mid, dup, |s.sent|) {
      SaidEarlier(s', mid, dup, n, |s.sent|);
      RepeatsAlready(s', mid, dup, n);
    } else {
      rest := Free(s', mid, dup, p', n);
    }
    FreesLater(s, e, rest, mid, dup, n);
    es := [e] + rest;
  }

  lemma {:induction false} FreeIdle(s: State, mid: uint16, dup: bool, p: nat, n: nat) returns (es: seq<Event>)
    requires Open(s, mid, dup, p, n) && |s.out| < 65535 && AllWait(s.out) && Drift(s) < s.max
    ensures Frees(s, es, mid, dup, n)
    decreases |s.out|, 1, 65537
  {
    var id := FreeId(s.out);
    es := DrawTo(s, id, mid, dup, p, n);
  }

  lemma {:induction false} FreeReset(s: State, mid: uint16, dup: bool, p: nat, n: nat) returns (es: seq<Event>)
    requires Open(s, mid, dup, p, n) && |s.out| < 65535 && AllWait(s.out) && Drift(s) >= s.max
    ensures Frees(s, es, mid, dup, n)
    decreases |s.out|, 1, 65538
  {
    var r := Reset(s);
    ResetOpen(s, mid, dup, p, n);
    CountZero(r.out, IsActive);
    var rest;
    if Active(r.out) == 0 {
      rest := FreeIdle(r, mid, dup, p, n);
    } else {
      rest := Free(r, mid, dup, p, n);
    }
    FreesLater(s, DoReset, rest, mid, dup, n);
    es := [DoReset] + rest;
  }

  // ---------------------------------------------------------------- exactly

  /** No run that answers active messages only and gives the id to no new message publishes it. */
  ghost predicate NeverPublished(s: State, mid: uint16) {
    forall es :: AnswersActive(s, es) && RunKeeps(s, mid, es) ==> Unpublished(s, Run(s, es), mid)
  }

  /** A waiting QoS 2 message is never published exactly when there is no room and a wall. */
  lemma NeverPublishedExactly(s: State, mid: uint16, p: nat)
    requires Sound(s) && DistinctIds(s.out) && InnWaits(s) && s.max > 0 && |s.out| < 65535
    requires p < |s.out| && s.out[p].content.mid == mid && IsWaitingTwo(s.out[p])
    ensures NeverPublished(s, mid) <==> Drift(s) >= s.max && Walled(s.out, s.max - 1)
  {
    if Drift(s) >= s.max && Walled(s.out, s.max - 1) {
      assert Barred(s, mid);
      forall es | AnswersActive(s, es) && RunKeeps(s, mid, es) ensures Unpublished(s, Run(s, es), mid) {
        BarredRun(s, es, mid);
      }
    } else {
      var dup := s.out[p].dup;
      var es := Free(s, mid, dup, p, |s.sent|);
      SaidIsPublished(s, Run(s, es), mid, dup);
    }
  }

  predicate IsTwo(m: Msg) {
    m.content.qos == 2
  }

  /** Before the reset: the waiting QoS 2 messages in front of the window's end, and all QoS 2
      messages behind it but the last of the list, are limit - 1 or more. */
  predicate WallAhead(s: State)
    requires s.max > 0
  {
    |s.out| >= s.max && Walls(s.out, s.max - 1) + Count(s.out[s.max - 1..|s.out| - 1], IsTwo) >= s.max - 1
  }

  lemma {:induction false} CountAgree(a: seq<Msg>, b: seq<Msg>, p: Msg -> bool, q: Msg -> bool)
    requires |a| == |b| && forall k :: 0 <= k < |a| ==> p(a[k]) == q(b[k])
    ensures Count(a, p) == Count(b, q)
  {
    if a == [] {
    } else {
      CountAgree(a[..|a| - 1], b[..|b| - 1], p, q);
    }
  }

  /** The walls of the list the reset leaves. */
  lemma WallsLeft(s: State)
    requires Sound(s) && s.max > 0 && |s.out| >= s.max
    ensures Walls(Reset(s).out, |s.out| - 1)
         == Walls(s.out, s.max - 1) + Count(s.out[s.max - 1..|s.out| - 1], IsTwo)
  {
    var (rs, m, n) := (Reset(s).out, s.max - 1, |s.out| - 1);
    assert rs[..n] == rs[..m] + rs[m..n];
    CountConcat(rs[..m], rs[m..n], IsWaitingTwo);
    FrontLeft(s);
    BackLeft(s);
  }

  lemma FrontLeft(s: State)
    requires Sound(s) && s.max > 0 && |s.out| >= s.max
    ensures Count(Reset(s).out[..s.max - 1], IsWaitingTwo) == Count(s.out[..s.max - 1], IsWaitingTwo)
  {
    var (a, b) := (Reset(s).out[..s.max - 1], s.out[..s.max - 1]);
    ResetAt(s);
    assert forall k :: 0 <= k < |a| ==> a[k] == Reset(s).out[k] && b[k] == s.out[k];
    CountAgree(a, b, IsWaitingTwo, IsWaitingTwo);
  }

  lemma BackLeft(s: State)
    requires Sound(s) && s.max > 0 && |s.out| >= s.max
    ensures Count(Reset(s).out[s.max - 1..|s.out| - 1], IsWaitingTwo) == Count(s.out[s.max - 1..|s.out| - 1], IsTwo)
  {
    var (m, n) := (s.max - 1, |s.out| - 1);
    var (a, b) := (Reset(s).out[m..n], s.out[m..n]);
    ResetAt(s);
    assert forall k :: 0 <= k < |a| ==> a[k] == Reset(s).out[k + m] && b[k] == s.out[k + m];
    CountAgree(a, b, IsWaitingTwo, IsTwo);
  }

  lemma WalledIsAhead(s: State)
    requires Sound(s) && s.max > 0
    ensures Walled(Reset(s).out, s.max - 1) <==> WallAhead(s)
  {
    if WallAhead(s) { AheadIsWalled(s); }
    if Walled(Reset(s).out, s.max - 1) { WalledWasAhead(s); }
  }

  lemma AheadIsWalled(s: State)
    requires Sound(s) && s.max > 0 && WallAhead(s)
    ensures Walled(Reset(s).out, s.max - 1)
  {
    var rs := Reset(s).out;
    ResetAt(s);
    WallsLeft(s);
    assert rs[|rs| - 1].state == Invalid && Walls(rs, |rs| - 1) >= s.max - 1;
  }

  lemma WalledWasAhead(s: State)
    requires Sound(s) && s.max > 0 && Walled(Reset(s).out, s.max - 1)
    ensures WallAhead(s)
  {
    var rs := Reset(s).out;
    var j :| 0 <= j < |rs| && rs[j].state == Invalid && Walls(rs, j) >= s.max - 1;
    WallsMore(rs, rs, j);
    WallsGrow(rs, j, |rs| - 1);
    WallsLeft(s);
  }

  /** What a reset makes of a message after its PUBREC, at every limit: no run behind it publishes
      the message again, with a peer that answers active messages only, exactly when it stands
      in front of the window's end or the reset leaves a wall. */
  lemma RepeatedAfterResetExactly(s: State, mid: uint16)
    requires Sound(s) && DistinctIds(s.out) && InnWaits(s) && |s.out| < 65535 && Released(s, mid)
    ensures NeverPublished(Reset(s), mid) <==> InFront(s, mid) || WallAhead(s)
  {
    var (r, p) := (Reset(s), Find(s.out, mid));
    ResetReleased(s, mid);
    ResetSound(s);
    StepInnWaits(s, DoReset);
    if InFront(s, mid) {
      ReleasedStays(r, s, mid);
    } else {
      ResetAt(s);
      NeverPublishedExactly(r, mid, p);
      WalledIsAhead(s);
      if Walled(r.out, r.max - 1) { WalledIsWaiting(r.out, r.max - 1); }
      ResetMoves(s);
    }
  }

  lemma ReleasedStays(r: State, s: State, mid: uint16)
    requires r == Reset(s) && Sound(s) && InnWaits(r) && Released(s, mid) && Released(r, mid) && InFront(s, mid)
    ensures NeverPublished(r, mid)
  {
    FoundBy(r.out, mid, Find(s.out, mid));
    forall es | AnswersActive(r, es) && RunKeeps(r, mid, es) ensures Unpublished(r, Run(r, es), mid) {
      NeverPublishedAgain(r, es, mid);
    }
  }
}
