/** Waiting messages of QoS 2 in front of a list that has reached the limit: nothing moves any
    more. With a limit of 1 a single listed message at a reset is enough. */
module DeadWindow {
  import opened Engine
  import opened Runs
  import opened Window
  import opened Fate
  import opened Limits
  import opened ClosedWindow
  import opened ClosedForGood

  /** No message is in flight, there is no room, and a reset would neither activate a message
      nor make room. */
  predicate Dead(s: State) {
    && Sound(s) && s.max > 0 && s.inflight >= s.max && |s.out| >= s.max && AllWait(s.out)
    && forall k :: 0 <= k < |s.out| && k + 1 < s.max ==> s.out[k].content.qos == 2
  }

  /** What stays of a dead window: it is dead, has the same messages in front and the same
      transmissions with DUP clear. */
  ghost predicate Lasts(s: State, s': State) {
    && Dead(s') && s'.max == s.max && Firsts(s'.sent) == Firsts(s.sent)
    && |s.out| <= |s'.out| && forall k :: 0 <= k < |s.out| ==> s'.out[k].content == s.out[k].content
  }

  /** No PUBLISH of QoS 1 or 2 was sent from s to s', first or repeated. */
  predicate Silent(s: State, s': State) {
    && s.sent <= s'.sent
    && forall k :: |s.sent| <= k < |s'.sent| && s'.sent[k].SentPublish? ==> s'.sent[k].content.qos == 0
  }

  lemma SilentAdds(s: State, s': State, more: seq<Sent>)
    requires s'.sent == s.sent + more
    requires forall k :: 0 <= k < |more| && more[k].SentPublish? ==> more[k].content.qos == 0
    ensures Silent(s, s')
  {
    forall k | |s.sent| <= k < |s'.sent| && s'.sent[k].SentPublish? ensures s'.sent[k].content.qos == 0 {
      assert s'.sent[k] == more[k - |s.sent|];
    }
  }

  lemma DeadPublish(s: State, c: Content, now: int)
    requires Dead(s)
    ensures Lasts(s, Publish(s, c, now)) && Silent(s, Publish(s, c, now))
  {
    var content := c.(mid := NextMid(s.lastMid));
    var s' := Publish(s, c, now);
    if c.qos == 0 {
      FirstsSnoc(s.sent, SentPublish(content, false));
      assert s'.out == s.out;
    } else {
      assert s'.out == s.out + [Msg(content, Invalid, false, now)] && s'.sent == s.sent;
    }
  }

  lemma DeadReset(s: State)
    requires Dead(s)
    ensures Lasts(s, Reset(s)) && Silent(s, Reset(s))
  {
    ResetMoves(s);
    ResetAt(s);
    ActiveAndInvalid(s.out);
    assert Reset(s).inflight == |s.out|;
  }

  lemma {:induction false} WaitingSilent(ms: seq<Msg>, retry: nat, now: int)
    requires AllWait(ms)
    ensures RetrySends(ms, retry, now) == []
  {
    if ms == [] {
    } else {
      WaitingSilent(ms[..|ms| - 1], retry, now);
    }
  }

  lemma {:induction false} IncomingSilent(ms: seq<Msg>, retry: nat, now: int)
    requires forall k :: 0 <= k < |ms| ==> ms[k].state == WaitPubrel
    ensures forall k :: 0 <= k < |RetrySends(ms, retry, now)| ==> !RetrySends(ms, retry, now)[k].SentPublish?
  {
    if ms == [] {
    } else {
      IncomingSilent(ms[..|ms| - 1], retry, now);
    }
  }

  /** A list that differs in timestamps and flags only. */
  lemma SameDead(s: State, s': State)
    requires Dead(s) && s'.max == s.max && s'.inflight == s.inflight && Firsts(s'.sent) == Firsts(s.sent)
    requires |s'.out| == |s.out| == s'.outLen && s'.inLen == |s'.inn|
    requires forall k :: 0 <= k < |s.out| ==> s'.out[k].content == s.out[k].content && s'.out[k].state == s.out[k].state
    ensures Lasts(s, s')
  {
  }

  lemma RetrySilent(s: State, now: Clock)
    requires AllWait(s.out) && InnWaits(s)
    ensures Silent(s, Retry(s, now))
  {
    var sends := RetrySends(s.inn, s.retry, now.inn);
    WaitingSilent(s.out, s.retry, now.out);
    IncomingSilent(s.inn, s.retry, now.inn);
    assert [] + sends == sends;
    SilentAdds(s, Retry(s, now), sends);
  }

  lemma DeadRetry(s: State, now: Clock)
    requires Dead(s)
    ensures Lasts(s, Retry(s, now)) && (InnWaits(s) ==> Silent(s, Retry(s, now)))
  {
    RetryFirsts(s, now);
    SameDead(s, Retry(s, now));
    if InnWaits(s) { RetrySilent(s, now); }
  }

  lemma OtherSilent(s: State, e: Event)
    requires e.DoDraw? || e.OnPublish? || e.OnPubrel?
    ensures Silent(s, Step(s, e))
  {
    match e
    case OnPublish(c, dup, now) =>
      var answer := if c.qos == 0 then [] else if c.qos == 1 then [SentPuback(c.mid)] else [SentPubrec(c.mid)];
      SilentAdds(s, Step(s, e), answer);
    case OnPubrel(mid, flagsOk) => SilentAdds(s, Step(s, e), if flagsOk then [SentPubcomp(mid)] else []);
    case DoDraw => SilentAdds(s, Step(s, e), []);
  }

  lemma DeadOther(s: State, e: Event)
    requires Dead(s) && (e.DoDraw? || e.OnPublish? || e.OnPubrel?)
    ensures Lasts(s, Step(s, e)) && Silent(s, Step(s, e))
  {
    OtherFirsts(s, e);
    OtherSilent(s, e);
    OtherOut(s, e);
    SameDead(s, Step(s, e));
  }

  lemma OtherOut(s: State, e: Event)
    requires (e.DoDraw? || e.OnPublish? || e.OnPubrel?) && s.inLen == |s.inn|
    ensures var s' := Step(s, e);
            && s'.out == s.out && s'.outLen == s.outLen && s'.max == s.max && s'.inflight == s.inflight
            && s'.inLen == |s'.inn|
  {
  }

  lemma DeadStep(s: State, e: Event)
    requires Dead(s) && Answered(s, e)
    ensures Lasts(s, Step(s, e)) && (InnWaits(s) ==> Silent(s, Step(s, e)))
  {
    match e
    case DoPublish(c, now) => DeadPublish(s, c, now);
    case OnAck(mid) => assert Step(s, e) == s;
    case OnPubrec(mid, now) => assert Step(s, e) == s;
    case DoReset => DeadReset(s);
    case DoRetry(now) => DeadRetry(s, now);
    case _ => DeadOther(s, e);
  }

  /** For every limit a dead window stays dead, over every run in which the peer answers active
      messages only, and through any number of resets: what is listed stays listed, and no
      PUBLISH of QoS 1 or 2 is sent. */
  lemma {:induction false} DeadLasts(s: State, es: seq<Event>)
    requires Dead(s) && AnswersActive(s, es)
    ensures Lasts(s, Run(s, es))
    ensures InnWaits(s) ==> Silent(s, Run(s, es)) && InnWaits(Run(s, es))
  {
    if es == [] {
    } else {
      var (front, e) := (es[..|es| - 1], es[|es| - 1]);
      DeadLasts(s, front);
      DeadStep(Run(s, front), e);
      if InnWaits(s) { StepInnWaits(Run(s, front), e); }
    }
  }

  lemma ResetDies(s: State)
    requires Sound(s) && s.max == 1 && s.out != []
    ensures Dead(Reset(s)) && Lasts(Reset(s), Reset(s))
  {
    ResetMoves(s);
    ResetAt(s);
    ActiveAndInvalid(s.out);
  }

  /** With a limit of 1, a reset that finds a single message is the end: no message of QoS 1 or
      2 is transmitted ever again, and those listed stay listed. */
  lemma DeadForGood(s: State, es: seq<Event>)
    requires Sound(s) && s.max == 1 && s.out != [] && AnswersActive(Reset(s), es)
    ensures Lasts(s, Run(Reset(s), es))
    ensures InnWaits(s) ==> Silent(s, Run(Reset(s), es))
  {
    ResetDies(s);
    DeadLasts(Reset(s), es);
    if InnWaits(s) { StepInnWaits(s, DoReset); }
  }

  // ---------------------------------------------------------------- how it comes about

  /** Acknowledging the first n messages while there is no room. */
  lemma {:induction false} AckHeads(s: State, n: nat) returns (es: seq<Event>)
    requires Sound(s) && s.max > 0 && Drift(s) >= s.max && n <= |s.out|
    requires forall k :: 0 <= k < n ==> s.out[k].state != Invalid
    ensures AnswersActive(s, es)
    ensures var s' := Run(s, es);
            && Sound(s') && s'.max == s.max && s'.out == s.out[n..] && s'.inflight == s.inflight - n
    decreases n
  {
    if n == 0 {
      es := [];
    } else {
      var e := OnAck(s.out[0].content.mid);
      HeadAcked(s);
      var rest := AckHeads(Step(s, e), n - 1);
      es := [e] + rest;
      RunCons(s, e, rest);
      AlongCons(Answered, s, e, rest);
      assert s.out[1..][n - 1..] == s.out[n..];
    }
  }

  lemma HeadAcked(s: State)
    requires Sound(s) && s.max > 0 && Drift(s) >= s.max && s.out != [] && s.out[0].state != Invalid
    ensures var (e, s') := (OnAck(s.out[0].content.mid), Ack(s, s.out[0].content.mid));
            && Answered(s, e) && Sound(s') && s'.max == s.max && Drift(s') == Drift(s)
            && s'.out == s.out[1..] && s'.inflight == s.inflight - 1
  {
    var mid := s.out[0].content.mid;
    assert Find(s.out, mid) == 0;
    AckMoves(s, mid);
    UnlinkCounts(s, 0);
    EffectiveWindow(Unlink(s, 0));
    assert Promote(Unlink(s, 0), 0) == (Unlink(s, 0), Success);
    assert Without(s.out, 0) == s.out[1..];
  }

  /** The state behind the reset. */
  ghost predicate HalfActive(r: State, n: nat) {
    && Sound(r) && r.max > 0 && |r.out| == n && r.inflight == n && Drift(r) >= r.max && n >= 2 * r.max - 1
    && forall k :: 0 <= k < n ==> r.out[k].content.qos == 2 && (r.out[k].state == Invalid <==> k + 1 >= r.max)
  }

  /** The reset keeps the first limit - 1 of them active. */
  lemma ResetPublished(p: State, n: nat)
    requires Sound(p) && p.max > 0 && FirstSent(p, n) && n >= 2 * p.max - 1
    requires forall k :: 0 <= k < n ==> p.out[k].content.qos == 2
    ensures HalfActive(Reset(p), n)
  {
    ResetMoves(p);
    ResetAt(p);
    ResetLeaves(p);
    ActiveAndInvalid(p.out);
  }

  lemma HalfReached(s: State, max: nat, retry: nat, script: seq<bool>, c: Content, n: nat)
    requires s == Initial(max, retry, script) && max > 0 && n >= 2 * max - 1 && c.qos == 2
    ensures var es := Publishes(c, n) + [DoReset]; AnswersActive(s, es) && HalfActive(Run(s, es), n)
  {
    Published(s, c, n);
    FirstsAreSent(s, max, retry, script, c, n);
    ThenReset(s, Publishes(c, n));
    ResetPublished(Run(s, Publishes(c, n)), n);
  }

  lemma HalfDies(r: State, n: nat) returns (es: seq<Event>)
    requires HalfActive(r, n)
    ensures AnswersActive(r, es) && Dead(Run(r, es))
  {
    es := AckHeads(r, r.max - 1);
    var d := Run(r, es);
    assert forall k :: 0 <= k < |d.out| ==> d.out[k] == r.out[k + (r.max - 1)];
  }

  /** Whatever the limit: at least 2 * limit - 1 messages of QoS 2 are published, the client
      reconnects, and the messages still active are acknowledged. */
  lemma DeadReached(s: State, max: nat, retry: nat, script: seq<bool>, c: Content, n: nat) returns (es: seq<Event>)
    requires s == Initial(max, retry, script) && max > 0 && n >= 2 * max - 1 && c.qos == 2
    ensures AnswersActive(s, es) && Dead(Run(s, es))
  {
    var fs := Publishes(c, n) + [DoReset];
    HalfReached(s, max, retry, script, c, n);
    var acks := HalfDies(Run(s, fs), n);
    es := fs + acks;
    FoldConcat(Step, s, fs, acks);
    AlwaysConcat(Step, Answered, s, fs, acks);
  }
}
