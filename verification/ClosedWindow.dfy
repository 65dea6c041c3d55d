/** When a reset has closed the window: until the next reset, and for good. What counts is the
    first transmission of a message, with DUP clear or set: a retry can be one, after a reset
    that activated a message never sent. */
module ClosedWindow {
  import opened Codec
  import opened Engine
  import opened Window
  import opened Fate
  import opened Limits
  import opened Retries

  // ---------------------------------------------------------------- first transmissions

  /** A PUBLISH with this content, and so with this id, is among the packets. */
  predicate InSent(sent: seq<Sent>, c: Content) {
    SentPublish(c, false) in sent || SentPublish(c, true) in sent
  }

  /** Every message of QoS 1 or 2 published among the packets is published among `known`. */
  predicate OnlyKnown(known: seq<Sent>, sent: seq<Sent>) {
    forall p :: p in sent && p.SentPublish? && p.content.qos > 0 ==> InSent(known, p.content)
  }

  /** A retry of the message is a PUBLISH. */
  predicate Publishing(m: Msg) {
    m.state == WaitPuback || m.state == WaitPubrec
  }

  /** Every message a retry publishes has been transmitted. */
  predicate ActiveSent(ms: seq<Msg>, known: seq<Sent>) {
    forall k :: 0 <= k < |ms| && Publishing(ms[k]) ==> InSent(known, ms[k].content)
  }

  lemma OnlyKnownMore(known: seq<Sent>, sent: seq<Sent>, more: seq<Sent>)
    requires OnlyKnown(known, sent) && OnlyKnown(known, more)
    ensures OnlyKnown(known, sent + more)
  {
  }

  lemma {:induction false} RetriesKnown(ms: seq<Msg>, retry: nat, now: int, known: seq<Sent>)
    requires ActiveSent(ms, known)
    ensures OnlyKnown(known, RetrySends(ms, retry, now))
  {
    if ms == [] {
    } else {
      var (front, last) := (ms[..|ms| - 1], ms[|ms| - 1]);
      RetriesKnown(front, retry, now, known);
      assert OnlyKnown(known, RetryOne(last, retry, now));
      OnlyKnownMore(known, RetrySends(front, retry, now), RetryOne(last, retry, now));
    }
  }

  lemma RetryKnown(s: State, now: Clock, known: seq<Sent>)
    requires OnlyKnown(known, s.sent) && ActiveSent(s.out, known) && InnWaits(s)
    ensures OnlyKnown(known, Retry(s, now).sent) && ActiveSent(Retry(s, now).out, known)
  {
    var (a, b) := (RetrySends(s.out, s.retry, now.out), RetrySends(s.inn, s.retry, now.inn));
    RetriesKnown(s.out, s.retry, now.out, known);
    RetriesKnown(s.inn, s.retry, now.inn, known);
    OnlyKnownMore(known, a, b);
    OnlyKnownMore(known, s.sent, a + b);
    var rs := Retry(s, now).out;
    assert forall k :: 0 <= k < |rs| ==> rs[k].state == s.out[k].state && rs[k].content == s.out[k].content;
  }

  // ---------------------------------------------------------------- while the window is closed

  /** There is no room, and acknowledging active messages makes none; nothing was transmitted
      but what is in `known`, and a retry transmits nothing else. */
  ghost predicate Shut(s: State, known: seq<Sent>) {
    && Sound(s) && InnWaits(s) && s.max > 0 && Drift(s) >= s.max
    && OnlyKnown(known, s.sent) && ActiveSent(s.out, known)
  }

  lemma ShutPublish(s: State, c: Content, now: int, known: seq<Sent>)
    requires Shut(s, known)
    ensures Shut(Publish(s, c, now), known)
    ensures c.qos > 0 ==> Publish(s, c, now).out == s.out + [Msg(c.(mid := NextMid(s.lastMid)), Invalid, false, now)]
    ensures c.qos == 0 ==> Publish(s, c, now).out == s.out
  {
    var content := c.(mid := NextMid(s.lastMid));
    PublishMoves(s, c, now);
    EffectiveWindow(s);
    OnlyKnownMore(known, s.sent, if c.qos == 0 then [SentPublish(content, false)] else []);
    assert s.sent + [] == s.sent;
  }

  lemma ShutAck(s: State, mid: uint16, known: seq<Sent>)
    requires Shut(s, known) && Answered(s, OnAck(mid))
    ensures Shut(Ack(s, mid), known)
    ensures Ack(s, mid).out == if Find(s.out, mid) < |s.out| then Without(s.out, Find(s.out, mid)) else s.out
  {
    var i := Find(s.out, mid);
    AckMoves(s, mid);
    if i < |s.out| {
      var u := Unlink(s, i);
      UnlinkCounts(s, i);
      EffectiveWindow(u);
      assert Promote(u, 0) == (u, Success);
      SentWithout(s.out, i, known);
    }
  }

  lemma SentWithout(ms: seq<Msg>, i: nat, known: seq<Sent>)
    requires i < |ms| && ActiveSent(ms, known)
    ensures ActiveSent(Without(ms, i), known)
  {
    var rest := Without(ms, i);
    assert forall k :: 0 <= k < |rest| ==> rest[k] == ms[if k < i then k else k + 1];
  }

  lemma ShutPubrec(s: State, mid: uint16, now: int, known: seq<Sent>)
    requires Shut(s, known) && Answered(s, OnPubrec(mid, now))
    ensures Shut(Pubrec(s, mid, now), known)
  {
    PubrecMoves(s, mid, now);
    OnlyKnownMore(known, s.sent, [SentPubrel(mid)]);
  }

  lemma ShutRetry(s: State, now: Clock, known: seq<Sent>)
    requires Shut(s, known)
    ensures Shut(Retry(s, now), known)
  {
    RetryMoves(s, now);
    RetryKnown(s, now, known);
  }

  lemma ShutOther(s: State, e: Event, known: seq<Sent>)
    requires Shut(s, known) && (e.DoDraw? || e.OnPublish? || e.OnPubrel?)
    ensures Shut(Step(s, e), known) && Step(s, e).out == s.out
  {
    StepMoves(s, e);
    match e
    case OnPublish(c, dup, now) =>
      OnlyKnownMore(known, s.sent, [SentPuback(c.mid)]);
      OnlyKnownMore(known, s.sent, [SentPubrec(c.mid)]);
    case OnPubrel(mid, flagsOk) => OnlyKnownMore(known, s.sent, [SentPubcomp(mid)]);
    case DoDraw =>
  }

  lemma ShutStep(s: State, e: Event, known: seq<Sent>)
    requires Shut(s, known) && Answered(s, e) && e != DoReset
    ensures Shut(Step(s, e), known)
  {
    match e
    case DoPublish(c, now) => ShutPublish(s, c, now, known);
    case OnAck(mid) => ShutAck(s, mid, known);
    case OnPubrec(mid, now) => ShutPubrec(s, mid, now, known);
    case DoRetry(now) => ShutRetry(s, now, known);
    case _ => ShutOther(s, e, known);
  }

  lemma {:induction false} ShutRun(s: State, es: seq<Event>, known: seq<Sent>)
    requires Shut(s, known) && AnswersActive(s, es) && ResetFree(es)
    ensures Shut(Run(s, es), known)
  {
    if es == [] {
    } else {
      var (front, e) := (es[..|es| - 1], es[|es| - 1]);
      ShutRun(s, front, known);
      ShutStep(Run(s, front), e, known);
    }
  }

  // ---------------------------------------------------------------- while it is open

  predicate DistinctIds(ms: seq<Msg>) {
    forall i, j :: 0 <= i < j < |ms| ==> ms[i].content.mid != ms[j].content.mid
  }

  lemma DistinctWithout(ms: seq<Msg>, ms': seq<Msg>, i: nat)
    requires DistinctIds(ms) && i < |ms| && Contents(ms') == Without(Contents(ms), i)
    ensures |ms'| == |ms| - 1 && DistinctIds(ms')
  {
    forall j, k | 0 <= j < k < |ms'| ensures ms'[j].content.mid != ms'[k].content.mid {
      assert ms'[j].content == Contents(ms')[j] == ms[if j < i then j else j + 1].content;
      assert ms'[k].content == Contents(ms')[k] == ms[if k < i then k else k + 1].content;
    }
  }

  lemma FindDistinct(ms: seq<Msg>, k: nat)
    requires DistinctIds(ms) && k < |ms|
    ensures Find(ms, ms[k].content.mid) == k
  {
  }

  /** Acknowledging an active message: the list gets shorter, and the counter stays ahead by as
      much. */
  lemma AckActive(s: State, k: nat)
    requires Sound(s) && DistinctIds(s.out) && k < |s.out| && IsActive(s.out[k])
    ensures var (e, s') := (OnAck(s.out[k].content.mid), Ack(s, s.out[k].content.mid));
            && Answered(s, e) && Sound(s') && s'.max == s.max && Drift(s') == Drift(s)
            && |s'.out| == |s.out| - 1 && DistinctIds(s'.out)
            && (s.max > 0 && Drift(s) >= s.max ==> s'.out == Without(s.out, k))
  {
    var mid := s.out[k].content.mid;
    FindDistinct(s.out, k);
    AckMoves(s, mid);
    AckContents(s, mid);
    DistinctWithout(s.out, Ack(s, mid).out, k);
    if s.max > 0 && Drift(s) >= s.max {
      UnlinkCounts(s, k);
      EffectiveWindow(Unlink(s, k));
      assert Promote(Unlink(s, k), 0) == (Unlink(s, k), Success);
    }
  }

  /** The length of the longest payload published. */
  function Longest(sent: seq<Sent>): nat {
    if sent == [] then 0
    else
      var (rest, last) := (Longest(sent[..|sent| - 1]), sent[|sent| - 1]);
      if last.SentPublish? && |last.content.payload| > rest then |last.content.payload| else rest
  }

  lemma {:induction false} LongerIsNew(sent: seq<Sent>, c: Content)
    requires |c.payload| > Longest(sent)
    ensures !InSent(sent, c)
  {
    if sent == [] {
    } else {
      LongerIsNew(sent[..|sent| - 1], c);
      assert sent == sent[..|sent| - 1] + [sent[|sent| - 1]];
    }
  }

  /** The run publishes a message of QoS 1 or 2 that is not published among `known`. */
  ghost predicate Reveals(s: State, es: seq<Event>, known: seq<Sent>) {
    AnswersActive(s, es) && !OnlyKnown(known, Run(s, es).sent)
  }

  lemma RevealsLater(s: State, e: Event, es: seq<Event>, known: seq<Sent>)
    requires Answered(s, e) && Reveals(Step(s, e), es, known)
    ensures Reveals(s, [e] + es, known)
  {
    RunCons(s, e, es);
    AlongCons(Answered, s, e, es);
  }

  lemma RevealsNow(s: State, e: Event, p: Sent, known: seq<Sent>)
    requires Answered(s, e) && p in Step(s, e).sent && p.SentPublish? && p.content.qos > 0 && !InSent(known, p.content)
    ensures Reveals(s, [e], known)
  {
    assert Run(s, []) == s && AnswersActive(s, []);
    RunCons(s, e, []);
    AlongCons(Answered, s, e, []);
    assert [e] + [] == [e];
  }

  /** With room, a new message is sent at once. */
  lemma PublishReveals(s: State, known: seq<Sent>) returns (e: Event)
    requires HasRoom(s)
    ensures e != DoReset && Reveals(s, [e], known)
  {
    var payload := seq(Longest(known) + 1, _ => 0);
    var c := Content(NextMid(s.lastMid), [], payload, 1, false);
    e := DoPublish(c, 0);
    LongerIsNew(known, c);
    var sent := Step(s, e).sent;
    assert sent[|sent| - 1] == SentPublish(c, false);
    RevealsNow(s, e, SentPublish(c, false), known);
  }

  /** With the counter ahead by less than the limit, a run that acknowledges all active messages
      and then publishes transmits a new message. */
  lemma {:induction false} CanStart(s: State, known: seq<Sent>) returns (es: seq<Event>)
    requires Sound(s) && DistinctIds(s.out) && s.max > 0 && Drift(s) < s.max
    ensures ResetFree(es) && Reveals(s, es, known)
    decreases |s.out|
  {
    if Active(s.out) == 0 {
      var e := PublishReveals(s, known);
      es := [e];
    } else {
      CountZero(s.out, IsActive);
      var k :| 0 <= k < |s.out| && IsActive(s.out[k]);
      var e := OnAck(s.out[k].content.mid);
      AckActive(s, k);
      var rest := CanStart(Step(s, e), known);
      es := [e] + rest;
      RevealsLater(s, e, rest, known);
    }
  }

  /** A message in flight that was never transmitted is retried. */
  lemma RetryReveals(s: State, k: nat, known: seq<Sent>) returns (e: Event)
    requires AllQos(s.out) && k < |s.out| && Publishing(s.out[k]) && !InSent(known, s.out[k].content)
    ensures e.DoRetry? && Reveals(s, [e], known)
  {
    var now := s.out[k].timestamp + s.retry + 1;
    e := DoRetry(Clock(now, now));
    RetriedAt(s.out, s.retry, now, k);
    var p := SentPublish(s.out[k].content, true);
    assert p in RetrySends(s.out, s.retry, now) && p in Step(s, e).sent;
    RevealsNow(s, e, p, known);
  }

  // ---------------------------------------------------------------- closed until the next reset

  /** No message of QoS 1 or 2 is transmitted for the first time before the next reset, whatever
      is published, retried or received, and whichever active messages are answered. */
  ghost predicate NeverStarts(s: State) {
    forall es :: ResetFree(es) && AnswersActive(s, es) ==> OnlyKnown(s.sent, Run(s, es).sent)
  }

  /** The window is closed until the next reset exactly when the counter is ahead of the active
      messages by the limit or more, and every message in flight has been transmitted. */
  lemma StallsExactly(s: State)
    requires Sound(s) && DistinctIds(s.out) && InnWaits(s) && s.max > 0
    ensures NeverStarts(s) <==> Drift(s) >= s.max && ActiveSent(s.out, s.sent)
  {
    if Drift(s) < s.max {
      var es := CanStart(s, s.sent);
      assert ResetFree(es) && Reveals(s, es, s.sent);
    } else if !ActiveSent(s.out, s.sent) {
      var k :| 0 <= k < |s.out| && Publishing(s.out[k]) && !InSent(s.sent, s.out[k].content);
      var e := RetryReveals(s, k, s.sent);
      assert ResetFree([e]) && Reveals(s, [e], s.sent);
    } else {
      forall es | ResetFree(es) && AnswersActive(s, es) ensures OnlyKnown(s.sent, Run(s, es).sent) {
        ShutRun(s, es, s.sent);
      }
    }
  }

  /** The first messages of the list, up to position limit - 2, have been transmitted. */
  predicate FrontSent(s: State) {
    forall k :: 0 <= k < |s.out| && k + 1 < s.max ==> InSent(s.sent, s.out[k].content)
  }

  lemma ResetDrift(s: State)
    requires Sound(s) && s.max > 0 && AllQos1(s.out)
    ensures Drift(Reset(s)) >= s.max <==> |s.out| >= 2 * s.max - 1
  {
    ResetMoves(s);
    if |s.out| >= s.max {
      ResetLeaves(s);
    } else {
      var rs := ResetOut(s.out, s.max);
      forall k | 0 <= k < |rs| ensures !IsInvalid(rs[k]) { ResetOutAt(s.out, s.max, k); }
      CountZero(rs, IsInvalid);
    }
  }

  lemma ResetFront(s: State)
    requires Sound(s) && s.max > 0 && AllQos1(s.out)
    ensures ActiveSent(Reset(s).out, s.sent) <==> FrontSent(s)
  {
    var rs := Reset(s).out;
    forall k | 0 <= k < |rs|
      ensures rs[k].content == s.out[k].content && (Publishing(rs[k]) <==> k + 1 < s.max)
    {
      ResetOutAt(s.out, s.max, k);
    }
  }

  /** With QoS 1 only, a reset closes the window exactly when it finds at least 2 * limit - 1
      messages, of which the first limit - 1 have been transmitted. */
  lemma ResetStalls(s: State)
    requires Sound(s) && DistinctIds(s.out) && InnWaits(s) && s.max > 0 && AllQos1(s.out)
    ensures NeverStarts(Reset(s)) <==> |s.out| >= 2 * s.max - 1 && FrontSent(s)
  {
    ResetMoves(s);
    ResetDrift(s);
    ResetFront(s);
    StallsExactly(Reset(s));
  }

  /** Publishing n messages from the start: the first ones, up to the limit, are sent. */
  ghost predicate FirstSent(s: State, n: nat) {
    && s.inn == [] && |s.out| == n && s.inflight == (if n < s.max then n else s.max)
    && forall k :: 0 <= k < n && k < s.max ==> InSent(s.sent, s.out[k].content) && s.out[k].state != Invalid
  }

  lemma FirstSentNext(s: State, n: nat, c: Content)
    requires FirstSent(s, n) && c.qos > 0 && s.max > 0
    ensures FirstSent(Publish(s, c, 1), n + 1)
  {
    var (s', content) := (Publish(s, c, 1), c.(mid := NextMid(s.lastMid)));
    assert s'.out[n].content == content && forall k :: 0 <= k < n ==> s'.out[k] == s.out[k];
    assert forall p :: p in s.sent ==> p in s'.sent;
    if HasRoom(s) { assert s'.sent[|s.sent|] == SentPublish(content, false); }
  }

  lemma {:induction false} FirstsAreSent(s: State, max: nat, retry: nat, script: seq<bool>, c: Content, n: nat)
    requires s == Initial(max, retry, script) && max > 0 && c.qos > 0
    ensures FirstSent(Run(s, Publishes(c, n)), n) && Run(s, Publishes(c, n)).max == max
  {
    if n == 0 {
    } else {
      FirstsAreSent(s, max, retry, script, c, n - 1);
      RunSnoc(s, Publishes(c, n - 1), DoPublish(c, 1));
      FirstSentNext(Run(s, Publishes(c, n - 1)), n - 1, c);
    }
  }

  lemma ThenReset(s: State, es: seq<Event>)
    requires AnswersActive(s, es)
    ensures AnswersActive(s, es + [DoReset]) && Run(s, es + [DoReset]) == Reset(Run(s, es))
  {
    RunSnoc(s, es, DoReset);
    assert (es + [DoReset])[..|es|] == es;
  }

  lemma ResetCloses(s: State)
    requires Sound(s) && InnWaits(s) && s.max > 0 && AllQos1(s.out) && |s.out| >= 2 * s.max - 1 && FrontSent(s)
    ensures NeverStarts(Reset(s))
  {
    var r := Reset(s);
    ResetMoves(s);
    ResetDrift(s);
    ResetFront(s);
    assert OnlyKnown(r.sent, r.sent) by {
      forall p | p in r.sent && p.SentPublish? ensures InSent(r.sent, p.content) { SentItself(r.sent, p); }
    }
    forall es | ResetFree(es) && AnswersActive(r, es) ensures OnlyKnown(r.sent, Run(r, es).sent) {
      ShutRun(r, es, r.sent);
    }
  }

  lemma SentItself(sent: seq<Sent>, p: Sent)
    requires p in sent && p.SentPublish?
    ensures InSent(sent, p.content)
  {
    assert p == SentPublish(p.content, p.dup);
  }

  /** And it happens: publish so many messages, and reconnect. */
  lemma StallReached(s: State, max: nat, retry: nat, script: seq<bool>, c: Content, n: nat)
    requires s == Initial(max, retry, script) && max > 0 && n >= 2 * max - 1 && c.qos == 1
    ensures var es := Publishes(c, n) + [DoReset]; AnswersActive(s, es) && NeverStarts(Run(s, es))
  {
    Published(s, c, n);
    FirstsAreSent(s, max, retry, script, c, n);
    ThenReset(s, Publishes(c, n));
    ResetCloses(Run(s, Publishes(c, n)));
  }
}
