/** The in-flight window: how the counter inflight_messages relates to the messages that are
    really in flight, over all runs of the engine. */
module Window {
  import opened Codec
  import opened Engine
  import opened Runs

  predicate IsActive(m: Msg) {
    m.content.qos > 0 && m.state != Invalid
  }

  predicate IsInvalid(m: Msg) {
    m.content.qos > 0 && m.state == Invalid
  }

  /** Such a message is not activated by a reset. */
  predicate IsWaitingTwo(m: Msg) {
    m.content.qos == 2 && m.state == Invalid
  }

  predicate AllQos(ms: seq<Msg>) {
    forall k :: 0 <= k < |ms| ==> ms[k].content.qos > 0
  }

  predicate AllQos1(ms: seq<Msg>) {
    forall k :: 0 <= k < |ms| ==> ms[k].content.qos == 1
  }

  function Count(ms: seq<Msg>, p: Msg -> bool): nat {
    if ms == [] then 0 else Count(ms[..|ms| - 1], p) + if p(ms[|ms| - 1]) then 1 else 0
  }

  /** The messages in flight, and those that wait for room. */
  function Active(ms: seq<Msg>): nat {
    Count(ms, IsActive)
  }

  function Invalids(ms: seq<Msg>): nat {
    Count(ms, IsInvalid)
  }

  lemma CountSnoc(ms: seq<Msg>, m: Msg, p: Msg -> bool)
    ensures Count(ms + [m], p) == Count(ms, p) + if p(m) then 1 else 0
  {
    assert (ms + [m])[..|ms|] == ms;
  }

  lemma {:induction false} CountConcat(a: seq<Msg>, b: seq<Msg>, p: Msg -> bool)
    ensures Count(a + b, p) == Count(a, p) + Count(b, p)
  {
    if b == [] {
      assert a + b == a;
    } else {
      assert (a + b)[..|a + b| - 1] == a + b[..|b| - 1];
      CountConcat(a, b[..|b| - 1], p);
    }
  }

  lemma CountOne(m: Msg, p: Msg -> bool)
    ensures Count([m], p) == if p(m) then 1 else 0
  {
    assert [m][..0] == [];
  }

  lemma CountSplit(ms: seq<Msg>, i: nat, p: Msg -> bool)
    requires i < |ms|
    ensures Count(ms, p) == Count(ms[..i], p) + (if p(ms[i]) then 1 else 0) + Count(ms[i + 1..], p)
  {
    assert ms == ms[..i] + [ms[i]] + ms[i + 1..];
    CountConcat(ms[..i] + [ms[i]], ms[i + 1..], p);
    CountSnoc(ms[..i], ms[i], p);
  }

  lemma CountWithout(ms: seq<Msg>, i: nat, p: Msg -> bool)
    requires i < |ms|
    ensures Count(Without(ms, i), p) + (if p(ms[i]) then 1 else 0) == Count(ms, p)
  {
    CountSplit(ms, i, p);
    CountConcat(ms[..i], ms[i + 1..], p);
  }

  lemma CountUpdate(ms: seq<Msg>, i: nat, m: Msg, p: Msg -> bool)
    requires i < |ms|
    ensures Count(ms[i := m], p) + (if p(ms[i]) then 1 else 0) == Count(ms, p) + if p(m) then 1 else 0
  {
    CountSplit(ms, i, p);
    CountSplit(ms[i := m], i, p);
    assert ms[i := m][..i] == ms[..i] && ms[i := m][i + 1..] == ms[i + 1..];
  }

  /** Two lists that p cannot tell apart. */
  lemma {:induction false} CountSame(a: seq<Msg>, b: seq<Msg>, p: Msg -> bool)
    requires |a| == |b| && forall k :: 0 <= k < |a| ==> p(a[k]) == p(b[k])
    ensures Count(a, p) == Count(b, p)
  {
    if a == [] {
    } else {
      CountSame(a[..|a| - 1], b[..|b| - 1], p);
    }
  }

  lemma {:induction false} ActiveAndInvalid(ms: seq<Msg>)
    requires AllQos(ms)
    ensures Active(ms) + Invalids(ms) == |ms| == Counted(ms)
  {
    if ms == [] {
    } else {
      ActiveAndInvalid(ms[..|ms| - 1]);
    }
  }

  lemma {:induction false} CountBound(ms: seq<Msg>, p: Msg -> bool, n: nat)
    requires forall k :: n <= k < |ms| ==> !p(ms[k])
    ensures Count(ms, p) <= n
    decreases |ms|
  {
    if ms == [] {
    } else {
      CountBound(ms[..|ms| - 1], p, if |ms| > n then n else |ms| - 1);
    }
  }

  lemma {:induction false} CountZero(ms: seq<Msg>, p: Msg -> bool)
    ensures Count(ms, p) == 0 <==> forall k :: 0 <= k < |ms| ==> !p(ms[k])
  {
    if ms == [] {
    } else {
      CountZero(ms[..|ms| - 1], p);
    }
  }

  /** What every step keeps, with no assumption on the peer: all listed messages have QoS 1
      or 2, and out_queue_len is the length of the list. */
  predicate Sound(s: State) {
    AllQos(s.out) && s.outLen == |s.out| && s.inLen == |s.inn|
  }

  /** The gap between the counter and the messages in flight. */
  function Drift(s: State): int {
    s.inflight - Active(s.out)
  }

  // ---------------------------------------------------------------- promotion

  /** What is the same before and after some promotions, and how the counter moved. */
  ghost predicate Promoted(s: State, s': State) {
    && AllQos(s'.out) && |s'.out| == |s.out|
    && Drift(s') == Drift(s) && s.inflight <= s'.inflight
    && (s.max > 0 && s'.inflight != s.inflight ==> s'.inflight <= s.max)
    && s' == s.(out := s'.out, inflight := s'.inflight, sent := s'.sent, script := s'.script)
  }

  lemma StartCounts(s: State, k: nat)
    requires AllQos(s.out) && k < |s.out| && HasRoom(s) && s.out[k].state == Invalid
    ensures Promoted(s, Start(s, k))
  {
    CountUpdate(s.out, k, Start(s, k).out[k], IsActive);
  }

  /** What the promotion loop does to the counter and the list: both move together, and the
      limit is respected. */
  lemma {:induction false} PromoteCounts(s: State, k: nat)
    requires AllQos(s.out)
    ensures Promoted(s, Promote(s, k).0)
    decreases |s.out| - k
  {
    if k < |s.out| && HasRoom(s) {
      if s.out[k].state == Invalid {
        StartCounts(s, k);
        if SendOk(s) { PromoteCounts(Start(s, k), k + 1); }
      } else {
        PromoteCounts(s, k + 1);
      }
    }
  }

  lemma UnlinkCounts(s: State, i: nat)
    requires Sound(s) && i < |s.out|
    ensures var s1 := Unlink(s, i);
            && Sound(s1) && Active(s1.out) <= Active(s.out)
            && Drift(s1) == Drift(s) - if s.out[i].state == Invalid then 1 else 0
  {
    CountWithout(s.out, i, IsActive);
  }

  // ---------------------------------------------------------------- reset

  /** The reset decides by position: all messages of the list count. */
  lemma ResetOutAt(ms: seq<Msg>, max: nat, k: nat)
    requires AllQos(ms) && k < |ms|
    ensures ResetOut(ms, max)[k] == ResetMsg(ms[k], k + 1, max)
  {
    ActiveAndInvalid(ms[..k + 1]);
    ResetOutPoint(ms, max, k);
  }

  /** With a limit, a reset leaves fewer messages active than the limit. */
  lemma ResetActive(ms: seq<Msg>, max: nat)
    requires AllQos(ms)
    ensures AllQos(ResetOut(ms, max))
    ensures max > 0 ==> Active(ResetOut(ms, max)) <= max - 1
  {
    var rs := ResetOut(ms, max);
    forall k | 0 <= k < |ms| ensures rs[k] == ResetMsg(ms[k], k + 1, max) { ResetOutAt(ms, max, k); }
    if max > 0 {
      CountBound(rs, IsActive, max - 1);
    }
  }

  // ---------------------------------------------------------------- one step

  /** An acknowledgement or PUBREC names a message that is listed but not in flight. */
  predicate NamesInvalid(s: State, e: Event) {
    match e
    case OnAck(mid) => Find(s.out, mid) < |s.out| && s.out[Find(s.out, mid)].state == Invalid
    case OnPubrec(mid, now) => Find(s.out, mid) < |s.out| && s.out[Find(s.out, mid)].state == Invalid
    case _ => false
  }

  /** With a limit, and the counter not below the number of active messages. */
  predicate Limited(s: State) {
    s.max > 0 ==> 0 <= Drift(s) && Active(s.out) <= s.max
  }

  /** What a step does to the gap and the limit. */
  ghost predicate Moves(s: State, s': State, drift: int, keepsLimit: bool) {
    && Sound(s') && s'.max == s.max && s'.retry == s.retry
    && Drift(s') == drift
    && (keepsLimit && Limited(s) ==> s'.max > 0 ==> Active(s'.out) <= s'.max)
  }

  lemma PublishMoves(s: State, c: Content, now: int)
    requires Sound(s)
    ensures Moves(s, Publish(s, c, now), Drift(s), true)
  {
    var s' := Publish(s, c, now);
    if c.qos > 0 {
      var m := s'.out[|s.out|];
      assert s'.out == s.out + [m] && m.content.qos > 0;
      CountSnoc(s.out, m, IsActive);
    }
  }

  lemma AckMoves(s: State, mid: uint16)
    requires Sound(s)
    ensures var i := Find(s.out, mid);
            var misses := i < |s.out| && s.out[i].state == Invalid;
            Moves(s, Ack(s, mid), if misses then Drift(s) - 1 else Drift(s), !misses)
  {
    var i := Find(s.out, mid);
    if i < |s.out| {
      UnlinkCounts(s, i);
      PromoteCounts(Unlink(s, i), 0);
    }
  }

  lemma PubrecMoves(s: State, mid: uint16, now: int)
    requires Sound(s)
    ensures var i := Find(s.out, mid);
            var misses := i < |s.out| && s.out[i].state == Invalid;
            Moves(s, Pubrec(s, mid, now), if misses then Drift(s) - 1 else Drift(s), !misses)
  {
    var i := Find(s.out, mid);
    if i < |s.out| {
      CountUpdate(s.out, i, Pubrec(s, mid, now).out[i], IsActive);
    }
  }

  lemma RetryMoves(s: State, now: Clock)
    requires Sound(s)
    ensures Moves(s, Retry(s, now), Drift(s), true)
  {
    CountSame(s.out, Retry(s, now).out, IsActive);
  }

  lemma ResetMoves(s: State)
    requires Sound(s)
    ensures Moves(s, Reset(s), Invalids(Reset(s).out), true)
  {
    ResetActive(s.out, s.max);
    ActiveAndInvalid(s.out);
    ActiveAndInvalid(Reset(s).out);
  }

  /** How one step moves the gap, exactly: only a reset, and answers to messages that are not
      in flight, change it. A step of neither kind keeps the limit, and so does a reset. */
  lemma StepMoves(s: State, e: Event)
    requires Sound(s)
    ensures Moves(s, Step(s, e),
                  if e == DoReset then Invalids(Step(s, e).out)
                  else Drift(s) - (if NamesInvalid(s, e) then 1 else 0),
                  !NamesInvalid(s, e))
  {
    match e
    case DoPublish(c, now) => PublishMoves(s, c, now);
    case OnAck(mid) => AckMoves(s, mid);
    case OnPubrec(mid, now) => PubrecMoves(s, mid, now);
    case DoRetry(now) => RetryMoves(s, now);
    case DoReset => ResetMoves(s);
    case DoDraw =>
    case OnPublish(c, dup, now) =>
    case OnPubrel(mid, flagsOk) =>
  }

  // ---------------------------------------------------------------- runs

  predicate Answered(s: State, e: Event) {
    !NamesInvalid(s, e)
  }

  /** No step of the run answers a message outside the window. */
  predicate AnswersActive(s: State, es: seq<Event>) {
    Along(Answered, s, es)
  }

  /** The number of messages the last reset of the run left waiting; 0 if there was none. */
  function LeftByReset(s: State, es: seq<Event>): nat {
    if es == [] then 0
    else if es[|es| - 1] == DoReset then Invalids(Run(s, es).out)
    else LeftByReset(s, es[..|es| - 1])
  }

  /** Window safety. Over every run from the start in which the peer only answers messages in
      flight: the counter exceeds the number of active messages by exactly what the last
      reset left waiting, so it is never below it, and with a limit there are never more
      active messages than that. */
  lemma {:induction false} WindowSafe(max: nat, retry: nat, script: seq<bool>, es: seq<Event>)
    requires AnswersActive(Initial(max, retry, script), es)
    ensures var (s0, s) := (Initial(max, retry, script), Run(Initial(max, retry, script), es));
            && Sound(s) && s.max == max && s.retry == retry
            && s.inflight == Active(s.out) + LeftByReset(s0, es)
            && (max > 0 ==> Active(s.out) <= max)
  {
    if es == [] {
    } else {
      var s := Run(Initial(max, retry, script), es[..|es| - 1]);
      WindowSafe(max, retry, script, es[..|es| - 1]);
      StepMoves(s, es[|es| - 1]);
    }
  }

  /** The window after a reset is smaller by what the reset left waiting: there is room for a
      message exactly when fewer than max - drift are in flight. */
  lemma EffectiveWindow(s: State)
    requires s.max > 0
    ensures HasRoom(s) <==> Active(s.out) < s.max - Drift(s)
  {
  }

  /** The messages of QoS 1 and 2 sent with DUP clear. They are the first transmissions unless a
      retry is one (module DupAfterReset). */
  function Firsts(sent: seq<Sent>): seq<Content> {
    if sent == [] then [] else Firsts(sent[..|sent| - 1]) + First(sent[|sent| - 1])
  }

  function First(p: Sent): seq<Content> {
    if p.SentPublish? && !p.dup && p.content.qos > 0 then [p.content] else []
  }

  lemma {:induction false} FirstsConcat(a: seq<Sent>, b: seq<Sent>)
    ensures Firsts(a + b) == Firsts(a) + Firsts(b)
  {
    if b == [] {
      assert a + b == a;
    } else {
      assert (a + b)[..|a + b| - 1] == a + b[..|b| - 1];
      FirstsConcat(a, b[..|b| - 1]);
    }
  }

  lemma FirstsSnoc(sent: seq<Sent>, p: Sent)
    ensures Firsts(sent + [p]) == Firsts(sent) + First(p)
  {
    assert (sent + [p])[..|sent|] == sent;
  }

  lemma RetryIsNotFirst(m: Msg, retry: nat, now: int)
    ensures Firsts(RetryOne(m, retry, now)) == []
  {
    if Overdue(m, retry, now) {
      NotFirst(RetryPacket(m, true)[0]);
    }
  }

  lemma NotFirst(p: Sent)
    ensures Firsts([p]) == First(p)
  {
    assert [p][..0] == [];
  }

  lemma {:induction false} RetriesAreNotFirst(ms: seq<Msg>, retry: nat, now: int)
    ensures Firsts(RetrySends(ms, retry, now)) == []
  {
    if ms == [] {
    } else {
      var (front, last) := (ms[..|ms| - 1], ms[|ms| - 1]);
      RetriesAreNotFirst(front, retry, now);
      RetryIsNotFirst(last, retry, now);
      FirstsConcat(RetrySends(front, retry, now), RetryOne(last, retry, now));
    }
  }

  lemma RetryFirsts(s: State, now: Clock)
    ensures Firsts(Retry(s, now).sent) == Firsts(s.sent)
  {
    var (a, b) := (RetrySends(s.out, s.retry, now.out), RetrySends(s.inn, s.retry, now.inn));
    RetriesAreNotFirst(s.out, s.retry, now.out);
    RetriesAreNotFirst(s.inn, s.retry, now.inn);
    FirstsConcat(a, b);
    FirstsConcat(s.sent, a + b);
  }

  lemma PubrecFirsts(s: State, mid: uint16, now: int)
    ensures Firsts(Pubrec(s, mid, now).sent) == Firsts(s.sent)
  {
    FirstsSnoc(s.sent, SentPubrel(mid));
  }

  lemma ReceiveFirsts(s: State, c: Content, dup: bool, now: int)
    ensures Firsts(Receive(s, c, dup, now).sent) == Firsts(s.sent)
  {
    FirstsSnoc(s.sent, SentPuback(c.mid));
    FirstsSnoc(s.sent, SentPubrec(c.mid));
  }

  lemma PubrelFirsts(s: State, mid: uint16, flagsOk: bool)
    ensures Firsts(Pubrel(s, mid, flagsOk).sent) == Firsts(s.sent)
  {
    FirstsSnoc(s.sent, SentPubcomp(mid));
  }

  /** Packets with DUP clear only come from publishing and from acknowledgements. */
  lemma OtherFirsts(s: State, e: Event)
    requires !e.DoPublish? && !e.OnAck?
    ensures Firsts(Step(s, e).sent) == Firsts(s.sent)
  {
    match e
    case OnPubrec(mid, now) => PubrecFirsts(s, mid, now);
    case DoRetry(now) => RetryFirsts(s, now);
    case OnPublish(c, dup, now) => ReceiveFirsts(s, c, dup, now);
    case OnPubrel(mid, flagsOk) => PubrelFirsts(s, mid, flagsOk);
    case DoDraw =>
    case DoReset =>
  }

  lemma StalledAck(s: State, mid: uint16)
    requires Sound(s) && s.max > 0 && Drift(s) >= s.max && !NamesInvalid(s, OnAck(mid))
    ensures Ack(s, mid).sent == s.sent
  {
    var i := Find(s.out, mid);
    if i < |s.out| {
      UnlinkCounts(s, i);
      EffectiveWindow(Unlink(s, i));
    }
  }

  lemma StalledPublish(s: State, c: Content, now: int)
    requires s.max > 0 && Drift(s) >= s.max
    ensures Firsts(Publish(s, c, now).sent) == Firsts(s.sent)
  {
    FirstsSnoc(s.sent, SentPublish(c.(mid := NextMid(s.lastMid)), false));
    EffectiveWindow(s);
  }

  /** Nothing in the step can start a message of QoS 1 or 2 when there is no room before it
      and an acknowledgement makes none. */
  lemma StalledStep(s: State, e: Event)
    requires Sound(s) && s.max > 0 && Drift(s) >= s.max
    requires e != DoReset && !NamesInvalid(s, e)
    ensures Firsts(Step(s, e).sent) == Firsts(s.sent)
  {
    match e
    case DoPublish(c, now) => StalledPublish(s, c, now);
    case OnAck(mid) => StalledAck(s, mid);
    case _ => OtherFirsts(s, e);
  }

  /** A reset that leaves at least `max` messages waiting stops the engine: until the next
      reset no message of QoS 1 or 2 is started, so none is sent with DUP clear, whatever is
      published and however many acknowledgements arrive. Retries go on; module ClosedWindow
      says when one of them is a first transmission. */
  lemma {:induction false} StalledUntilReset(s: State, es: seq<Event>)
    requires Sound(s) && s.max > 0 && Drift(s) >= s.max
    requires AnswersActive(s, es)
    requires forall k :: 0 <= k < |es| ==> es[k] != DoReset
    ensures Firsts(Run(s, es).sent) == Firsts(s.sent)
    ensures Sound(Run(s, es)) && Run(s, es).max == s.max && Drift(Run(s, es)) == Drift(s)
  {
    if es == [] {
    } else {
      StalledUntilReset(s, es[..|es| - 1]);
      StalledStep(Run(s, es[..|es| - 1]), es[|es| - 1]);
      StepMoves(Run(s, es[..|es| - 1]), es[|es| - 1]);
    }
  }

  /** A reset that finds n messages of QoS 1 leaves max - 1 of them active and the rest
      waiting, so from n >= 2 * max - 1 on no message is started until the next reset. */
  lemma ResetLeaves(s: State)
    requires Sound(s) && s.max > 0 && |s.out| >= s.max
    ensures Drift(Reset(s)) >= |s.out| - (s.max - 1)
    ensures (forall k :: 0 <= k < |s.out| ==> s.out[k].content.qos == 1) ==>
              Drift(Reset(s)) == |s.out| - (s.max - 1)
  {
    var rs := ResetOut(s.out, s.max);
    ResetActive(s.out, s.max);
    ActiveAndInvalid(s.out);
    forall k | 0 <= k < |rs| ensures rs[k] == ResetMsg(s.out[k], k + 1, s.max) { ResetOutAt(s.out, s.max, k); }
    if forall k :: 0 <= k < |s.out| ==> s.out[k].content.qos == 1 {
      assert rs == rs[..s.max - 1] + rs[s.max - 1..];
      CountConcat(rs[..s.max - 1], rs[s.max - 1..], IsActive);
      CountAll(rs[..s.max - 1], IsActive);
      CountZero(rs[s.max - 1..], IsActive);
    }
  }

  lemma {:induction false} CountAll(ms: seq<Msg>, p: Msg -> bool)
    requires forall k :: 0 <= k < |ms| ==> p(ms[k])
    ensures Count(ms, p) == |ms|
  {
    if ms == [] {
    } else {
      CountAll(ms[..|ms| - 1], p);
    }
  }

  /** Two published messages with a limit of 1: one in flight, one waiting. */
  lemma TwoPublished(s0: State, a: Content, b: Content)
    requires s0 == Initial(1, 20, []) && a.qos == b.qos == 1
    ensures var s := Publish(Publish(s0, a, 1), b, 1);
            && s.out == [Msg(a.(mid := 1), WaitPuback, false, 1), Msg(b.(mid := 2), Invalid, false, 1)]
            && s.inflight == 1 && s.max == 1 && s.lastMid == 2
  {
    assert Publish(s0, a, 1).out == [Msg(a.(mid := 1), WaitPuback, false, 1)];
  }

  /** An acknowledgement of the second of two such messages frees the slot of the first. */
  lemma SecondAcked(s: State, m1: Msg, m2: Msg)
    requires s.out == [m1, m2] && s.inflight == 1 && s.max == 1
    requires m1.content.mid == 1 && m2.content.mid == 2 && m1.state == WaitPuback && m2.content.qos == 1
    ensures Ack(s, 2).out == [m1] && Ack(s, 2).inflight == 0 && Ack(s, 2).max == 1
  {
    FindSecond(s.out, 2);
    var u := Unlink(s, 1);
    assert u.out == [m1];
    assert Promote(u, 1) == (u, Success) && Promote(u, 0) == (u, Success);
  }

  /** Without the assumption on the peer the limit can be broken: with a limit of 1, an
      acknowledgement of a message that was never sent makes room for a second one. */
  lemma LimitBroken(a: Content, b: Content, c: Content)
    requires a.qos == b.qos == c.qos == 1
    ensures var es := [DoPublish(a, 1), DoPublish(b, 1), OnAck(2), DoPublish(c, 1)];
            var s := Run(Initial(1, 20, []), es);
            Active(s.out) == 2 > s.max && s.inflight == 1
  {
    var s0 := Initial(1, 20, []);
    FoldFour(Step, s0, DoPublish(a, 1), DoPublish(b, 1), OnAck(2), DoPublish(c, 1));
    TwoPublished(s0, a, b);
    var s2 := Publish(Publish(s0, a, 1), b, 1);
    SecondAcked(s2, s2.out[0], s2.out[1]);
    ThirdStarted(Ack(s2, 2), s2.out[0], c);
  }

  lemma ThirdStarted(s: State, m1: Msg, c: Content)
    requires s.out == [m1] && s.inflight == 0 && s.max == 1 && IsActive(m1) && c.qos == 1
    ensures var s' := Publish(s, c, 1);
            Active(s'.out) == 2 && s'.inflight == 1 && s'.max == 1
  {
    CountOne(m1, IsActive);
    CountSnoc(s.out, Publish(s, c, 1).out[1], IsActive);
  }

  lemma FindSecond(ms: seq<Msg>, mid: uint16)
    requires |ms| == 2 && ms[0].content.mid != mid && ms[1].content.mid == mid
    ensures Find(ms, mid) == 1
  {
    assert ms[1..][0] == ms[1];
  }
}
