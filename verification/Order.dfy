/** The order of transmissions and the DUP flag. */
module Order {
  import opened Codec
  import opened Engine
  import opened Window
  import opened Fate

  // ---------------------------------------------------------------- prefix and idle slots

  /** Once a message of the list waits for room, so do all behind it. */
  predicate Prefix(ms: seq<Msg>) {
    forall i, j :: 0 <= i < j < |ms| && ms[i].state == Invalid ==> ms[j].state == Invalid
  }

  /** A message only waits while the window is full, and never without a limit. */
  predicate NoIdleSlot(s: State) {
    (exists k :: 0 <= k < |s.out| && s.out[k].state == Invalid) ==> s.max > 0 && s.inflight >= s.max
  }

  /** The position of the first waiting message, or the length. */
  function FirstInvalid(ms: seq<Msg>): (i: nat)
    ensures i <= |ms|
    ensures i < |ms| ==> ms[i].state == Invalid
    ensures forall k :: 0 <= k < i ==> ms[k].state != Invalid
  {
    if ms == [] || ms[0].state == Invalid then 0 else 1 + FirstInvalid(ms[1..])
  }

  /** Promotion from k on starts at the first waiting message behind k. */
  lemma {:induction false} PromoteSkips(s: State, k: nat, j: nat)
    requires AllQos(s.out) && k <= j <= |s.out|
    requires forall i :: k <= i < j ==> s.out[i].state != Invalid
    ensures HasRoom(s) ==> Promote(s, k) == Promote(s, j)
    decreases j - k
  {
    if k < j { PromoteSkips(s, k + 1, j); }
  }

  /** When there is room for at most one message, an acknowledgement starts at most the first
      waiting message. */
  lemma PromotesOne(s: State)
    requires AllQos(s.out)
    requires FirstInvalid(s.out) < |s.out| ==> s.max > 0 && s.inflight + 1 >= s.max
    ensures Promote(s, 0).0 ==
            if HasRoom(s) && FirstInvalid(s.out) < |s.out| then Start(s, FirstInvalid(s.out)) else s
  {
    var j := FirstInvalid(s.out);
    if HasRoom(s) {
      PromoteSkips(s, 0, j);
      if j < |s.out| {
        assert !HasRoom(Start(s, j));
      }
    }
  }

  /** In front of the window's end, waiting QoS 2 messages are followed by such messages only,
      and there are none if the list is shorter than the limit. */
  predicate GoodReset(s: State) {
    s.max > 0 ==>
      && (forall i, j :: 0 <= i < j < |s.out| && j + 1 < s.max && IsWaitingTwo(s.out[i]) ==> IsWaitingTwo(s.out[j]))
      && (|s.out| < s.max ==> forall k :: 0 <= k < |s.out| ==> !IsWaitingTwo(s.out[k]))
  }

  predicate Orderly(s: State) {
    Sound(s) && Prefix(s.out) && NoIdleSlot(s)
  }

  lemma AckOrderly(s: State, mid: uint16)
    requires Orderly(s) && !NamesInvalid(s, OnAck(mid))
    ensures Orderly(Ack(s, mid))
  {
    var i := Find(s.out, mid);
    if i < |s.out| {
      UnlinkCounts(s, i);
      UnlinkOrderly(s, i);
      PromotedOrderly(Unlink(s, i));
      var (p, s') := (Promote(Unlink(s, i), 0).0, Ack(s, mid));
      assert s'.out == p.out && s'.outLen == p.outLen && s'.inn == p.inn && s'.inLen == p.inLen
          && s'.inflight == p.inflight && s'.max == p.max;
    }
  }

  lemma PromotedOrderly(s: State)
    requires Sound(s) && Prefix(s.out)
    requires FirstInvalid(s.out) < |s.out| ==> s.max > 0 && s.inflight + 1 >= s.max
    ensures Orderly(Promote(s, 0).0)
  {
    PromotesOne(s);
    var j := FirstInvalid(s.out);
    if HasRoom(s) && j < |s.out| {
      var p := Start(s, j);
      assert forall k :: 0 <= k < |p.out| ==> (p.out[k].state == Invalid <==> k > j && s.out[k].state == Invalid);
    }
  }

  lemma UnlinkOrderly(s: State, i: nat)
    requires Orderly(s) && i < |s.out| && s.out[i].state != Invalid
    ensures var u := Unlink(s, i);
            && Prefix(u.out)
            && (FirstInvalid(u.out) < |u.out| ==> s.max > 0 && u.inflight + 1 >= s.max)
  {
    var u := Unlink(s, i);
    assert forall k :: 0 <= k < |u.out| ==> u.out[k] == s.out[if k < i then k else k + 1];
  }

  /** The messages that wait after a reset. */
  lemma ResetWaits(s: State)
    requires Sound(s)
    ensures var rs := ResetOut(s.out, s.max);
            forall k :: 0 <= k < |rs| ==>
              (rs[k].state == Invalid <==> if s.max == 0 || k + 1 < s.max then IsWaitingTwo(s.out[k]) else true)
  {
    forall k | 0 <= k < |s.out| ensures ResetOut(s.out, s.max)[k] == ResetMsg(s.out[k], k + 1, s.max) {
      ResetOutAt(s.out, s.max, k);
    }
  }

  /** A reset keeps prefix and slots exactly when it is such a reset. */
  lemma ResetOrderlyExactly(s: State)
    requires Orderly(s)
    ensures Orderly(Reset(s)) <==> GoodReset(s)
  {
    ResetMoves(s);
    ActiveAndInvalid(s.out);
    ResetWaits(s);
    if GoodReset(s) { GoodResetOrderly(s); }
    if Orderly(Reset(s)) { OrderlyResetGood(s); }
  }

  lemma GoodResetOrderly(s: State)
    requires Orderly(s) && GoodReset(s)
    ensures Orderly(Reset(s))
  {
    ResetMoves(s);
    ActiveAndInvalid(s.out);
    ResetWaits(s);
  }

  lemma OrderlyResetGood(s: State)
    requires Orderly(s) && Orderly(Reset(s))
    ensures GoodReset(s)
  {
    var rs := Reset(s).out;
    ActiveAndInvalid(s.out);
    ResetWaits(s);
    if s.max > 0 {
      forall i, j | 0 <= i < j < |s.out| && j + 1 < s.max && IsWaitingTwo(s.out[i]) ensures IsWaitingTwo(s.out[j]) {
        assert rs[i].state == Invalid && rs[j].state == Invalid;
      }
      forall k | |s.out| < s.max && 0 <= k < |s.out| ensures !IsWaitingTwo(s.out[k]) {
        assert rs[k].state == Invalid ==> !HasRoom(Reset(s));
      }
    }
  }

  lemma PublishOrderly(s: State, c: Content, now: int)
    requires Orderly(s)
    ensures Orderly(Publish(s, c, now))
  {
  }

  lemma PubrecOrderly(s: State, mid: uint16, now: int)
    requires Orderly(s) && !NamesInvalid(s, OnPubrec(mid, now))
    ensures Orderly(Pubrec(s, mid, now))
  {
    var s' := Pubrec(s, mid, now);
    assert forall k :: 0 <= k < |s.out| ==> (s'.out[k].state == Invalid <==> s.out[k].state == Invalid);
  }

  lemma RetryOrderly(s: State, now: Clock)
    requires Orderly(s)
    ensures Orderly(Retry(s, now))
  {
    var s' := Retry(s, now);
    assert forall k :: 0 <= k < |s.out| ==> s'.out[k].state == s.out[k].state;
  }

  lemma StepOrderly(s: State, e: Event)
    requires Orderly(s) && !NamesInvalid(s, e) && (e == DoReset ==> GoodReset(s))
    ensures Orderly(Step(s, e))
  {
    match e
    case DoPublish(c, now) => PublishOrderly(s, c, now);
    case OnAck(mid) => AckOrderly(s, mid);
    case OnPubrec(mid, now) => PubrecOrderly(s, mid, now);
    case DoRetry(now) => RetryOrderly(s, now);
    case DoReset => GoodResetOrderly(s);
    case DoDraw =>
    case OnPublish(c, dup, now) =>
    case OnPubrel(mid, flagsOk) =>
  }

  predicate ResetIsGood(s: State, e: Event) {
    e == DoReset ==> GoodReset(s)
  }

  predicate GoodResets(s: State, es: seq<Event>) {
    Along(ResetIsGood, s, es)
  }

  /** Prefix and slots hold after the step. */
  predicate LeavesOrderly(s: State, e: Event) {
    Orderly(Step(s, e))
  }

  /** Over runs in which the peer answers messages in flight only: the active messages are the
      first of the list, and no message waits while there is room, after every step of the run
      exactly when all its resets are such resets. */
  lemma {:induction false} RunOrderly(s: State, es: seq<Event>)
    requires Orderly(s) && AnswersActive(s, es)
    ensures Along(LeavesOrderly, s, es) <==> GoodResets(s, es)
    ensures GoodResets(s, es) ==> Orderly(Run(s, es))
  {
    if es == [] {
    } else {
      var (front, e) := (es[..|es| - 1], es[|es| - 1]);
      RunOrderly(s, front);
      if GoodResets(s, front) {
        var s1 := Run(s, front);
        if e == DoReset { ResetOrderlyExactly(s1); } else { StepOrderly(s1, e); }
      }
    }
  }

  /** So a message waits only while the messages in flight, with those the last reset left waiting,
      have reached the limit. */
  lemma WaitsWhenFull(max: nat, retry: nat, script: seq<bool>, es: seq<Event>, k: nat)
    requires var s0 := Initial(max, retry, script); AnswersActive(s0, es) && GoodResets(s0, es)
    requires var s := Run(Initial(max, retry, script), es); k < |s.out| && s.out[k].state == Invalid
    ensures var (s0, s) := (Initial(max, retry, script), Run(Initial(max, retry, script), es));
            max > 0 && Active(s.out) + LeftByReset(s0, es) >= max
  {
    WindowSafe(max, retry, script, es);
    RunOrderly(Initial(max, retry, script), es);
  }

  predicate Qos1Only(es: seq<Event>) {
    forall k :: 0 <= k < |es| && es[k].DoPublish? ==> es[k].c.qos == 1
  }

  lemma AckQos1(s: State, mid: uint16)
    requires AllQos1(s.out)
    ensures AllQos1(Ack(s, mid).out)
  {
    AckContents(s, mid);
    var (ms, i) := (Ack(s, mid).out, Find(s.out, mid));
    forall k | 0 <= k < |ms| ensures ms[k].content.qos == 1 {
      assert ms[k].content == Contents(ms)[k];
      assert i < |s.out| ==> Contents(ms)[k] == Contents(s.out)[if k < i then k else k + 1];
    }
  }

  lemma StepQos1(s: State, e: Event)
    requires AllQos1(s.out) && (e.DoPublish? ==> e.c.qos == 1)
    ensures AllQos1(Step(s, e).out)
  {
    if e.OnAck? { AckQos1(s, e.mid); }
  }

  lemma {:induction false} RunQos1(s: State, es: seq<Event>)
    requires AllQos1(s.out) && Qos1Only(es)
    ensures AllQos1(Run(s, es).out) && GoodResets(s, es)
  {
    if es == [] {
    } else {
      RunQos1(s, es[..|es| - 1]);
      StepQos1(Run(s, es[..|es| - 1]), es[|es| - 1]);
    }
  }

  /** With QoS 1 only, the active messages stay a prefix and no slot stays idle through any
      number of reconnects. */
  lemma Qos1Orderly(max: nat, retry: nat, script: seq<bool>, es: seq<Event>)
    requires AnswersActive(Initial(max, retry, script), es) && Qos1Only(es)
    ensures var s := Run(Initial(max, retry, script), es); Prefix(s.out) && NoIdleSlot(s)
  {
    RunQos1(Initial(max, retry, script), es);
    RunOrderly(Initial(max, retry, script), es);
  }

  // ---------------------------------------------------------------- transmission order and DUP

  /** The contents of the waiting messages, in list order. */
  function Waiting(ms: seq<Msg>): seq<Content> {
    if ms == [] then []
    else Waiting(ms[..|ms| - 1]) + if ms[|ms| - 1].state == Invalid then [ms[|ms| - 1].content] else []
  }

  lemma WaitingSnoc(ms: seq<Msg>, m: Msg)
    ensures Waiting(ms + [m]) == Waiting(ms) + if m.state == Invalid then [m.content] else []
  {
    assert (ms + [m])[..|ms|] == ms;
  }

  lemma {:induction false} WaitingConcat(a: seq<Msg>, b: seq<Msg>)
    ensures Waiting(a + b) == Waiting(a) + Waiting(b)
  {
    if b == [] {
      assert a + b == a;
    } else {
      assert (a + b)[..|a + b| - 1] == a + b[..|b| - 1];
      WaitingConcat(a, b[..|b| - 1]);
    }
  }

  lemma {:induction false} WaitingNone(ms: seq<Msg>)
    requires forall k :: 0 <= k < |ms| ==> ms[k].state != Invalid
    ensures Waiting(ms) == []
  {
    if ms == [] {
    } else {
      WaitingNone(ms[..|ms| - 1]);
    }
  }

  lemma {:induction false} WaitingSame(a: seq<Msg>, b: seq<Msg>)
    requires |a| == |b|
    requires forall k :: 0 <= k < |a| ==>
               a[k].content == b[k].content && (a[k].state == Invalid <==> b[k].state == Invalid)
    ensures Waiting(a) == Waiting(b)
  {
    if a == [] {
    } else {
      WaitingSame(a[..|a| - 1], b[..|b| - 1]);
    }
  }

  lemma WaitingSplit(front: seq<Msg>, m: Msg, back: seq<Msg>)
    ensures Waiting(front + [m] + back)
         == Waiting(front) + (if m.state == Invalid then [m.content] else []) + Waiting(back)
  {
    WaitingConcat(front + [m], back);
    WaitingSnoc(front, m);
  }

  lemma WaitingWithout(ms: seq<Msg>, i: nat)
    requires i < |ms| && ms[i].state != Invalid
    ensures Waiting(Without(ms, i)) == Waiting(ms)
  {
    var (front, back) := (ms[..i], ms[i + 1..]);
    assert ms == front + [ms[i]] + back && Without(ms, i) == front + back;
    WaitingSplit(front, ms[i], back);
    WaitingConcat(front, back);
  }

  /** Starting the first waiting message takes the head off. */
  lemma WaitingStart(ms: seq<Msg>, m: Msg)
    requires FirstInvalid(ms) < |ms| && m.state != Invalid
    ensures var i := FirstInvalid(ms);
            Waiting(ms) == [ms[i].content] + Waiting(ms[i := m])
  {
    var i := FirstInvalid(ms);
    var (front, back) := (ms[..i], ms[i + 1..]);
    assert Waiting(ms) == [ms[i].content] + Waiting(back) by {
      assert ms == front + [ms[i]] + back;
      WaitingSplit(front, ms[i], back);
      WaitingNone(front);
    }
    assert Waiting(ms[i := m]) == Waiting(back) by {
      assert ms[i := m] == front + [m] + back;
      WaitingSplit(front, m, back);
      WaitingNone(front);
    }
  }

  /** Every message in flight has been transmitted; one that waits never was, so its DUP flag
      is clear; and a PUBLISH with DUP set comes after one of the same message with DUP
      clear. */
  predicate DupsFollow(sent: seq<Sent>) {
    forall k :: 0 <= k < |sent| && sent[k].SentPublish? && sent[k].dup ==> sent[k].content in Firsts(sent[..k])
  }

  ghost predicate Transmitted(s: State) {
    && (forall k :: 0 <= k < |s.out| ==>
          if s.out[k].state == Invalid then !s.out[k].dup else s.out[k].content in Firsts(s.sent))
    && DupsFollow(s.sent)
  }

  /** The invariant of runs whose resets leave every message waiting or active as it is. */
  ghost predicate InOrder(s: State) {
    && Orderly(s) && Transmitted(s)
    && Firsts(s.sent) + Waiting(s.out) == s.published
    && InnWaits(s)
  }

  /** Appending sends that are first transmissions, or repeat transmitted messages. */
  lemma DupsFollowGrow(sent: seq<Sent>, more: seq<Sent>)
    requires DupsFollow(sent)
    requires forall k :: 0 <= k < |more| && more[k].SentPublish? && more[k].dup ==> more[k].content in Firsts(sent)
    ensures DupsFollow(sent + more)
  {
    var all := sent + more;
    forall k | 0 <= k < |all| && all[k].SentPublish? && all[k].dup
      ensures all[k].content in Firsts(all[..k])
    {
      if k < |sent| {
        assert all[..k] == sent[..k];
      } else {
        assert all[..k] == sent + more[..k - |sent|];
        FirstsConcat(sent, more[..k - |sent|]);
      }
    }
  }

  lemma PublishQos0InOrder(s: State, c: Content, now: int)
    requires InOrder(s) && c.qos == 0
    ensures InOrder(Publish(s, c, now))
  {
    var content := c.(mid := NextMid(s.lastMid));
    PublishOrderly(s, c, now);
    FirstsSnoc(s.sent, SentPublish(content, false));
    DupsFollowGrow(s.sent, [SentPublish(content, false)]);
  }

  lemma AppendTransmitted(s: State, m: Msg)
    requires Transmitted(s) && m.state != Invalid && m.content.qos > 0
    ensures Transmitted(Send(s.(out := s.out + [m]), SentPublish(m.content, false)))
  {
    FirstsSnoc(s.sent, SentPublish(m.content, false));
    DupsFollowGrow(s.sent, [SentPublish(m.content, false)]);
  }

  /** A message that is sent at once comes behind all others in the order. */
  lemma AppendFirsts(sent: seq<Sent>, ms: seq<Msg>, published: seq<Content>, m: Msg)
    requires Firsts(sent) + Waiting(ms) == published && m.state != Invalid && m.content.qos > 0
    requires forall k :: 0 <= k < |ms| ==> ms[k].state != Invalid
    ensures Firsts(sent + [SentPublish(m.content, false)]) + Waiting(ms + [m]) == published + [m.content]
  {
    FirstsSnoc(sent, SentPublish(m.content, false));
    WaitingSnoc(ms, m);
    WaitingNone(ms);
  }

  lemma PublishNowInOrder(s: State, c: Content, now: int)
    requires InOrder(s) && c.qos > 0 && HasRoom(s)
    ensures InOrder(Publish(s, c, now))
  {
    var content := c.(mid := NextMid(s.lastMid));
    var m := Msg(content, FirstWait(content.qos), false, now);
    PublishOrderly(s, c, now);
    AppendTransmitted(s, m);
    AppendFirsts(s.sent, s.out, s.published, m);
    SameTransmitted(Send(s.(out := s.out + [m]), SentPublish(content, false)), Publish(s, c, now));
  }

  lemma SameTransmitted(s: State, s': State)
    requires Transmitted(s) && s'.out == s.out && s'.sent == s.sent
    ensures Transmitted(s')
  {
  }

  lemma PublishLaterInOrder(s: State, c: Content, now: int)
    requires InOrder(s) && c.qos > 0 && !HasRoom(s)
    ensures InOrder(Publish(s, c, now))
  {
    var content := c.(mid := NextMid(s.lastMid));
    var m := Msg(content, Invalid, false, now);
    var s' := Publish(s, c, now);
    PublishOrderly(s, c, now);
    WaitingSnoc(s.out, m);
    AppendWaiting(s, m);
    assert s'.out == s.out + [m] && s'.sent == s.sent && s'.published == s.published + [content];
    SameTransmitted(s.(out := s.out + [m]), s');
  }

  /** A message that waits needs no transmission. */
  lemma AppendWaiting(s: State, m: Msg)
    requires Transmitted(s) && m.state == Invalid && !m.dup
    ensures Transmitted(s.(out := s.out + [m]))
  {
    var ms := s.out + [m];
    assert forall k :: 0 <= k < |s.out| ==> ms[k] == s.out[k];
  }

  lemma PublishInOrder(s: State, c: Content, now: int)
    requires InOrder(s)
    ensures InOrder(Publish(s, c, now))
  {
    if c.qos == 0 { PublishQos0InOrder(s, c, now); }
    else if HasRoom(s) { PublishNowInOrder(s, c, now); }
    else { PublishLaterInOrder(s, c, now); }
  }

  /** The head of the waiting messages is sent, with DUP clear. */
  lemma StartInOrder(s: State, j: nat)
    requires AllQos(s.out) && Transmitted(s) && j == FirstInvalid(s.out) < |s.out|
    ensures Transmitted(Start(s, j))
    ensures Firsts(Start(s, j).sent) + Waiting(Start(s, j).out) == Firsts(s.sent) + Waiting(s.out)
  {
    var s' := Start(s, j);
    WaitingStart(s.out, s'.out[j]);
    FirstsSnoc(s.sent, SentPublish(s.out[j].content, false));
    DupsFollowGrow(s.sent, [SentPublish(s.out[j].content, false)]);
  }

  lemma UnlinkTransmitted(s: State, i: nat)
    requires Transmitted(s) && i < |s.out| && s.out[i].state != Invalid
    ensures Transmitted(Unlink(s, i)) && Waiting(Unlink(s, i).out) == Waiting(s.out)
  {
    var u := Unlink(s, i);
    WaitingWithout(s.out, i);
    assert forall k :: 0 <= k < |u.out| ==> u.out[k] == s.out[if k < i then k else k + 1];
  }

  /** The removal of an active message and the promotion it allows. */
  lemma RemovalTransmits(s: State, i: nat)
    requires Orderly(s) && Transmitted(s) && i < |s.out| && s.out[i].state != Invalid
    ensures var p := Promote(Unlink(s, i), 0).0;
            && Transmitted(p) && Firsts(p.sent) + Waiting(p.out) == Firsts(s.sent) + Waiting(s.out)
            && p.published == s.published && p.inn == s.inn
  {
    var u := Unlink(s, i);
    UnlinkCounts(s, i);
    UnlinkOrderly(s, i);
    UnlinkTransmitted(s, i);
    PromotesOne(u);
    var j := FirstInvalid(u.out);
    if j < |u.out| { StartInOrder(u, j); }
  }

  lemma AckInOrder(s: State, mid: uint16)
    requires InOrder(s) && !NamesInvalid(s, OnAck(mid))
    ensures InOrder(Ack(s, mid))
  {
    AckOrderly(s, mid);
    var i := Find(s.out, mid);
    if i < |s.out| {
      RemovalTransmits(s, i);
      var (p, s') := (Promote(Unlink(s, i), 0).0, Ack(s, mid));
      assert s'.out == p.out && s'.sent == p.sent && s'.published == p.published && s'.inn == p.inn;
    }
  }

  lemma PubrecInOrder(s: State, mid: uint16, now: int)
    requires InOrder(s) && !NamesInvalid(s, OnPubrec(mid, now))
    ensures InOrder(Pubrec(s, mid, now))
  {
    PubrecOrderly(s, mid, now);
    PubrecFirsts(s, mid, now);
    WaitingSame(s.out, Pubrec(s, mid, now).out);
    DupsFollowGrow(s.sent, [SentPubrel(mid)]);
  }

  /** A retry pass only publishes messages in flight. */
  lemma {:induction false} RetriedContents(ms: seq<Msg>, retry: nat, now: int, known: seq<Content>)
    requires forall k :: 0 <= k < |ms| && ms[k].state != Invalid && ms[k].state != WaitPubrel ==> ms[k].content in known
    ensures forall p :: p in RetrySends(ms, retry, now) && p.SentPublish? ==> p.content in known
  {
    if ms == [] {
    } else {
      RetriedContents(ms[..|ms| - 1], retry, now, known);
    }
  }

  lemma RetryDups(s: State, now: Clock)
    requires InOrder(s)
    ensures DupsFollow(Retry(s, now).sent)
  {
    var (a, b) := (RetrySends(s.out, s.retry, now.out), RetrySends(s.inn, s.retry, now.inn));
    RetriedContents(s.out, s.retry, now.out, Firsts(s.sent));
    RetriedContents(s.inn, s.retry, now.inn, Firsts(s.sent));
    var more := a + b;
    forall k | 0 <= k < |more| && more[k].SentPublish? ensures more[k].content in Firsts(s.sent) {
      assert more[k] in a || more[k] in b;
    }
    DupsFollowGrow(s.sent, more);
  }

  lemma RetryInOrder(s: State, now: Clock)
    requires InOrder(s)
    ensures InOrder(Retry(s, now))
  {
    RetryOrderly(s, now);
    RetryFirsts(s, now);
    RetryDups(s, now);
    WaitingSame(s.out, Retry(s, now).out);
  }

  lemma ReceiveInOrder(s: State, c: Content, dup: bool, now: int)
    requires InOrder(s)
    ensures InOrder(Receive(s, c, dup, now))
  {
    ReceiveFirsts(s, c, dup, now);
    DupsFollowGrow(s.sent, [SentPuback(c.mid)]);
    DupsFollowGrow(s.sent, [SentPubrec(c.mid)]);
  }

  lemma PubrelInOrder(s: State, mid: uint16, flagsOk: bool)
    requires InOrder(s)
    ensures InOrder(Pubrel(s, mid, flagsOk))
  {
    PubrelFirsts(s, mid, flagsOk);
    DupsFollowGrow(s.sent, [SentPubcomp(mid)]);
  }

  // ---------------------------------------------------------------- resets and order

  /** A reset that leaves every message waiting or active as it is: with a limit it finds the
      first limit - 1 messages active (or, behind a full window, waiting with QoS 2) and all
      others waiting. */
  predicate QuietReset(s: State) {
    s.max == 0 ||
    forall k :: 0 <= k < |s.out| ==>
      if s.out[k].state == Invalid then |s.out| >= s.max && (k + 1 >= s.max || s.out[k].content.qos == 2)
      else k + 1 < s.max
  }

  predicate SameWaiting(ms: seq<Msg>, rs: seq<Msg>) {
    |rs| == |ms| && forall k :: 0 <= k < |ms| ==> (rs[k].state == Invalid <==> ms[k].state == Invalid)
  }

  lemma ResetStates(s: State)
    requires Sound(s)
    ensures forall k :: 0 <= k < |s.out| ==> ResetOut(s.out, s.max)[k] == ResetMsg(s.out[k], k + 1, s.max)
    ensures Counted(s.out) == |s.out|
  {
    ActiveAndInvalid(s.out);
    forall k | 0 <= k < |s.out| ensures ResetOut(s.out, s.max)[k] == ResetMsg(s.out[k], k + 1, s.max) {
      ResetOutAt(s.out, s.max, k);
    }
  }

  lemma QuietResetInOrder(s: State)
    requires InOrder(s) && QuietReset(s)
    ensures InOrder(Reset(s))
  {
    var rs := Reset(s).out;
    ResetStates(s);
    assert SameWaiting(s.out, rs);
    WaitingSame(s.out, rs);
    ResetMoves(s);
  }

  lemma {:induction false} WaitingCount(ms: seq<Msg>)
    requires AllQos(ms)
    ensures |Waiting(ms)| == Invalids(ms)
  {
    if ms == [] {
    } else {
      WaitingCount(ms[..|ms| - 1]);
    }
  }

  /** Fewer messages wait when some are activated and none is put back. */
  lemma {:induction false} InvalidsDiffer(a: seq<Msg>, b: seq<Msg>, k: nat)
    requires AllQos(a) && AllQos(b) && |a| == |b| && k < |a| && a[k].state == Invalid && b[k].state != Invalid
    requires forall i :: 0 <= i < |a| && b[i].state == Invalid ==> a[i].state == Invalid
    ensures Invalids(b) < Invalids(a)
  {
    var n := |a| - 1;
    if k == n {
      InvalidsLess(a[..n], b[..n]);
    } else {
      InvalidsDiffer(a[..n], b[..n], k);
    }
  }

  lemma {:induction false} InvalidsLess(a: seq<Msg>, b: seq<Msg>)
    requires AllQos(a) && AllQos(b) && |a| == |b|
    requires forall i :: 0 <= i < |a| && b[i].state == Invalid ==> a[i].state == Invalid
    ensures Invalids(b) <= Invalids(a)
  {
    if a == [] {
    } else {
      InvalidsLess(a[..|a| - 1], b[..|a| - 1]);
    }
  }

  /** A reset either activates waiting messages or puts active ones back, never both, when the
      active ones come first. */
  lemma OneWay(s: State)
    requires Orderly(s)
    ensures var rs := ResetOut(s.out, s.max);
            || (forall i :: 0 <= i < |rs| && rs[i].state == Invalid ==> s.out[i].state == Invalid)
            || (forall i :: 0 <= i < |rs| && s.out[i].state == Invalid ==> rs[i].state == Invalid)
  {
    ResetStates(s);
  }

  lemma ChangedOrder(s: State)
    requires InOrder(s) && !SameWaiting(s.out, ResetOut(s.out, s.max))
    ensures |Waiting(ResetOut(s.out, s.max))| != |Waiting(s.out)|
  {
    var rs := ResetOut(s.out, s.max);
    ResetActive(s.out, s.max);
    WaitingCount(rs);
    WaitingCount(s.out);
    OneWay(s);
    var k :| 0 <= k < |rs| && !(rs[k].state == Invalid <==> s.out[k].state == Invalid);
    if s.out[k].state == Invalid {
      InvalidsDiffer(s.out, rs, k);
    } else {
      InvalidsDiffer(rs, s.out, k);
    }
  }

  /** A reset keeps the order of transmissions exactly when it is such a reset. */
  lemma ResetInOrderExactly(s: State)
    requires InOrder(s)
    ensures InOrder(Reset(s)) <==> QuietReset(s)
  {
    if QuietReset(s) { QuietResetInOrder(s); }
    if InOrder(Reset(s)) { OrderNeedsQuiet(s); }
  }

  lemma OrderNeedsQuiet(s: State)
    requires InOrder(s) && InOrder(Reset(s))
    ensures QuietReset(s)
  {
    if !SameWaiting(s.out, Reset(s).out) { ChangedOrder(s); }
    ResetStates(s);
    assert NoIdleSlot(Reset(s));
  }

  lemma StepInOrder(s: State, e: Event)
    requires InOrder(s) && !NamesInvalid(s, e) && (e == DoReset ==> QuietReset(s))
    ensures InOrder(Step(s, e))
  {
    match e
    case DoPublish(c, now) => PublishInOrder(s, c, now);
    case OnAck(mid) => AckInOrder(s, mid);
    case OnPubrec(mid, now) => PubrecInOrder(s, mid, now);
    case OnPublish(c, dup, now) => ReceiveInOrder(s, c, dup, now);
    case OnPubrel(mid, flagsOk) => PubrelInOrder(s, mid, flagsOk);
    case DoRetry(now) => RetryInOrder(s, now);
    case DoReset => QuietResetInOrder(s);
    case DoDraw =>
  }

  predicate ResetIsQuiet(s: State, e: Event) {
    e == DoReset ==> QuietReset(s)
  }

  predicate QuietResets(s: State, es: seq<Event>) {
    Along(ResetIsQuiet, s, es)
  }

  /** Ordered delivery and DUP, sections 4.6 and 3.3.1.1 of MQTT 3.1.1, over runs with such
      resets only: the transmissions with DUP clear are the published messages in publish
      order, each once, up to those still waiting; every other transmission repeats one of them
      with DUP set; and the active messages are a prefix of the list, with no idle slot. With
      no limit, or nothing queued, every reset is such a reset. */
  lemma {:induction false} RunInOrder(max: nat, retry: nat, script: seq<bool>, es: seq<Event>)
    requires AnswersActive(Initial(max, retry, script), es) && QuietResets(Initial(max, retry, script), es)
    ensures var s := Run(Initial(max, retry, script), es);
            && Firsts(s.sent) + Waiting(s.out) == s.published
            && DupsFollow(s.sent)
            && Prefix(s.out) && NoIdleSlot(s)
    ensures InOrder(Run(Initial(max, retry, script), es))
  {
    var s0 := Initial(max, retry, script);
    if es == [] {
    } else {
      RunInOrder(max, retry, script, es[..|es| - 1]);
      StepInOrder(Run(s0, es[..|es| - 1]), es[|es| - 1]);
    }
  }
}
