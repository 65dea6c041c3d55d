/** The fate of every published message: nothing is lost and nothing is reported twice. */
module Fate {
  import opened Codec
  import opened Engine
  import opened Window

  // ---------------------------------------------------------------- contents of a list

  /** Promotion changes no content. */
  lemma {:induction false} PromoteContents(s: State, k: nat)
    ensures Contents(Promote(s, k).0.out) == Contents(s.out)
    decreases |s.out| - k
  {
    if k < |s.out| && HasRoom(s) {
      if s.out[k].state == Invalid && s.out[k].content.qos > 0 {
        ContentsUpdate(s.out, k, Start(s, k).out[k]);
        if SendOk(s) { PromoteContents(Start(s, k), k + 1); }
      } else {
        PromoteContents(s, k + 1);
      }
    }
  }

  function Contents(ms: seq<Msg>): (cs: seq<Content>)
    ensures |cs| == |ms|
    ensures forall k :: 0 <= k < |ms| ==> cs[k] == ms[k].content
  {
    seq(|ms|, k requires 0 <= k < |ms| => ms[k].content)
  }

  lemma ContentsUpdate(ms: seq<Msg>, i: nat, m: Msg)
    requires i < |ms| && m.content == ms[i].content
    ensures Contents(ms[i := m]) == Contents(ms)
  {
  }

  lemma ContentsWithout(ms: seq<Msg>, i: nat)
    requires i < |ms|
    ensures Contents(Without(ms, i)) == Without(Contents(ms), i)
  {
  }

  /** What an acknowledgement does to the contents of the list. */
  lemma AckContents(s: State, mid: uint16)
    ensures var i := Find(s.out, mid);
            Contents(Ack(s, mid).out) == if i < |s.out| then Without(Contents(s.out), i) else Contents(s.out)
  {
    var i := Find(s.out, mid);
    if i < |s.out| {
      PromoteContents(Unlink(s, i), 0);
      ContentsWithout(s.out, i);
    }
  }

  // ---------------------------------------------------------------- subsequences

  /** `a` is `b` with some elements left out. */
  predicate Within<T(==)>(a: seq<T>, b: seq<T>) {
    if a == [] then true
    else if b == [] then false
    else (a[|a| - 1] == b[|b| - 1] && Within(a[..|a| - 1], b[..|b| - 1])) || Within(a, b[..|b| - 1])
  }

  lemma WithinSnoc<T>(a: seq<T>, b: seq<T>, x: T)
    requires Within(a, b)
    ensures Within(a + [x], b + [x])
  {
    assert (a + [x])[..|a|] == a && (b + [x])[..|b|] == b;
  }

  lemma {:induction false} WithinWithout<T>(a: seq<T>, b: seq<T>, i: nat)
    requires Within(a, b) && i < |a|
    ensures Within(Without(a, i), b)
    decreases |b|
  {
    var (front, rest) := (a[..|a| - 1], b[..|b| - 1]);
    var last := b[|b| - 1];
    assert rest + [last] == b;
    if Within(a, rest) {
      WithinWithout(a, rest, i);
      WithinMore(Without(a, i), rest, last);
    } else if i == |a| - 1 {
      assert Without(a, i) == front;
      WithinMore(front, rest, last);
    } else {
      WithinWithout(front, rest, i);
      WithinSnoc(Without(front, i), rest, last);
      assert Without(a, i) == Without(front, i) + [last];
    }
  }

  lemma WithinMore<T>(a: seq<T>, b: seq<T>, x: T)
    requires Within(a, b)
    ensures Within(a, b + [x])
  {
    assert (b + [x])[..|b|] == b;
  }

  lemma MultisetWithout<T>(a: seq<T>, i: nat)
    requires i < |a|
    ensures multiset(Without(a, i)) + multiset{a[i]} == multiset(a)
  {
    assert a == a[..i] + [a[i]] + a[i + 1..];
  }

  // ---------------------------------------------------------------- the balance

  function MidsOf(cs: seq<Content>): (ms: seq<uint16>)
    ensures |ms| == |cs|
  {
    if cs == [] then [] else MidsOf(cs[..|cs| - 1]) + [cs[|cs| - 1].mid]
  }

  lemma MidsSnoc(cs: seq<Content>, c: Content)
    ensures MidsOf(cs + [c]) == MidsOf(cs) + [c.mid]
  {
    assert (cs + [c])[..|cs|] == cs;
  }

  /** Every published message of QoS 1 or 2 is in exactly one of three places: listed, in
      publish order; acknowledged, and reported through on_publish with its id; or
      acknowledged without a report because a promotion failed to send. */
  ghost predicate Accounted(s: State) {
    && multiset(s.published) == multiset(Contents(s.out)) + multiset(s.acked) + multiset(s.dropped)
    && Within(Contents(s.out), s.published)
    && s.reported == MidsOf(s.acked)
    && s.outLen == |s.out|
  }

  lemma {:induction false} PromoteLogs(s: State, k: nat)
    ensures var (s', rc) := Promote(s, k);
            && s' == s.(out := s'.out, inflight := s'.inflight, sent := s'.sent, script := s'.script)
            && |s'.out| == |s.out|
            && (rc == Success || rc == SendFailed)
            && (rc == SendFailed ==> exists i :: 0 <= i < |s.script| && !s.script[i])
            && (forall i :: 0 <= i < |s'.script| ==> s'.script[i] in s.script)
    decreases |s.out| - k
  {
    if k < |s.out| && HasRoom(s) {
      if s.out[k].state == Invalid && s.out[k].content.qos > 0 {
        if SendOk(s) { PromoteLogs(Start(s, k), k + 1); }
      } else {
        PromoteLogs(s, k + 1);
      }
    }
  }

  /** Listed incoming messages wait for their PUBREL. */
  predicate InnWaits(s: State) {
    forall k :: 0 <= k < |s.inn| ==> s.inn[k].state == WaitPubrel
  }

  lemma StepInnWaits(s: State, e: Event)
    requires InnWaits(s)
    ensures InnWaits(Step(s, e))
  {
    if e.OnAck? && Find(s.out, e.mid) < |s.out| {
      PromoteLogs(Unlink(s, Find(s.out, e.mid)), 0);
    }
  }

  lemma ContentsSnoc(ms: seq<Msg>, m: Msg)
    ensures Contents(ms + [m]) == Contents(ms) + [m.content]
  {
  }

  lemma MultisetSnoc<T>(a: seq<T>, x: T)
    ensures multiset(a + [x]) == multiset(a) + multiset{x}
  {
  }

  /** The message at position i leaves the list for one of the two other places. */
  lemma MovedAccounted(s: State, s': State, i: nat, report: bool)
    requires Accounted(s) && i < |s.out|
    requires Contents(s'.out) == Without(Contents(s.out), i) && s'.outLen == |s'.out|
    requires s'.published == s.published
    requires var c := s.out[i].content;
             if report then s'.acked == s.acked + [c] && s'.reported == s.reported + [c.mid] && s'.dropped == s.dropped
             else s'.acked == s.acked && s'.reported == s.reported && s'.dropped == s.dropped + [c]
    ensures Accounted(s')
  {
    var (cs, c) := (Contents(s.out), s.out[i].content);
    MultisetWithout(cs, i);
    WithinWithout(cs, s.published, i);
    if report {
      MidsSnoc(s.acked, c);
      MultisetSnoc(s.acked, c);
    } else {
      MultisetSnoc(s.dropped, c);
    }
  }

  lemma AckAccounted(s: State, mid: uint16)
    requires Accounted(s)
    ensures Accounted(Ack(s, mid))
  {
    AckContents(s, mid);
    var i := Find(s.out, mid);
    if i < |s.out| {
      PromoteLogs(Unlink(s, i), 0);
      MovedAccounted(s, Ack(s, mid), i, Promote(Unlink(s, i), 0).1 == Success);
    }
  }

  lemma SameContents(s: State, s': State)
    requires Accounted(s) && Contents(s'.out) == Contents(s.out) && s'.outLen == |s'.out|
    requires s'.published == s.published && s'.acked == s.acked && s'.dropped == s.dropped && s'.reported == s.reported
    ensures Accounted(s')
  {
  }

  lemma PublishAccounted(s: State, c: Content, now: int)
    requires Accounted(s)
    ensures Accounted(Publish(s, c, now))
  {
    var s' := Publish(s, c, now);
    if c.qos == 0 {
      SameContents(s, s');
    } else {
      ContentsSnoc(s.out, s'.out[|s.out|]);
      ListedAccounted(s, s', c.(mid := NextMid(s.lastMid)));
    }
  }

  /** A new message is listed last. */
  lemma ListedAccounted(s: State, s': State, c: Content)
    requires Accounted(s) && Contents(s'.out) == Contents(s.out) + [c] && s'.outLen == |s'.out|
    requires s'.published == s.published + [c]
    requires s'.acked == s.acked && s'.reported == s.reported && s'.dropped == s.dropped
    ensures Accounted(s')
  {
    MultisetSnoc(Contents(s.out), c);
    MultisetSnoc(s.published, c);
    WithinSnoc(Contents(s.out), s.published, c);
  }

  lemma OthersAccount(s: State, e: Event)
    requires !e.DoPublish? && !e.OnAck? && s.outLen == |s.out|
    ensures var s' := Step(s, e);
            && Contents(s'.out) == Contents(s.out) && s'.outLen == |s'.out| && s'.published == s.published
            && s'.acked == s.acked && s'.dropped == s.dropped && s'.reported == s.reported
  {
  }

  lemma StepAccounted(s: State, e: Event)
    requires Accounted(s)
    ensures Accounted(Step(s, e))
  {
    match e
    case DoPublish(c, now) => PublishAccounted(s, c, now);
    case OnAck(mid) => AckAccounted(s, mid);
    case _ =>
      OthersAccount(s, e);
      SameContents(s, Step(s, e));
  }

  /** No loss and no double report, over all runs whatever the peer and the network do. The linked
      lists lose a message published behind a stale tail pointer (Execution.PartedUnaccounted). */
  lemma {:induction false} RunAccounted(max: nat, retry: nat, script: seq<bool>, es: seq<Event>)
    ensures Accounted(Run(Initial(max, retry, script), es))
  {
    var s0 := Initial(max, retry, script);
    if es == [] {
      assert Contents(s0.out) == [];
    } else {
      RunAccounted(max, retry, script, es[..|es| - 1]);
      StepAccounted(Run(s0, es[..|es| - 1]), es[|es| - 1]);
    }
  }

  /** The third place is empty as long as no send fails. */
  predicate AllSends(script: seq<bool>) {
    forall i :: 0 <= i < |script| ==> script[i]
  }

  lemma StepReports(s: State, e: Event)
    requires AllSends(s.script) && s.dropped == []
    ensures AllSends(Step(s, e).script) && Step(s, e).dropped == []
  {
    if e.OnAck? {
      var i := Find(s.out, e.mid);
      if i < |s.out| { PromoteLogs(Unlink(s, i), 0); }
    }
  }

  /** If every send succeeds, every acknowledged message is reported. */
  lemma {:induction false} RunReports(max: nat, retry: nat, script: seq<bool>, es: seq<Event>)
    requires AllSends(script)
    ensures var s := Run(Initial(max, retry, script), es);
            && s.dropped == [] && AllSends(s.script)
            && multiset(s.published) == multiset(Contents(s.out)) + multiset(s.acked)
  {
    var s0 := Initial(max, retry, script);
    RunAccounted(max, retry, script, es);
    if es == [] {
    } else {
      RunReports(max, retry, script, es[..|es| - 1]);
      StepReports(Run(s0, es[..|es| - 1]), es[|es| - 1]);
    }
  }

  predicate FirstSends(script: seq<bool>, n: nat) {
    forall k :: 0 <= k < n && k < |script| ==> script[k]
  }

  lemma FirstSendsNext(script: seq<bool>, n: nat)
    requires script == [] || script[0]
    ensures FirstSends(if script == [] then [] else script[1..], n) <==> FirstSends(script, n + 1)
  {
    if script != [] && FirstSends(script[1..], n) {
      forall k | 0 <= k < n + 1 && k < |script| ensures script[k] {
        if k > 0 { assert script[1..][k - 1]; }
      }
    }
  }

  /** How many messages a promotion from k on has room to start. */
  function Due(s: State, k: nat): nat
    requires k <= |s.out|
  {
    var waiting := Invalids(s.out[k..]);
    if s.max == 0 || waiting <= s.max - s.inflight then waiting
    else if s.inflight >= s.max then 0
    else s.max - s.inflight
  }

  lemma DueNext(s: State, k: nat)
    requires k < |s.out| && HasRoom(s)
    ensures if IsInvalid(s.out[k]) then Due(s, k) == 1 + Due(Start(s, k), k + 1) else Due(s, k) == Due(s, k + 1)
  {
    assert s.out[k..] == [s.out[k]] + s.out[k + 1..];
    CountConcat([s.out[k]], s.out[k + 1..], IsInvalid);
    CountOne(s.out[k], IsInvalid);
    assert Start(s, k).out[k + 1..] == s.out[k + 1..];
  }

  /** A promotion succeeds exactly when the sends it has room for do: as many as messages wait,
      or as there are free slots. It stops at the first that does not. */
  lemma {:induction false} PromoteSucceeds(s: State, k: nat)
    requires k <= |s.out|
    ensures var (s', rc) := Promote(s, k);
            && (rc == Success <==> FirstSends(s.script, Due(s, k)))
            && (rc == Success ==> |s'.sent| == |s.sent| + Due(s, k))
            && (rc != Success ==> |s.sent| < |s'.sent| <= |s.sent| + Due(s, k)
                                  && FirstSends(s.script, |s'.sent| - |s.sent| - 1))
    decreases |s.out| - k
  {
    if k < |s.out| && HasRoom(s) {
      DueNext(s, k);
      if IsInvalid(s.out[k]) {
        var s1 := Start(s, k);
        if SendOk(s) {
          PromoteSucceeds(s1, k + 1);
          FirstSendsNext(s.script, Due(s1, k + 1));
          var n := |Promote(s1, k + 1).0.sent| - |s1.sent|;
          if n > 0 { FirstSendsNext(s.script, n - 1); }
        }
      } else {
        PromoteSucceeds(s, k + 1);
      }
    } else {
      assert k == |s.out| ==> s.out[k..] == [];
    }
  }

  /** When an acknowledgement is reported: it names a listed message, and the sends its removal
      makes room for succeed. Otherwise a listed message is gone without a report. */
  lemma AckReports(s: State, mid: uint16)
    ensures var (s', i) := (Ack(s, mid), Find(s.out, mid));
            && (i == |s.out| ==> s' == s)
            && (i < |s.out| ==> |s.sent| <= |s'.sent| <= |s.sent| + Due(Unlink(s, i), 0))
            && (i < |s.out| ==>
                 if FirstSends(s.script, Due(Unlink(s, i), 0))
                 then s'.reported == s.reported + [mid] && s'.dropped == s.dropped
                 else s'.reported == s.reported && s'.dropped == s.dropped + [s.out[i].content])
  {
    var i := Find(s.out, mid);
    if i < |s.out| {
      PromoteSucceeds(Unlink(s, i), 0);
      PromoteLogs(Unlink(s, i), 0);
    }
  }
}
