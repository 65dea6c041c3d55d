/** When the in-flight limit is kept for good. */
module Limits {
  import opened Codec
  import opened Engine
  import opened Window

  // ---------------------------------------------------------------- publishing

  /** The same message published n times. */
  function Publishes(c: Content, n: nat): seq<Event> {
    if n == 0 then [] else Publishes(c, n - 1) + [DoPublish(c, 1)]
  }

  /** n messages with this QoS were listed behind those of s. */
  ghost predicate Grown(s: State, s': State, n: nat, qos: nat) {
    && Sound(s') && s'.max == s.max && Drift(s') == Drift(s) && |s'.out| == |s.out| + n
    && (s.max > 0 && s.inflight + n <= s.max ==> s'.inflight == s.inflight + n)
    && (forall k :: |s.out| <= k < |s'.out| ==> s'.out[k].content.qos == qos)
  }

  lemma GrownNext(s: State, s1: State, n: nat, c: Content)
    requires Grown(s, s1, n, c.qos) && c.qos > 0
    ensures Grown(s, Publish(s1, c, 1), n + 1, c.qos)
  {
    var s' := Publish(s1, c, 1);
    PublishMoves(s1, c, 1);
    assert |s'.out| == |s1.out| + 1 && s'.out[|s1.out|].content.qos == c.qos;
    assert forall k :: 0 <= k < |s1.out| ==> s'.out[k] == s1.out[k];
  }

  lemma {:induction false} Published(s: State, c: Content, n: nat)
    requires Sound(s) && c.qos > 0
    ensures Grown(s, Run(s, Publishes(c, n)), n, c.qos)
    ensures AnswersActive(s, Publishes(c, n))
  {
    if n == 0 {
    } else {
      var front := Publishes(c, n - 1);
      Published(s, c, n - 1);
      PublishLast(s, front, c);
      GrownNext(s, Run(s, front), n - 1, c);
    }
  }

  lemma PublishLast(s: State, es: seq<Event>, c: Content)
    requires AnswersActive(s, es)
    ensures Run(s, es + [DoPublish(c, 1)]) == Publish(Run(s, es), c, 1) && AnswersActive(s, es + [DoPublish(c, 1)])
  {
    RunSnoc(s, es, DoPublish(c, 1));
    assert (es + [DoPublish(c, 1)])[..|es|] == es;
  }

  predicate ResetFree(es: seq<Event>) {
    forall k :: 0 <= k < |es| ==> es[k] != DoReset
  }

  // ---------------------------------------------------------------- the limit

  /** The limit holds after every run in which the peer answers active messages only. */
  ghost predicate LimitHolds(s: State) {
    forall es :: AnswersActive(s, es) ==> Active(Run(s, es).out) <= s.max
  }

  lemma {:induction false} LimitKept(s: State, es: seq<Event>)
    requires Sound(s) && s.max > 0 && Limited(s) && AnswersActive(s, es)
    ensures Sound(Run(s, es)) && Run(s, es).max == s.max && Limited(Run(s, es))
  {
    if es == [] {
    } else {
      var (front, e) := (es[..|es| - 1], es[|es| - 1]);
      LimitKept(s, front);
      StepMoves(Run(s, front), e);
    }
  }

  /** A counter below the number of active messages lets publishing exceed the limit. */
  lemma Exceeded(s: State)
    requires Sound(s) && s.max > 0 && Drift(s) < 0 && Active(s.out) <= s.max
    ensures !LimitHolds(s)
  {
    var c := Content(0, [], [], 1, false);
    var n := s.max - s.inflight;
    Published(s, c, n);
    assert AnswersActive(s, Publishes(c, n));
    assert Active(Run(s, Publishes(c, n)).out) > s.max;
  }

  /** The limit holds for good exactly when it holds and the counter is not below the number
      of active messages. */
  lemma LimitExactly(s: State)
    requires Sound(s) && s.max > 0
    ensures LimitHolds(s) <==> 0 <= Drift(s) && Active(s.out) <= s.max
  {
    if 0 <= Drift(s) && Active(s.out) <= s.max {
      forall es | AnswersActive(s, es) ensures Active(Run(s, es).out) <= s.max { LimitKept(s, es); }
    } else if Active(s.out) > s.max {
      assert AnswersActive(s, []);
      assert Active(Run(s, []).out) > s.max;
    } else {
      Exceeded(s);
    }
  }

  /** So it survives an answer to a message that is not in flight exactly when the counter is
      ahead, and the answer does not make the message one too many in flight. */
  lemma StrayAnswer(s: State, e: Event)
    requires Sound(s) && s.max > 0 && NamesInvalid(s, e)
    ensures LimitHolds(Step(s, e)) <==>
              1 <= Drift(s) && Active(s.out) + (if e.OnPubrec? then 1 else 0) <= s.max
  {
    StepMoves(s, e);
    LimitExactly(Step(s, e));
    if e.OnPubrec? { StrayPubrec(s, e.mid, e.now); } else { StrayAck(s, e.mid); }
  }

  lemma StrayPubrec(s: State, mid: uint16, now: int)
    requires Sound(s) && NamesInvalid(s, OnPubrec(mid, now))
    ensures Active(Pubrec(s, mid, now).out) == Active(s.out) + 1
  {
    var i := Find(s.out, mid);
    CountUpdate(s.out, i, Pubrec(s, mid, now).out[i], IsActive);
  }

  lemma StrayAck(s: State, mid: uint16)
    requires Sound(s) && s.max > 0 && NamesInvalid(s, OnAck(mid))
    ensures 1 <= Drift(s) ==> (Active(Ack(s, mid).out) <= s.max <==> Active(s.out) <= s.max)
  {
    var i := Find(s.out, mid);
    var u := Unlink(s, i);
    UnlinkCounts(s, i);
    CountWithout(s.out, i, IsActive);
    PromoteCounts(u, 0);
    assert Ack(s, mid).out == Promote(u, 0).0.out;
  }
}
