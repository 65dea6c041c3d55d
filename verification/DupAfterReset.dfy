/** The retry that follows a reset, and the rule that a PUBLISH with DUP set repeats one with
    DUP clear (section 3.3.1.1 of MQTT 3.1.1). */
module DupAfterReset {
  import opened Engine
  import opened Fate
  import opened Order
  import opened Retries
  import opened Runs
  import opened Window

  /** The waiting messages of QoS 1 in front of the window's end have been transmitted. */
  ghost predicate FrontTransmitted(s: State) {
    forall k :: 0 <= k < |s.out| && s.out[k].state == Invalid && s.out[k].content.qos == 1
                && (s.max == 0 || k + 1 < s.max) ==>
      s.out[k].content in Firsts(s.sent)
  }

  /** They are those a reset activates. */
  lemma Activates(s: State, k: nat)
    requires AllQos(s.out) && k < |s.out| && s.out[k].state == Invalid
    ensures ResetOut(s.out, s.max)[k].state != Invalid <==>
              s.out[k].content.qos == 1 && (s.max == 0 || k + 1 < s.max)
  {
    ResetOutAt(s.out, s.max, k);
  }

  /** A retry of a message never transmitted breaks the rule on DUP. */
  lemma UnknownRetried(sent: seq<Sent>, more: seq<Sent>, k: nat)
    requires Firsts(more) == [] && k < |more| && more[k].SentPublish? && more[k].dup && more[k].content !in Firsts(sent)
    ensures !DupsFollow(sent + more)
  {
    var all := sent + more;
    assert all[|sent| + k] == more[k] && all[..|sent| + k] == sent + more[..k];
    assert more == more[..k] + more[k..];
    FirstsConcat(more[..k], more[k..]);
    FirstsConcat(sent, more[..k]);
    assert Firsts(more[..k]) == [];
  }

  /** Every message in flight has been transmitted. */
  ghost predicate ActiveKnown(s: State) {
    && AllQos(s.out) && DupsFollow(s.sent)
    && (forall k :: 0 <= k < |s.out| && s.out[k].state != Invalid ==> s.out[k].content in Firsts(s.sent))
    && InnWaits(s)
  }

  lemma KnownRetried(s: State, now: Clock)
    requires ActiveKnown(s) && FrontTransmitted(s)
    ensures DupsFollow(Retry(Reset(s), now).sent)
  {
    var (r, known) := (Reset(s), Firsts(s.sent));
    forall k | 0 <= k < |r.out| && r.out[k].state != Invalid ensures r.out[k].content in known {
      if s.out[k].state == Invalid { Activates(s, k); }
    }
    var (a, b) := (RetrySends(r.out, s.retry, now.out), RetrySends(r.inn, s.retry, now.inn));
    RetriedContents(r.out, s.retry, now.out, known);
    RetriedContents(r.inn, s.retry, now.inn, known);
    var more := a + b;
    forall k | 0 <= k < |more| && more[k].SentPublish? ensures more[k].content in known {
      assert more[k] in a || more[k] in b;
    }
    DupsFollowGrow(s.sent, more);
  }

  lemma ActivatedRetried(s: State, now: int, k: nat)
    requires AllQos(s.out) && s.retry < now && k < |s.out|
    requires s.out[k].state == Invalid && ResetOut(s.out, s.max)[k].state != Invalid
    ensures SentPublish(s.out[k].content, true) in RetrySends(ResetOut(s.out, s.max), s.retry, now)
  {
    ResetOutAt(s.out, s.max, k);
    RetriedAt(ResetOut(s.out, s.max), s.retry, now, k);
  }

  lemma NoFirsts(outs: seq<Msg>, inns: seq<Msg>, retry: nat, now: Clock)
    ensures Firsts(RetrySends(outs, retry, now.out) + RetrySends(inns, retry, now.inn)) == []
  {
    RetriesAreNotFirst(outs, retry, now.out);
    RetriesAreNotFirst(inns, retry, now.inn);
    FirstsConcat(RetrySends(outs, retry, now.out), RetrySends(inns, retry, now.inn));
  }

  lemma UnknownAmong(sent: seq<Sent>, a: seq<Sent>, b: seq<Sent>, c: Content)
    requires Firsts(a + b) == [] && SentPublish(c, true) in a && c !in Firsts(sent)
    ensures !DupsFollow(sent + (a + b))
  {
    var j :| 0 <= j < |a| && a[j] == SentPublish(c, true);
    assert (a + b)[j] == a[j];
    UnknownRetried(sent, a + b, j);
  }

  lemma UnknownActivated(s: State, now: Clock, k: nat)
    requires AllQos(s.out) && s.retry < now.out && k < |s.out|
    requires s.out[k].state == Invalid && s.out[k].content !in Firsts(s.sent)
    requires ResetOut(s.out, s.max)[k].state != Invalid
    ensures !DupsFollow(Retry(Reset(s), now).sent)
  {
    var (outs, inns) := (ResetOut(s.out, s.max), ResetIn(s.inn));
    ActivatedRetried(s, now.out, k);
    NoFirsts(outs, inns, s.retry, now);
    UnknownAmong(s.sent, RetrySends(outs, s.retry, now.out), RetrySends(inns, s.retry, now.inn), s.out[k].content);
  }

  /** The retry after a reset keeps the rule on DUP exactly when the waiting messages of QoS 1
      in front of the window's end have been transmitted. */
  lemma RetryDupsExactly(s: State, now: Clock)
    requires ActiveKnown(s) && s.retry < now.out
    ensures DupsFollow(Retry(Reset(s), now).sent) <==> FrontTransmitted(s)
  {
    if FrontTransmitted(s) {
      KnownRetried(s, now);
    } else {
      var k :| 0 <= k < |s.out| && s.out[k].state == Invalid && s.out[k].content.qos == 1
               && (s.max == 0 || k + 1 < s.max) && s.out[k].content !in Firsts(s.sent);
      Activates(s, k);
      UnknownActivated(s, now, k);
    }
  }

  function Park(m: Msg): Msg {
    m.(state := Invalid, timestamp := 0)
  }

  function Parked(ms: seq<Msg>): (rs: seq<Msg>)
    ensures |rs| == |ms| && forall k :: 0 <= k < |ms| ==> rs[k] == Park(ms[k])
  {
    seq(|ms|, k requires 0 <= k < |ms| => Park(ms[k]))
  }

  lemma ParkedCons(m: Msg, rest: seq<Msg>)
    ensures Parked([m] + rest) == [Park(m)] + Parked(rest) && Parked(Parked(rest)) == Parked(rest)
  {
  }

  lemma Qos1Cons(m: Msg, rest: seq<Msg>)
    ensures AllQos1([m] + rest) <==> m.content.qos == 1 && AllQos1(rest)
    ensures AllQos1(rest) ==> AllQos1(Parked(rest))
  {
    var ms := [m] + rest;
    if AllQos1(ms) {
      assert ms[0] == m && forall k :: 0 <= k < |rest| ==> rest[k] == ms[k + 1];
    }
  }

  /** A reset with a limit of 2 leaves the first message active only. */
  lemma ResetWithTwo(s: State, m: Msg, rest: seq<Msg>)
    requires s.max == 2 && s.out == [m] + rest && AllQos1(s.out)
    ensures var r := Reset(s);
            && r.out == [m.(state := WaitPuback, timestamp := 0)] + Parked(rest)
            && r.inflight == |s.out| && Same(s, r)
  {
    var outs := [m.(state := WaitPuback, timestamp := 0)] + Parked(rest);
    ActiveAndInvalid(s.out);
    forall k | 0 <= k < |s.out| ensures Reset(s).out[k] == outs[k] {
      ResetOutAt(s.out, 2, k);
    }
  }

  /** What the example keeps of a state. */
  predicate Same(s: State, s': State) {
    s'.max == s.max == 2 && s'.sent == s.sent && s'.retry == s.retry && (s.inn == [] ==> s'.inn == [])
  }

  /** The first message goes, and no room comes of it. */
  lemma AckNoRoom(s: State, m: Msg, rest: seq<Msg>)
    requires s.max == 2 && s.out == [m] + rest && m.content.qos == 1 && s.inflight >= 3
    ensures Ack(s, m.content.mid).out == rest && Same(s, Ack(s, m.content.mid))
  {
    assert Find(s.out, m.content.mid) == 0;
    assert Without(s.out, 0) == rest;
  }

  /** One reconnect, and the acknowledgement of the message it left active. */
  lemma ResetAndAck(s: State, m: Msg, rest: seq<Msg>)
    requires s.max == 2 && s.out == [m] + rest && AllQos1(s.out) && |rest| >= 2
    ensures var s' := Ack(Reset(s), m.content.mid);
            s'.out == Parked(rest) && Same(s, s')
  {
    assert m == s.out[0];
    ResetWithTwo(s, m, rest);
    AckNoRoom(Reset(s), m.(state := WaitPuback, timestamp := 0), Parked(rest));
  }

  lemma FivePublished(s0: State, a: Content, b: Content, c: Content, d: Content, e: Content)
    requires s0 == Initial(2, 20, []) && a.qos == b.qos == c.qos == d.qos == e.qos == 1
    ensures var s := Publish(Publish(Publish(Publish(Publish(s0, a, 1), b, 1), c, 1), d, 1), e, 1);
            && s.out == [Msg(a.(mid := 1), WaitPuback, false, 1), Msg(b.(mid := 2), WaitPuback, false, 1)]
                        + [Msg(c.(mid := 3), Invalid, false, 1)]
                        + [Msg(d.(mid := 4), Invalid, false, 1), Msg(e.(mid := 5), Invalid, false, 1)]
            && s.max == 2 && s.inn == [] && s.retry == 20
            && s.sent == [SentPublish(a.(mid := 1), false), SentPublish(b.(mid := 2), false)]
  {
    var (ma, mb) := (Msg(a.(mid := 1), WaitPuback, false, 1), Msg(b.(mid := 2), WaitPuback, false, 1));
    var s2 := Publish(Publish(s0, a, 1), b, 1);
    assert [] + [ma] == [ma];
    assert s2.out == [ma, mb] && s2.sent == [SentPublish(ma.content, false), SentPublish(mb.content, false)];
    ThreeParked(s2, c, d, e);
  }

  lemma ThreeParked(s: State, c: Content, d: Content, e: Content)
    requires s.max == 2 && !HasRoom(s) && c.qos == d.qos == e.qos == 1 && s.lastMid == 2
    ensures var s' := Publish(Publish(Publish(s, c, 1), d, 1), e, 1);
            && s'.out == s.out + [Msg(c.(mid := 3), Invalid, false, 1)]
                         + [Msg(d.(mid := 4), Invalid, false, 1), Msg(e.(mid := 5), Invalid, false, 1)]
            && Same(s, s')
  {
  }

  /** Two reconnects with an acknowledgement behind each, and a third. */
  lemma ThreeResets(s: State, a: Msg, b: Msg, c: Msg, rest: seq<Msg>)
    requires s.out == [a] + ([b] + ([c] + rest)) && rest != [] && AllQos1(s.out) && s.max == 2
    ensures var s' := Reset(Ack(Reset(Ack(Reset(s), a.content.mid)), b.content.mid));
            && s'.out == [c.(state := WaitPuback, timestamp := 0)] + Parked(rest)
            && s'.inflight == |s'.out| && Same(s, s')
  {
    var (bs, cs) := ([b] + ([c] + rest), [c] + rest);
    var s1 := Ack(Reset(s), a.content.mid);
    ResetAndAck(s, a, bs);
    Qos1Cons(a, bs);
    ParkedCons(b, cs);
    ParkedCons(c, rest);
    assert s1.out == [Park(b)] + ([Park(c)] + Parked(rest)) && AllQos1(s1.out);
    TwoResets(s1, Park(b), Park(c), Parked(rest));
    assert Park(c).(state := WaitPuback, timestamp := 0) == c.(state := WaitPuback, timestamp := 0);
  }

  /** The second and the third. */
  lemma TwoResets(s: State, b: Msg, c: Msg, rest: seq<Msg>)
    requires s.out == [b] + ([c] + rest) && rest != [] && AllQos1(s.out) && s.max == 2
    ensures var s' := Reset(Ack(Reset(s), b.content.mid));
            && s'.out == [c.(state := WaitPuback, timestamp := 0)] + Parked(rest)
            && s'.inflight == |s'.out| && Same(s, s')
  {
    var cs := [c] + rest;
    var s1 := Ack(Reset(s), b.content.mid);
    ResetAndAck(s, b, cs);
    Qos1Cons(b, cs);
    ParkedCons(c, rest);
    assert s1.out == [Park(c)] + Parked(rest) && AllQos1(s1.out);
    ResetWithTwo(s1, Park(c), Parked(rest));
    assert Park(c).(state := WaitPuback, timestamp := 0) == c.(state := WaitPuback, timestamp := 0);
  }

  /** The case occurs: with a limit of 2, five messages are published, and after three
      reconnects the third one is active without ever having been transmitted; its first PUBLISH
      is a retry, with DUP set. The counter is ahead of the active messages by the limit, so
      that no message can be started. */
  lemma FirstPublishWithDup(s0: State, a: Content, b: Content, c: Content, d: Content, e: Content)
    requires s0 == Initial(2, 20, []) && a.qos == b.qos == c.qos == d.qos == e.qos == 1
    ensures var es := [DoPublish(a, 1), DoPublish(b, 1), DoPublish(c, 1), DoPublish(d, 1)] + [DoPublish(e, 1)]
                      + [DoReset, OnAck(1), DoReset, OnAck(2)];
            var s := Reset(Run(s0, es));
            && Drift(s) == s.max
            && Retry(s, Clock(100, 100)).sent == [SentPublish(a.(mid := 1), false), SentPublish(b.(mid := 2), false)]
                                     + [SentPublish(c.(mid := 3), true)]
  {
    var es := [DoPublish(a, 1), DoPublish(b, 1), DoPublish(c, 1), DoPublish(d, 1)] + [DoPublish(e, 1)];
    var fs := [DoReset, OnAck(1), DoReset, OnAck(2)];
    var s := Run(s0, es);
    FiveRun(s0, a, b, c, d, e);
    FoldConcat(Step, s0, es, fs);
    AfterFive(s, fs);
  }

  lemma FiveRun(s0: State, a: Content, b: Content, c: Content, d: Content, e: Content)
    requires s0 == Initial(2, 20, []) && a.qos == b.qos == c.qos == d.qos == e.qos == 1
    ensures var es := [DoPublish(a, 1), DoPublish(b, 1), DoPublish(c, 1), DoPublish(d, 1)] + [DoPublish(e, 1)];
            var s := Run(s0, es);
            && |s.out| == 5 && AllQos1(s.out) && s.max == 2 && s.inn == [] && s.retry == 20
            && s.out[0].content == a.(mid := 1) && s.out[1].content == b.(mid := 2) && s.out[2].content == c.(mid := 3)
            && s.sent == [SentPublish(a.(mid := 1), false), SentPublish(b.(mid := 2), false)]
  {
    var es := [DoPublish(a, 1), DoPublish(b, 1), DoPublish(c, 1), DoPublish(d, 1)];
    FoldFour(Step, s0, es[0], es[1], es[2], es[3]);
    FoldSnoc(Step, s0, es, DoPublish(e, 1));
    FivePublished(s0, a, b, c, d, e);
  }

  lemma AfterFive(s: State, fs: seq<Event>)
    requires fs == [DoReset, OnAck(1), DoReset, OnAck(2)]
    requires |s.out| == 5 && AllQos1(s.out) && s.max == 2 && s.inn == [] && s.retry == 20
    requires s.out[0].content.mid == 1 && s.out[1].content.mid == 2
    ensures var s' := Reset(Run(s, fs));
            Drift(s') == s'.max && Retry(s', Clock(100, 100)).sent == s.sent + [SentPublish(s.out[2].content, true)]
  {
    var s' := Ack(Reset(Ack(Reset(s), 1)), 2);
    assert Run(s, fs) == s' by { FoldFour(Step, s, fs[0], fs[1], fs[2], fs[3]); }
    var (a, b, c, rest) := (s.out[0], s.out[1], s.out[2], s.out[3..]);
    assert s.out == [a] + ([b] + ([c] + rest));
    ThreeResets(s, a, b, c, rest);
    ThirdRetried(Reset(s'), c.(state := WaitPuback, timestamp := 0), rest);
  }

  lemma ThirdRetried(s: State, c: Msg, rest: seq<Msg>)
    requires s.out == [c] + Parked(rest) && s.inn == [] && s.retry == 20
    requires c.content.qos == 1 && c.state == WaitPuback && c.timestamp == 0
    ensures Active(s.out) == 1 && Retry(s, Clock(100, 100)).sent == s.sent + [SentPublish(c.content, true)]
  {
    CountConcat([c], Parked(rest), IsActive);
    CountOne(c, IsActive);
    CountZero(Parked(rest), IsActive);
    assert [c][..0] == [];
    assert RetrySends([c], 20, 100) == [SentPublish(c.content, true)];
    ParkedSilent([c], Parked(rest), 20, 100);
  }

  lemma {:induction false} ParkedSilent(front: seq<Msg>, back: seq<Msg>, retry: nat, now: int)
    requires forall k :: 0 <= k < |back| ==> back[k].state == Invalid
    ensures RetrySends(front + back, retry, now) == RetrySends(front, retry, now)
  {
    if back == [] {
      assert front + back == front;
    } else {
      assert (front + back)[..|front + back| - 1] == front + back[..|back| - 1];
      ParkedSilent(front, back[..|back| - 1], retry, now);
    }
  }
}
