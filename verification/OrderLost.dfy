/** A reset that loses the order: a waiting QoS 2 message stays waiting while a message of QoS 1
    behind it is activated. */
module OrderLost {
  import opened Engine
  import opened Runs
  import opened Window
  import opened Order
  import opened DeadWindow

  /** Five messages with a limit of 3, the third with QoS 2. */
  lemma FiveListed(s0: State, a: Content, b: Content, c: Content, d: Content, e: Content)
    requires s0 == Initial(3, 20, []) && a.qos == b.qos == d.qos == e.qos == 1 && c.qos == 2
    ensures var s := Publish(Publish(Publish(Publish(Publish(s0, a, 1), b, 1), c, 1), d, 1), e, 1);
            && |s.out| == 5 && s.max == 3 && Sound(s)
            && s.out[0].content == a.(mid := 1) && s.out[1].content == b.(mid := 2)
            && s.out[2].content.qos == 2 && s.out[3].content.qos == s.out[4].content.qos == 1
  {
    var s3 := Publish(Publish(Publish(s0, a, 1), b, 1), c, 1);
    var (ma, mb) := (Msg(a.(mid := 1), WaitPuback, false, 1), Msg(b.(mid := 2), WaitPuback, false, 1));
    assert s3.out == [ma] + [mb] + [Msg(c.(mid := 3), WaitPubrec, false, 1)];
    var s5 := Publish(Publish(s3, d, 1), e, 1);
    assert s5.out == s3.out + [Msg(d.(mid := 4), Invalid, false, 1)] + [Msg(e.(mid := 5), Invalid, false, 1)];
  }

  /** The first two are active after a reset, and acknowledging them makes no room. */
  lemma TwoAcked(s: State)
    requires Sound(s) && s.max == 3 && |s.out| == 5
    requires s.out[0].content.qos == s.out[1].content.qos == 1
    ensures var s' := Ack(Ack(Reset(s), s.out[0].content.mid), s.out[1].content.mid);
            && Sound(s') && s'.max == 3 && |s'.out| == 3
            && forall k :: 0 <= k < 3 ==> s'.out[k].content == s.out[k + 2].content && s'.out[k].state == Invalid
  {
    var r := Reset(s);
    ResetMoves(s);
    ResetLeaves(s);
    forall k | 0 <= k < 5 ensures r.out[k] == ResetMsg(s.out[k], k + 1, 3) { ResetOutAt(s.out, 3, k); }
    HeadAcked(r);
    var r1 := Ack(r, r.out[0].content.mid);
    assert r1.out[0] == r.out[1];
    HeadAcked(r1);
  }

  lemma SecondActivated(s: State)
    requires Sound(s) && s.max == 3 && |s.out| == 3
    requires s.out[0].content.qos == 2 && s.out[0].state == Invalid && s.out[1].content.qos == 1
    ensures !Prefix(Reset(s).out)
  {
    var rs := Reset(s).out;
    ResetOutAt(s.out, 3, 0);
    ResetOutAt(s.out, 3, 1);
    assert rs[0].state == Invalid && rs[1].state != Invalid;
  }

  /** With a limit of 3: the second reset activates the fourth message, and the third, of QoS 2,
      goes on waiting. */
  lemma ResetLosesOrder(s0: State, a: Content, b: Content, c: Content, d: Content, e: Content)
    requires s0 == Initial(3, 20, []) && a.qos == b.qos == d.qos == e.qos == 1 && c.qos == 2
    ensures var es := [DoPublish(a, 1), DoPublish(b, 1), DoPublish(c, 1), DoPublish(d, 1)] + [DoPublish(e, 1)]
                      + [DoReset, OnAck(1), OnAck(2), DoReset];
            !Prefix(Run(s0, es).out)
  {
    var (es, last) := ([DoPublish(a, 1), DoPublish(b, 1), DoPublish(c, 1), DoPublish(d, 1)], DoPublish(e, 1));
    FoldFour(Step, s0, es[0], es[1], es[2], es[3]);
    FoldSnoc(Step, s0, es, last);
    FoldConcat(Step, s0, es + [last], [DoReset, OnAck(1), OnAck(2), DoReset]);
    FiveListed(s0, a, b, c, d, e);
    AfterFive(Run(s0, es + [last]));
  }

  lemma AfterFive(s: State)
    requires Sound(s) && s.max == 3 && |s.out| == 5
    requires s.out[0].content.mid == 1 && s.out[1].content.mid == 2 && s.out[2].content.qos == 2
    requires s.out[0].content.qos == s.out[1].content.qos == s.out[3].content.qos == 1
    ensures !Prefix(Run(s, [DoReset, OnAck(1), OnAck(2), DoReset]).out)
  {
    FoldFour(Step, s, DoReset, OnAck(1), OnAck(2), DoReset);
    TwoAcked(s);
    SecondActivated(Ack(Ack(Reset(s), 1), 2));
  }
}
