/** One pass of the retry check. */
module Retries {
  import opened Engine

  /** The messages of a list that are in flight and were stamped more than `retry` seconds ago. */
  function Overdues(ms: seq<Msg>, retry: nat, now: int): seq<Msg> {
    if ms == [] then []
    else
      var m := ms[|ms| - 1];
      Overdues(ms[..|ms| - 1], retry, now) + if m.state != Invalid && now - m.timestamp > retry then [m] else []
  }

  /** The packet repeats the message as its state asks for. */
  predicate RepeatedBy(m: Msg, p: Sent) {
    match m.state
    case Invalid => false
    case WaitPuback => p == SentPublish(m.content, true)
    case WaitPubrec => p == SentPublish(m.content, true)
    case WaitPubrel => p == SentPubrec(m.content.mid)
    case WaitPubcomp => p == SentPubrel(m.content.mid)
  }

  /** One packet for each message. */
  ghost predicate RepeatsAll(due: seq<Msg>, sends: seq<Sent>) {
    |sends| == |due| && forall k :: 0 <= k < |due| ==> RepeatedBy(due[k], sends[k])
  }

  /** A pass sends exactly one packet for each overdue message, in list order, of the type its
      state fixes, stamps it and sets its DUP flag, and leaves the others as they are. Module
      RetryTimes says the same by the times of the events. */
  lemma {:induction false} OnePacketEach(ms: seq<Msg>, retry: nat, now: int)
    ensures RepeatsAll(Overdues(ms, retry, now), RetrySends(ms, retry, now))
    ensures forall k :: 0 <= k < |ms| ==>
              RetryList(ms, retry, now)[k] ==
              if ms[k].state != Invalid && now - ms[k].timestamp > retry then ms[k].(timestamp := now, dup := true)
              else ms[k]
  {
    if ms == [] {
    } else {
      OnePacketEach(ms[..|ms| - 1], retry, now);
    }
  }

  /** An overdue message that is published is in it. */
  lemma {:induction false} RetriedAt(ms: seq<Msg>, retry: nat, now: int, k: nat)
    requires k < |ms| && Overdue(ms[k], retry, now) && (ms[k].state == WaitPuback || ms[k].state == WaitPubrec)
    ensures SentPublish(ms[k].content, true) in RetrySends(ms, retry, now)
  {
    var front := ms[..|ms| - 1];
    if k < |ms| - 1 {
      RetriedAt(front, retry, now, k);
    }
  }

  lemma {:induction false} NothingOverdue(ms: seq<Msg>, retry: nat, now: int)
    requires forall k :: 0 <= k < |ms| ==> !Overdue(ms[k], retry, now)
    ensures RetrySends(ms, retry, now) == [] && RetryList(ms, retry, now) == ms
  {
    if ms == [] {
    } else {
      NothingOverdue(ms[..|ms| - 1], retry, now);
    }
  }

  /** A second pass at the same time changes nothing and sends nothing. */
  lemma SecondPassIsIdle(s: State, now: Clock)
    ensures Retry(Retry(s, now), now) == Retry(s, now)
  {
    var s' := Retry(s, now);
    NothingOverdue(s'.out, s.retry, now.out);
    NothingOverdue(s'.inn, s.retry, now.inn);
  }

  /** The messages in flight of a list, in order. */
  function InFlight(ms: seq<Msg>): seq<Msg> {
    if ms == [] then []
    else InFlight(ms[..|ms| - 1]) + if ms[|ms| - 1].state != Invalid then [ms[|ms| - 1]] else []
  }

  lemma {:induction false} AllOverdue(ms: seq<Msg>, retry: nat, now: int)
    requires forall k :: 0 <= k < |ms| ==> ms[k].timestamp == 0
    requires retry < now
    ensures Overdues(ms, retry, now) == InFlight(ms)
  {
    if ms == [] {
    } else {
      AllOverdue(ms[..|ms| - 1], retry, now);
    }
  }

  lemma {:induction false} ResetTimes(ms: seq<Msg>, max: nat)
    ensures forall k :: 0 <= k < |ms| ==> ResetOut(ms, max)[k].timestamp == 0
  {
    if ms == [] {
    } else {
      ResetTimes(ms[..|ms| - 1], max);
    }
  }

  lemma AllRepeated(ms: seq<Msg>, retry: nat, now: int)
    requires forall k :: 0 <= k < |ms| ==> ms[k].timestamp == 0
    requires retry < now
    ensures RepeatsAll(InFlight(ms), RetrySends(ms, retry, now))
  {
    AllOverdue(ms, retry, now);
    OnePacketEach(ms, retry, now);
  }

  /** After a reset, a pass at any time beyond message_retry repeats every message in flight of
      both lists, each once, in order, by its state. */
  lemma ResetRetriesAll(s: State, now: Clock)
    requires s.retry < now.out && s.retry < now.inn
    ensures var (r, r') := (Reset(s), Retry(Reset(s), now));
            s.sent <= r'.sent && RepeatsAll(InFlight(r.out) + InFlight(r.inn), r'.sent[|s.sent|..])
  {
    var (outs, inns) := (ResetOut(s.out, s.max), ResetIn(s.inn));
    ResetTimes(s.out, s.max);
    AllRepeated(outs, s.retry, now.out);
    AllRepeated(inns, s.retry, now.inn);
    var sends := RetrySends(outs, s.retry, now.out) + RetrySends(inns, s.retry, now.inn);
    assert (s.sent + sends)[|s.sent|..] == sends;
  }
}
