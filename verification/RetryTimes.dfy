/** When the retry check repeats a packet, told by the events of a run and their times, and not by
    the fields in which the client keeps them. */
module RetryTimes {
  import opened Codec
  import opened Engine
  import opened Window
  import opened ClosedWindow
  import opened Qos2Receiver

  // ---------------------------------------------------------------- what the events say

  /** Of a listed outgoing message: the time of its publish, its last PUBREC, or the last pass that
      repeated it, whichever was last, and 0 behind a reset; and whether its PUBREC has come. */
  datatype Note = Note(time: int, released: bool)

  /** A pass at `now` repeats a message in flight when more than `retry` seconds have passed. */
  predicate Waited(m: Msg, since: int, retry: nat, now: int) {
    m.state != Invalid && now - since > retry
  }

  /** A reset takes the release back but from QoS 2 messages in front of the window's end. */
  predicate StaysReleased(m: Msg, k: nat, max: nat) {
    m.content.qos == 2 && (max == 0 || k + 1 < max)
  }

  function Passed(ns: seq<Note>, ms: seq<Msg>, retry: nat, now: int): (rs: seq<Note>)
    requires |ns| == |ms|
    ensures |rs| == |ns|
  {
    seq(|ns|, k requires 0 <= k < |ns| =>
      if Waited(ms[k], ns[k].time, retry, now) then ns[k].(time := now) else ns[k])
  }

  function ResetNotes(ns: seq<Note>, ms: seq<Msg>, max: nat): (rs: seq<Note>)
    requires |ns| == |ms|
    ensures |rs| == |ns|
  {
    seq(|ns|, k requires 0 <= k < |ns| => Note(0, ns[k].released && StaysReleased(ms[k], k, max)))
  }

  function NextNotes(ns: seq<Note>, s: State, e: Event): seq<Note>
    requires |ns| == |s.out|
  {
    match e
    case DoPublish(c, now) => if c.qos > 0 then ns + [Note(now, false)] else ns
    case OnAck(mid) => if Find(s.out, mid) < |s.out| then Without(ns, Find(s.out, mid)) else ns
    case OnPubrec(mid, now) => if Find(s.out, mid) < |s.out| then ns[Find(s.out, mid) := Note(now, true)] else ns
    case DoRetry(at) => Passed(ns, s.out, s.retry, at.out)
    case DoReset => ResetNotes(ns, s.out, s.max)
    case _ => ns
  }

  /** Of a listed incoming message: the time of its arrival or of the last pass that repeated its
      PUBREC, and 0 behind a reset. */
  function NextTimes(ts: seq<int>, s: State, e: Event): seq<int>
    requires |ts| == |s.inn|
  {
    match e
    case OnPublish(c, _, now) => if c.qos == 2 then ts + [now] else ts
    case OnPubrel(mid, flagsOk) =>
      if flagsOk && Find(s.inn, mid) < |s.inn| then Without(ts, Find(s.inn, mid)) else ts
    case DoRetry(at) =>
      seq(|ts|, k requires 0 <= k < |ts| => if at.inn - ts[k] > s.retry then at.inn else ts[k])
    case DoReset => seq(|ts|, _ => 0)
    case _ => ts
  }

  function Notes(s0: State, es: seq<Event>): seq<Note> {
    if es == [] then []
    else
      var (front, ns) := (es[..|es| - 1], Notes(s0, es[..|es| - 1]));
      if |ns| == |Run(s0, front).out| then NextNotes(ns, Run(s0, front), es[|es| - 1]) else ns
  }

  function Times(s0: State, es: seq<Event>): seq<int> {
    if es == [] then []
    else
      var (front, ts) := (es[..|es| - 1], Times(s0, es[..|es| - 1]));
      if |ts| == |Run(s0, front).inn| then NextTimes(ts, Run(s0, front), es[|es| - 1]) else ts
  }

  // ---------------------------------------------------------------- the fields agree

  ghost predicate Noted(s: State, ns: seq<Note>) {
    && |ns| == |s.out|
    && forall k :: 0 <= k < |ns| ==>
         && s.out[k].timestamp == ns[k].time && s.out[k].state != WaitPubrel
         && (s.out[k].state == WaitPubcomp <==> ns[k].released)
  }

  ghost predicate Timed(s: State, ts: seq<int>) {
    |ts| == |s.inn| && forall k :: 0 <= k < |ts| ==> s.inn[k].timestamp == ts[k]
  }

  /** Promotion starts messages that wait and leaves their times alone. */
  lemma {:induction false} PromoteTimes(s: State, k: nat)
    ensures var out := Promote(s, k).0.out;
            |out| == |s.out| && forall i :: 0 <= i < |out| ==>
              && out[i].timestamp == s.out[i].timestamp
              && (out[i].state == s.out[i].state
                  || (s.out[i].state == Invalid && (out[i].state == WaitPuback || out[i].state == WaitPubrec)))
    decreases |s.out| - k
  {
    if k < |s.out| && HasRoom(s) {
      if s.out[k].state == Invalid && s.out[k].content.qos > 0 {
        if SendOk(s) { PromoteTimes(Start(s, k), k + 1); }
      } else {
        PromoteTimes(s, k + 1);
      }
    }
  }

  lemma UnlinkNoted(s: State, ns: seq<Note>, i: nat)
    requires Noted(s, ns) && i < |s.out|
    ensures Noted(Unlink(s, i), Without(ns, i))
  {
    var out := Unlink(s, i).out;
    assert forall k :: 0 <= k < |out| ==> out[k] == s.out[if k < i then k else k + 1];
  }

  lemma PromoteNoted(s: State, ns: seq<Note>)
    requires Noted(s, ns)
    ensures Noted(Promote(s, 0).0, ns)
  {
    PromoteTimes(s, 0);
  }

  lemma AckNoted(s: State, ns: seq<Note>, mid: uint16)
    requires Noted(s, ns)
    ensures Noted(Ack(s, mid), NextNotes(ns, s, OnAck(mid)))
  {
    var i := Find(s.out, mid);
    if i < |s.out| {
      UnlinkNoted(s, ns, i);
      PromoteNoted(Unlink(s, i), Without(ns, i));
      assert Ack(s, mid).out == Promote(Unlink(s, i), 0).0.out;
    }
  }

  lemma ResetNoted(s: State, ns: seq<Note>)
    requires Noted(s, ns) && Sound(s)
    ensures Noted(Reset(s), ResetNotes(ns, s.out, s.max))
  {
    forall k | 0 <= k < |s.out| ensures Reset(s).out[k] == ResetMsg(s.out[k], k + 1, s.max) {
      ResetOutAt(s.out, s.max, k);
    }
  }

  lemma StepNoted(s: State, ns: seq<Note>, e: Event)
    requires Noted(s, ns) && Sound(s)
    ensures Noted(Step(s, e), NextNotes(ns, s, e))
  {
    match e
    case OnAck(mid) => AckNoted(s, ns, mid);
    case DoReset => ResetNoted(s, ns);
    case _ =>
  }

  lemma StepTimed(s: State, ts: seq<int>, e: Event)
    requires Timed(s, ts) && Held(s)
    ensures Timed(Step(s, e), NextTimes(ts, s, e))
  {
    match e
    case OnAck(mid) => AckKeepsInn(s, mid);
    case _ =>
  }

  lemma {:induction false} RunNoted(max: nat, retry: nat, script: seq<bool>, es: seq<Event>)
    ensures var (s0, s) := (Initial(max, retry, script), Run(Initial(max, retry, script), es));
            Noted(s, Notes(s0, es)) && Timed(s, Times(s0, es)) && Sound(s) && s.retry == retry && Held(s)
  {
    if es == [] {
    } else {
      var (s0, front, e) := (Initial(max, retry, script), es[..|es| - 1], es[|es| - 1]);
      RunNoted(max, retry, script, front);
      StepMoves(Run(s0, front), e);
      StepNoted(Run(s0, front), Notes(s0, front), e);
      StepTimed(Run(s0, front), Times(s0, front), e);
      StepHeld(Run(s0, front), e);
    }
  }

  // ---------------------------------------------------------------- what a pass sends

  /** The message is published again, or released again once its PUBREC has come. */
  function Repeat(m: Msg, n: Note): Sent {
    if n.released then SentPubrel(m.content.mid) else SentPublish(m.content, true)
  }

  function LateOut(ms: seq<Msg>, ns: seq<Note>, retry: nat, now: int): seq<Sent>
    requires |ns| == |ms|
  {
    if ms == [] then []
    else
      var last := |ms| - 1;
      LateOut(ms[..last], ns[..last], retry, now)
      + if Waited(ms[last], ns[last].time, retry, now) then [Repeat(ms[last], ns[last])] else []
  }

  function LateIn(ms: seq<Msg>, ts: seq<int>, retry: nat, now: int): seq<Sent>
    requires |ts| == |ms|
  {
    if ms == [] then []
    else
      var last := |ms| - 1;
      LateIn(ms[..last], ts[..last], retry, now)
      + if now - ts[last] > retry then [SentPubrec(ms[last].content.mid)] else []
  }

  lemma {:induction false} SendsLateOut(ms: seq<Msg>, ns: seq<Note>, retry: nat, now: int)
    requires |ns| == |ms|
    requires forall k :: 0 <= k < |ns| ==>
               && ms[k].timestamp == ns[k].time && ms[k].state != WaitPubrel
               && (ms[k].state == WaitPubcomp <==> ns[k].released)
    ensures RetrySends(ms, retry, now) == LateOut(ms, ns, retry, now)
  {
    if ms == [] {
    } else {
      SendsLateOut(ms[..|ms| - 1], ns[..|ms| - 1], retry, now);
    }
  }

  lemma {:induction false} SendsLateIn(ms: seq<Msg>, ts: seq<int>, retry: nat, now: int)
    requires |ts| == |ms|
    requires forall k :: 0 <= k < |ts| ==> ms[k].timestamp == ts[k] && ms[k].state == WaitPubrel
    ensures RetrySends(ms, retry, now) == LateIn(ms, ts, retry, now)
  {
    if ms == [] {
    } else {
      SendsLateIn(ms[..|ms| - 1], ts[..|ms| - 1], retry, now);
    }
  }

  /** Over every run, a pass behind it repeats exactly the messages in flight for which more than
      message_retry seconds have passed since the event that stamped them last, in list order:
      with a PUBLISH, DUP set, or a PUBREL behind their PUBREC; and the incoming ones with a
      PUBREC. */
  lemma PassWaits(max: nat, retry: nat, script: seq<bool>, es: seq<Event>, at: Clock)
    ensures var (s0, s) := (Initial(max, retry, script), Run(Initial(max, retry, script), es));
            && |Notes(s0, es)| == |s.out| && |Times(s0, es)| == |s.inn|
            && Run(s0, es + [DoRetry(at)]).sent
            == s.sent + (LateOut(s.out, Notes(s0, es), retry, at.out) + LateIn(s.inn, Times(s0, es), retry, at.inn))
  {
    var (s0, s) := (Initial(max, retry, script), Run(Initial(max, retry, script), es));
    RunNoted(max, retry, script, es);
    RunSnoc(s0, es, DoRetry(at));
    SendsLateOut(s.out, Notes(s0, es), retry, at.out);
    SendsLateIn(s.inn, Times(s0, es), retry, at.inn);
  }

  /** The packets that repeat an outgoing message. */
  predicate RepeatsId(p: Sent, mid: uint16) {
    (p.SentPublish? && p.dup && p.content.mid == mid) || p == SentPubrel(mid)
  }

  lemma {:induction false} LateExactly(ms: seq<Msg>, ns: seq<Note>, retry: nat, now: int, k: nat)
    requires |ns| == |ms| && k < |ms| && DistinctIds(ms)
    ensures (exists p :: p in LateOut(ms, ns, retry, now) && RepeatsId(p, ms[k].content.mid))
        <==> Waited(ms[k], ns[k].time, retry, now)
    decreases |ms|
  {
    var last := |ms| - 1;
    var (front, mid) := (LateOut(ms[..last], ns[..last], retry, now), ms[k].content.mid);
    if k < last {
      LateExactly(ms[..last], ns[..last], retry, now, k);
      assert !RepeatsId(Repeat(ms[last], ns[last]), mid);
      assert forall p :: p in LateOut(ms, ns, retry, now) && RepeatsId(p, mid) ==> p in front;
      assert forall p :: p in front ==> p in LateOut(ms, ns, retry, now);
    } else {
      OthersLate(ms[..last], ns[..last], retry, now, mid);
      assert RepeatsId(Repeat(ms[last], ns[last]), mid);
      if Waited(ms[last], ns[last].time, retry, now) {
        assert Repeat(ms[last], ns[last]) in LateOut(ms, ns, retry, now);
      }
    }
  }

  lemma {:induction false} OthersLate(ms: seq<Msg>, ns: seq<Note>, retry: nat, now: int, mid: uint16)
    requires |ns| == |ms| && forall k :: 0 <= k < |ms| ==> ms[k].content.mid != mid
    ensures forall p :: p in LateOut(ms, ns, retry, now) ==> !RepeatsId(p, mid)
  {
    if ms == [] {
    } else {
      OthersLate(ms[..|ms| - 1], ns[..|ms| - 1], retry, now, mid);
    }
  }

  lemma NoneInn(ms: seq<Msg>, ts: seq<int>, retry: nat, now: int, mid: uint16)
    requires |ts| == |ms|
    ensures forall p :: p in LateIn(ms, ts, retry, now) ==> !RepeatsId(p, mid)
  {
    if ms != [] { NoneInn(ms[..|ms| - 1], ts[..|ms| - 1], retry, now, mid); }
  }

  /** So with distinct ids listed, a pass sends for a message exactly when it is in flight and
      these seconds have passed. */
  lemma RepeatedExactly(max: nat, retry: nat, script: seq<bool>, es: seq<Event>, at: Clock, k: nat)
    requires var s := Run(Initial(max, retry, script), es); DistinctIds(s.out) && k < |s.out|
    ensures var (s0, s) := (Initial(max, retry, script), Run(Initial(max, retry, script), es));
            var s' := Run(s0, es + [DoRetry(at)]);
            && s.sent <= s'.sent && |Notes(s0, es)| == |s.out|
            && ((exists p :: p in s'.sent[|s.sent|..] && RepeatsId(p, s.out[k].content.mid))
                <==> s.out[k].state != Invalid && at.out - Notes(s0, es)[k].time > retry)
  {
    var (s0, s) := (Initial(max, retry, script), Run(Initial(max, retry, script), es));
    PassWaits(max, retry, script, es, at);
    var (a, b) := (LateOut(s.out, Notes(s0, es), retry, at.out), LateIn(s.inn, Times(s0, es), retry, at.inn));
    assert (s.sent + (a + b))[|s.sent|..] == a + b;
    LateExactly(s.out, Notes(s0, es), retry, at.out, k);
    NoneInn(s.inn, Times(s0, es), retry, at.inn, s.out[k].content.mid);
    assert forall p :: p in a + b <==> p in a || p in b;
  }
}
