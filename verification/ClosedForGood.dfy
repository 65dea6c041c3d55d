/** When the window is closed for good, through any number of resets: a waiting message of
    QoS 2 is not activated by a reset, wherever it stands, and limit - 1 of them are a wall
    that no message behind can pass. */
module ClosedForGood {
  import opened Codec
  import opened Engine
  import opened Window
  import opened Fate
  import opened ClosedWindow

  // ---------------------------------------------------------------- the wall

  /** The waiting QoS 2 messages in front of position k. */
  function Walls(ms: seq<Msg>, k: nat): nat
    requires k <= |ms|
  {
    Count(ms[..k], IsWaitingTwo)
  }

  /** A message waits behind n waiting QoS 2 messages. */
  predicate Walled(ms: seq<Msg>, n: nat) {
    exists j :: 0 <= j < |ms| && ms[j].state == Invalid && Walls(ms, j) >= n
  }

  /** The QoS 1 messages that fewer than n stand in front of have been transmitted. */
  predicate FrontKnown(ms: seq<Msg>, n: nat, known: seq<Sent>) {
    forall k :: 0 <= k < |ms| && ms[k].content.qos == 1 && Walls(ms, k) < n ==> InSent(known, ms[k].content)
  }

  /** Counting what implies what. */
  lemma {:induction false} CountMore(a: seq<Msg>, b: seq<Msg>, p: Msg -> bool, q: Msg -> bool)
    requires |a| == |b| && forall k :: 0 <= k < |a| && p(a[k]) ==> q(b[k])
    ensures Count(a, p) <= Count(b, q) <= |b|
  {
    if a == [] {
    } else {
      CountMore(a[..|a| - 1], b[..|b| - 1], p, q);
    }
  }

  lemma WallsMore(a: seq<Msg>, b: seq<Msg>, k: nat)
    requires |a| == |b| && k <= |a| && forall i :: 0 <= i < k && IsWaitingTwo(a[i]) ==> IsWaitingTwo(b[i])
    ensures Walls(a, k) <= Walls(b, k) <= k
  {
    CountMore(a[..k], b[..k], IsWaitingTwo, IsWaitingTwo);
  }

  lemma WallsGrow(ms: seq<Msg>, j: nat, k: nat)
    requires j <= k <= |ms|
    ensures Walls(ms, j) <= Walls(ms, k)
  {
    assert ms[..k] == ms[..j] + ms[j..k];
    CountConcat(ms[..j], ms[j..k], IsWaitingTwo);
  }

  lemma WallsSame(a: seq<Msg>, b: seq<Msg>)
    requires |a| == |b|
    requires forall k :: 0 <= k < |a| ==>
               a[k].content == b[k].content && (a[k].state == Invalid <==> b[k].state == Invalid)
    ensures forall n :: Walled(a, n) ==> Walled(b, n)
    ensures forall n, known :: FrontKnown(a, n, known) ==> FrontKnown(b, n, known)
  {
    forall k | 0 <= k <= |a| ensures Walls(a, k) == Walls(b, k) {
      WallsMore(a, b, k);
      WallsMore(b, a, k);
    }
  }

  lemma WalledAppend(ms: seq<Msg>, m: Msg, n: nat)
    requires Walled(ms, n)
    ensures Walled(ms + [m], n)
  {
    var j :| 0 <= j < |ms| && ms[j].state == Invalid && Walls(ms, j) >= n;
    assert (ms + [m])[j] == ms[j] && (ms + [m])[..j] == ms[..j];
  }

  lemma WallsAppend(ms: seq<Msg>, m: Msg, n: nat, known: seq<Sent>)
    requires Walled(ms, n) && FrontKnown(ms, n, known)
    ensures Walled(ms + [m], n) && FrontKnown(ms + [m], n, known)
  {
    var all := ms + [m];
    forall k | 0 <= k <= |ms| ensures Walls(all, k) == Walls(ms, k) { assert all[..k] == ms[..k]; }
    var j :| 0 <= j < |ms| && ms[j].state == Invalid && Walls(ms, j) >= n;
    assert all[j] == ms[j];
    WallsGrow(ms, j, |ms|);
  }

  /** Without a message that is no wall, those behind it have as many in front. */
  lemma WallsWithout(ms: seq<Msg>, i: nat, k: nat)
    requires i < |ms| && !IsWaitingTwo(ms[i]) && k < |ms| && k != i
    ensures var k' := if k < i then k else k - 1;
            Without(ms, i)[k'] == ms[k] && Walls(Without(ms, i), k') == Walls(ms, k)
  {
    if k < i {
      assert Without(ms, i)[..k] == ms[..k];
    } else {
      assert Without(ms, i)[..k - 1] == Without(ms[..k], i);
      CountWithout(ms[..k], i, IsWaitingTwo);
    }
  }

  lemma RemoveKeepsWall(ms: seq<Msg>, i: nat, n: nat)
    requires i < |ms| && ms[i].state != Invalid && Walled(ms, n)
    ensures Walled(Without(ms, i), n)
  {
    var j :| 0 <= j < |ms| && ms[j].state == Invalid && Walls(ms, j) >= n;
    WallsWithout(ms, i, j);
    assert 0 <= (if j < i then j else j - 1) < |Without(ms, i)|;
  }

  lemma RemoveAddsNoWall(ms: seq<Msg>, i: nat, n: nat)
    requires i < |ms| && ms[i].state != Invalid
    ensures Walled(Without(ms, i), n) ==> Walled(ms, n)
  {
    var rest := Without(ms, i);
    if j :| 0 <= j < |rest| && rest[j].state == Invalid && Walls(rest, j) >= n {
      var k := if j < i then j else j + 1;
      WallsWithout(ms, i, k);
      assert ms[k].state == Invalid;
    }
  }

  lemma RemoveKeepsFront(ms: seq<Msg>, i: nat, n: nat, known: seq<Sent>)
    requires i < |ms| && ms[i].state != Invalid && FrontKnown(ms, n, known)
    ensures FrontKnown(Without(ms, i), n, known)
  {
    var rest := Without(ms, i);
    forall j | 0 <= j < |rest| && rest[j].content.qos == 1 && Walls(rest, j) < n
      ensures InSent(known, rest[j].content)
    {
      var k := if j < i then j else j + 1;
      WallsWithout(ms, i, k);
      assert InSent(known, ms[k].content);
    }
  }

  // ---------------------------------------------------------------- behind the wall

  /** The window is shut, nothing in front of the wall is new, and there is a wall. */
  ghost predicate ForGood(s: State, known: seq<Sent>) {
    Shut(s, known) && Walled(s.out, s.max - 1) && FrontKnown(s.out, s.max - 1, known)
  }

  /** What a reset does to a message: a wall stays one, and the messages from the end of the
      window on wait. */
  lemma ResetAt(s: State)
    requires AllQos(s.out) && s.max > 0
    ensures var rs := Reset(s).out;
            && |rs| == |s.out| && AllQos(rs)
            && forall k :: 0 <= k < |rs| ==>
                 && rs[k].content == s.out[k].content
                 && (k + 1 >= s.max ==> rs[k].state == Invalid)
                 && (k + 1 < s.max ==> rs[k].state == if rs[k].content.qos == 1 then WaitPuback else s.out[k].state)
  {
    forall k | 0 <= k < |s.out| ensures Reset(s).out[k] == ResetMsg(s.out[k], k + 1, s.max) {
      ResetOutAt(s.out, s.max, k);
    }
  }

  lemma WallsAfterReset(s: State)
    requires AllQos(s.out) && s.max > 0
    ensures forall k :: 0 <= k <= |s.out| ==> Walls(s.out, k) <= Walls(Reset(s).out, k) && Walls(s.out, k) <= k
  {
    var rs := Reset(s).out;
    ResetAt(s);
    forall k | 0 <= k <= |rs| ensures Walls(s.out, k) <= Walls(rs, k) && Walls(s.out, k) <= k {
      WallsMore(s.out, rs, k);
      WallsMore(s.out, s.out, k);
    }
  }

  lemma WalledAfterReset(s: State)
    requires AllQos(s.out) && s.max > 0 && Walled(s.out, s.max - 1)
    ensures Walled(Reset(s).out, s.max - 1)
  {
    var rs := Reset(s).out;
    ResetAt(s);
    WallsAfterReset(s);
    var j :| 0 <= j < |s.out| && s.out[j].state == Invalid && Walls(s.out, j) >= s.max - 1;
    assert rs[j].state == Invalid && Walls(rs, j) >= s.max - 1;
  }

  lemma ResetWalls(s: State, known: seq<Sent>)
    requires AllQos(s.out) && s.max > 0
    requires Walled(s.out, s.max - 1) && FrontKnown(s.out, s.max - 1, known)
    ensures var rs := Reset(s).out; Walled(rs, s.max - 1) && FrontKnown(rs, s.max - 1, known)
  {
    ResetAt(s);
    WallsAfterReset(s);
    WalledAfterReset(s);
  }

  lemma WalledIsWaiting(ms: seq<Msg>, n: nat)
    requires AllQos(ms) && Walled(ms, n)
    ensures Invalids(ms) > n
  {
    var j :| 0 <= j < |ms| && ms[j].state == Invalid && Walls(ms, j) >= n;
    CountSplit(ms, j, IsInvalid);
    CountMore(ms[..j], ms[..j], IsWaitingTwo, IsInvalid);
  }

  lemma ResetSent(s: State, known: seq<Sent>)
    requires AllQos(s.out) && s.max > 0 && ActiveSent(s.out, known) && FrontKnown(s.out, s.max - 1, known)
    ensures ActiveSent(Reset(s).out, known)
  {
    var rs := Reset(s).out;
    ResetAt(s);
    forall k | 0 <= k < |rs| && Publishing(rs[k]) ensures InSent(known, rs[k].content) {
      WallsMore(s.out, s.out, k);
    }
  }

  lemma ForGoodReset(s: State, known: seq<Sent>)
    requires ForGood(s, known)
    ensures ForGood(Reset(s), known)
  {
    ResetMoves(s);
    ResetWalls(s, known);
    ResetSent(s, known);
    StepInnWaits(s, DoReset);
    WalledIsWaiting(Reset(s).out, s.max - 1);
  }

  lemma ForGoodAck(s: State, mid: uint16, known: seq<Sent>)
    requires ForGood(s, known) && Answered(s, OnAck(mid))
    ensures ForGood(Ack(s, mid), known)
  {
    var i := Find(s.out, mid);
    ShutAck(s, mid, known);
    AckMoves(s, mid);
    if i < |s.out| {
      RemoveKeepsWall(s.out, i, s.max - 1);
      RemoveKeepsFront(s.out, i, s.max - 1, known);
    }
  }

  lemma ForGoodPublish(s: State, c: Content, now: int, known: seq<Sent>)
    requires ForGood(s, known)
    ensures ForGood(Publish(s, c, now), known)
  {
    ShutPublish(s, c, now, known);
    PublishMoves(s, c, now);
    WallsAppend(s.out, Msg(c.(mid := NextMid(s.lastMid)), Invalid, false, now), s.max - 1, known);
  }

  lemma ForGoodStep(s: State, e: Event, known: seq<Sent>)
    requires ForGood(s, known) && Answered(s, e)
    ensures ForGood(Step(s, e), known)
  {
    if e == DoReset {
      ForGoodReset(s, known);
    } else {
      ShutStep(s, e, known);
      StepMoves(s, e);
      match e
      case DoPublish(c, now) => ForGoodPublish(s, c, now, known);
      case OnAck(mid) => ForGoodAck(s, mid, known);
      case OnPubrec(mid, now) => WallsSame(s.out, Pubrec(s, mid, now).out);
      case DoRetry(now) => WallsSame(s.out, Retry(s, now).out);
      case _ => ShutOther(s, e, known);
    }
  }

  lemma {:induction false} ForGoodRun(s: State, es: seq<Event>, known: seq<Sent>)
    requires ForGood(s, known) && AnswersActive(s, es)
    ensures ForGood(Run(s, es), known)
  {
    if es == [] {
    } else {
      var (front, e) := (es[..|es| - 1], es[|es| - 1]);
      ForGoodRun(s, front, known);
      ForGoodStep(Run(s, front), e, known);
    }
  }

  // ---------------------------------------------------------------- the way out

  predicate AllWait(ms: seq<Msg>) {
    forall k :: 0 <= k < |ms| ==> ms[k].state == Invalid
  }

  lemma ResetSound(s: State)
    requires Sound(s) && DistinctIds(s.out)
    ensures Sound(Reset(s)) && Reset(s).max == s.max && DistinctIds(Reset(s).out)
  {
    ResetMoves(s);
  }

  lemma RevealsAfterReset(s: State, es: seq<Event>, known: seq<Sent>)
    requires Reveals(Reset(s), es, known)
    ensures Reveals(s, [DoReset] + es, known)
  {
    RevealsLater(s, DoReset, es, known);
  }

  /** When the first k messages wait, a reset neither adds to the walls in front of it nor takes
      from them. */
  lemma WaitingWalls(s: State, k: nat)
    requires AllQos(s.out) && s.max > 0 && k <= |s.out| && AllWait(s.out[..k])
    ensures Walls(Reset(s).out, k) == Walls(s.out, k)
  {
    var rs := Reset(s).out;
    ResetAt(s);
    assert forall i :: 0 <= i < k ==> s.out[i] == s.out[..k][i];
    WallsMore(s.out, rs, k);
    WallsMore(rs, s.out, k);
  }

  lemma {:induction false} CountFull(ms: seq<Msg>, p: Msg -> bool)
    requires forall k :: 0 <= k < |ms| ==> p(ms[k])
    ensures Count(ms, p) == |ms|
  {
    if ms == [] {
    } else {
      CountFull(ms[..|ms| - 1], p);
    }
  }

  /** Fewer walls than positions: one of the waiting messages has QoS 1. */
  lemma NotAllWalls(ms: seq<Msg>, n: nat) returns (k: nat)
    requires AllQos(ms) && n <= |ms| && AllWait(ms[..n]) && Walls(ms, n) < n
    ensures k < n && ms[k].content.qos == 1
  {
    var front := ms[..n];
    if forall i :: 0 <= i < n ==> IsWaitingTwo(front[i]) {
      CountFull(front, IsWaitingTwo);
    }
    k :| 0 <= k < n && !IsWaitingTwo(front[k]);
    assert front[k] == ms[k];
  }

  /** An acknowledgement in front of a message moves it up. */
  lemma Forward(s: State, k: nat, v: nat)
    requires Sound(s) && DistinctIds(s.out) && s.max > 0 && Drift(s) >= s.max
    requires k < v < |s.out| && s.out[k].state != Invalid
    ensures var (e, s') := (OnAck(s.out[k].content.mid), Ack(s, s.out[k].content.mid));
            && Answered(s, e) && Sound(s') && DistinctIds(s'.out) && s'.max == s.max && |s'.out| == |s.out| - 1
            && s'.out[v - 1] == s.out[v] && Walls(s'.out, v - 1) == Walls(s.out, v)
  {
    AckActive(s, k);
    WallsWithout(s.out, k, v);
  }

  /** A message never transmitted that fewer than limit - 1 walls stand in front of can be
      brought to the front and activated by a reset. */
  lemma {:induction false} BringOut(s: State, v: nat, known: seq<Sent>) returns (es: seq<Event>)
    requires Sound(s) && DistinctIds(s.out) && s.max > 0 && v < |s.out|
    requires s.out[v].content.qos == 1 && Walls(s.out, v) < s.max - 1 && !InSent(known, s.out[v].content)
    ensures Reveals(s, es, known)
    decreases v, if AllWait(s.out[..v]) then 2 else 0
  {
    if Drift(s) < s.max {
      es := CanStart(s, known);
    } else if Publishing(s.out[v]) {
      var e := RetryReveals(s, v, known);
      es := [e];
    } else if k :| 0 <= k < v && s.out[k].state != Invalid {
      var e := OnAck(s.out[k].content.mid);
      Forward(s, k, v);
      var rest := BringOut(Step(s, e), v - 1, known);
      RevealsLater(s, e, rest, known);
      es := [e] + rest;
    } else {
      var rest := BringOutReset(s, v, known);
      RevealsAfterReset(s, rest, known);
      es := [DoReset] + rest;
    }
  }

  /** The reset activates the message, or one in front of it. */
  lemma {:induction false} BringOutReset(s: State, v: nat, known: seq<Sent>) returns (es: seq<Event>)
    requires Sound(s) && DistinctIds(s.out) && s.max > 0 && v < |s.out| && AllWait(s.out[..v])
    requires s.out[v].content.qos == 1 && Walls(s.out, v) < s.max - 1 && !InSent(known, s.out[v].content)
    ensures Reveals(Reset(s), es, known)
    decreases v, 1
  {
    var r := Reset(s);
    ResetSound(s);
    ResetAt(s);
    WaitingWalls(s, v);
    if v < s.max - 1 {
      var e := RetryReveals(r, v, known);
      es := [e];
    } else {
      var n := s.max - 1;
      assert s.out[..v][..n] == s.out[..n];
      WallsGrow(s.out, n, v);
      var k := NotAllWalls(s.out, n);
      assert r.out[..v][k].state == WaitPuback;
      es := BringOut(r, v, known);
    }
  }

  lemma NoWallReset(s: State)
    requires AllQos(s.out) && s.max > 0 && AllWait(s.out)
    ensures Walled(Reset(s).out, s.max - 1) ==> Walled(s.out, s.max - 1)
  {
    var rs := Reset(s).out;
    if j :| 0 <= j < |rs| && rs[j].state == Invalid && Walls(rs, j) >= s.max - 1 {
      WaitingWalls(s, j);
      assert s.out[j].state == Invalid;
    }
  }

  /** A reset that leaves every message waiting, and no room, has found a wall. */
  lemma NothingActivated(s: State)
    requires Sound(s) && s.max > 0 && AllWait(s.out)
    ensures Active(Reset(s).out) == 0 && Drift(Reset(s)) >= s.max ==> Walled(s.out, s.max - 1)
  {
    var (rs, n) := (Reset(s).out, s.max - 1);
    ResetMoves(s);
    ResetAt(s);
    ActiveAndInvalid(rs);
    CountZero(rs, IsActive);
    if Active(rs) == 0 && |rs| >= s.max {
      assert forall k :: 0 <= k < n ==> !IsActive(rs[k]) && IsWaitingTwo(s.out[k]);
      CountFull(s.out[..n], IsWaitingTwo);
      assert s.out[n].state == Invalid;
    }
  }

  /** Without a wall the list can be worked off, reset by reset, until there is room. */
  lemma {:induction false} WorkOff(s: State, known: seq<Sent>) returns (es: seq<Event>)
    requires Sound(s) && DistinctIds(s.out) && s.max > 0 && !Walled(s.out, s.max - 1)
    ensures Reveals(s, es, known)
    decreases |s.out|, if Active(s.out) == 0 then 2 else 0
  {
    CountZero(s.out, IsActive);
    if Drift(s) < s.max {
      es := CanStart(s, known);
    } else if k :| 0 <= k < |s.out| && IsActive(s.out[k]) {
      var e := OnAck(s.out[k].content.mid);
      AckActive(s, k);
      RemoveAddsNoWall(s.out, k, s.max - 1);
      var rest := WorkOff(Step(s, e), known);
      RevealsLater(s, e, rest, known);
      es := [e] + rest;
    } else {
      var rest := WorkOffReset(s, known);
      RevealsAfterReset(s, rest, known);
      es := [DoReset] + rest;
    }
  }

  /** The reset makes room or activates a message. */
  lemma {:induction false} WorkOffReset(s: State, known: seq<Sent>) returns (es: seq<Event>)
    requires Sound(s) && DistinctIds(s.out) && s.max > 0 && !Walled(s.out, s.max - 1) && AllWait(s.out)
    ensures Reveals(Reset(s), es, known)
    decreases |s.out|, 1
  {
    ResetSound(s);
    NoWallReset(s);
    if Drift(Reset(s)) < s.max {
      es := CanStart(Reset(s), known);
    } else {
      NothingActivated(s);
      es := WorkOff(Reset(s), known);
    }
  }

  // ---------------------------------------------------------------- exactly

  /** No message of QoS 1 or 2 is ever transmitted for the first time again, through any number
      of resets, whatever is published, and whichever active messages are answered. */
  ghost predicate NeverAgain(s: State) {
    forall es :: AnswersActive(s, es) ==> OnlyKnown(s.sent, Run(s, es).sent)
  }

  /** The window is closed for good exactly when it is closed until the next reset, a message
      waits behind limit - 1 waiting messages of QoS 2, and all messages of QoS 1 in front of
      the last of these have been transmitted. */
  lemma ClosedForGoodExactly(s: State)
    requires Sound(s) && DistinctIds(s.out) && InnWaits(s) && s.max > 0
    ensures NeverAgain(s) <==>
              && Drift(s) >= s.max && ActiveSent(s.out, s.sent)
              && Walled(s.out, s.max - 1) && FrontKnown(s.out, s.max - 1, s.sent)
  {
    if Drift(s) < s.max {
      var es := CanStart(s, s.sent);
      assert Reveals(s, es, s.sent);
    } else if !Walled(s.out, s.max - 1) {
      var es := WorkOff(s, s.sent);
      assert Reveals(s, es, s.sent);
    } else if !FrontKnown(s.out, s.max - 1, s.sent) {
      var v :| 0 <= v < |s.out| && s.out[v].content.qos == 1 && Walls(s.out, v) < s.max - 1
               && !InSent(s.sent, s.out[v].content);
      var es := BringOut(s, v, s.sent);
      assert Reveals(s, es, s.sent);
    } else if !ActiveSent(s.out, s.sent) {
      var k :| 0 <= k < |s.out| && Publishing(s.out[k]) && !InSent(s.sent, s.out[k].content);
      var e := RetryReveals(s, k, s.sent);
      assert Reveals(s, [e], s.sent);
    } else {
      assert OnlyKnown(s.sent, s.sent);
      forall es | AnswersActive(s, es) ensures OnlyKnown(s.sent, Run(s, es).sent) { ForGoodRun(s, es, s.sent); }
    }
  }

  /** So with QoS 1 only, and a limit above 1, some run always comes out of it. */
  lemma Qos1ComesOut(s: State)
    requires Sound(s) && DistinctIds(s.out) && InnWaits(s) && s.max > 1 && AllQos1(s.out)
    ensures !NeverAgain(s)
  {
    ClosedForGoodExactly(s);
    if Walled(s.out, s.max - 1) {
      var j :| 0 <= j < |s.out| && s.out[j].state == Invalid && Walls(s.out, j) >= s.max - 1;
      CountZero(s.out[..j], IsWaitingTwo);
    }
  }
}
