/** The keepalive check and the delay between reconnects. The clock is an input, in whole
    seconds, and so is what becomes of a PINGREQ. */
module Timers {
  import opened Codec
  import opened Runs

  // ---------------------------------------------------------------- keepalive

  datatype ConnState = New | Connected | Disconnecting

  /** The return codes of mosquitto_loop_misc. */
  datatype Code = Success | NoConn | ConnLost

  /** What becomes of a PINGREQ: it is queued, and the send function says so; it is queued, but
      writing it failed and the send function reports that; or there is none. */
  datatype Ping = Queued | Stuck | NotQueued

  /** The fields the check reads and writes. The last four are logs: the PINGREQs queued since
      the last PINGRESP or connect, those of them that are stuck, the arguments of the calls of
      on_disconnect, and the times of the retry checks. */
  datatype Link = Link(
    open: bool,
    state: ConnState,
    keepalive: uint16,
    lastOut: int,
    lastIn: int,
    pingT: int,             // when the ping waited for was sent; 0 if none is
    lastRetry: int,
    pings: nat,
    stuck: nat,
    disconnects: seq<int>,
    checks: seq<int>)

  /** One call of mosquitto_loop_misc: the clock readings of the keepalive check, of the ping
      and of the rest; what becomes of the ping, if there is one; and when the retry check wrote
      a packet last, if it did. */
  datatype Call = Call(now: int, pingNow: int, later: int, ping: Ping, retried: Option<int>)

  predicate Ordered(c: Call) {
    0 < c.now <= c.pingNow <= c.later && (c.retried.Some? ==> c.now <= c.retried.value <= c.later)
  }

  function Close(l: Link): Link {
    l.(open := false, disconnects := l.disconnects + [if l.state == Disconnecting then 0 else 1])
  }

  predicate Idle(l: Link, now: int) {
    l.keepalive > 0 && l.open && (now - l.lastOut >= l.keepalive || now - l.lastIn >= l.keepalive)
  }

  function Pinged(l: Link, c: Call): Link {
    SentPing(l, c).(lastIn := c.now, lastOut := c.now)
  }

  /** send_mosq.c, _mosquitto_send_pingreq. */
  function SentPing(l: Link, c: Call): Link {
    match c.ping
    case Queued => l.(pingT := c.pingNow, pings := l.pings + 1)
    case Stuck => l.(pings := l.pings + 1, stuck := l.stuck + 1)
    case NotQueued => l
  }

  /** util_mosq.c, _mosquitto_check_keepalive. */
  function Checked(l: Link, c: Call): Link {
    if !Idle(l, c.now) then l
    else if l.state == Connected && l.pingT == 0 then Pinged(l, c)
    else Close(l)
  }

  function Retried(l: Link, c: Call): Link {
    if l.lastRetry + 1 >= c.later then l
    else
      (if c.retried.Some? then l.(lastOut := c.retried.value) else l)
      .(lastRetry := c.later, checks := l.checks + [c.later])
  }

  predicate PingLate(l: Link, c: Call) {
    l.pingT != 0 && c.later - l.pingT >= l.keepalive
  }

  /** mosquitto.c, mosquitto_loop_misc. */
  function Misc(l: Link, c: Call): Link {
    if !l.open then l
    else
      var l1 := Retried(Checked(l, c), c);
      if PingLate(l1, c) then Close(l1) else l1
  }

  /** After a call either the connection is closed, or the ages of the last messages and of the
      ping waited for are all below the keepalive time. */
  lemma KeptAlive(l: Link, c: Call)
    requires l.keepalive > 0 && Ordered(c)
    ensures var l' := Misc(l, c);
            l'.open ==> c.now - l'.lastOut < l.keepalive && c.now - l'.lastIn < l.keepalive
                        && (l'.pingT != 0 ==> c.later - l'.pingT < l.keepalive)
  {
    var l1 := Checked(l, c);
    assert l.open && l1.open ==> c.now - l1.lastOut < l.keepalive && c.now - l1.lastIn < l.keepalive;
  }

  /** The calls that close the connection: it was idle for the keepalive time and no ping is due,
      since one is outstanding or the client is not connected; or the ping waited for, which may
      be the one just queued, was sent the keepalive time ago. */
  lemma ClosesExactly(l: Link, c: Call)
    requires l.open
    ensures var k := l.keepalive;
            var idle := k > 0 && (c.now - l.lastOut >= k || c.now - l.lastIn >= k);
            var asks := idle && l.state == Connected && l.pingT == 0;
            !Misc(l, c).open <==>
              || (idle && !asks)
              || (asks && c.ping == Queued && c.pingNow != 0 && c.later - c.pingNow >= k)
              || (l.pingT != 0 && c.later - l.pingT >= k)
  {
    var l1 := Checked(l, c);
    assert Retried(l1, c).pingT == l1.pingT && Retried(l1, c).open == l1.open
        && Retried(l1, c).keepalive == l.keepalive;
  }

  /** The calls that queue a ping: the link is connected, no ping is outstanding, and nothing was
      sent or nothing received for the keepalive time. */
  lemma PingsExactly(l: Link, c: Call)
    ensures var k := l.keepalive;
            var asks := && l.open && l.state == Connected && l.pingT == 0
                        && k > 0 && (c.now >= l.lastOut + k || c.now >= l.lastIn + k);
            Misc(l, c).pings == l.pings + if asks && c.ping != NotQueued then 1 else 0
  {
    var l1 := Checked(l, c);
    assert Retried(l1, c).pings == l1.pings;
  }

  /** Both ages start again with a ping the check asks for, whether or not it is queued, and the age
      of the last packet sent with one that a retry check has written; nothing else in a call
      touches them. */
  lemma AgesExactly(l: Link, c: Call)
    ensures var k := l.keepalive;
            var asks := && l.open && l.state == Connected && l.pingT == 0
                        && k > 0 && (c.now >= l.lastOut + k || c.now >= l.lastIn + k);
            var retries := && c.retried.Some? && l.open && c.later >= l.lastRetry + 2;
            && Misc(l, c).lastIn == (if asks then c.now else l.lastIn)
            && Misc(l, c).lastOut == (if retries then c.retried.value else if asks then c.now else l.lastOut)
  {
    var l1 := Checked(l, c);
    assert l1.lastRetry == l.lastRetry;
  }

  /** on_disconnect is called at most once per call, except that the check that closes an idle
      connection does not stop the second test: it is called twice exactly when an idle
      connection is closed while its ping is late as well. */
  lemma DisconnectsReported(l: Link, c: Call)
    ensures var (n, k) := (|Misc(l, c).disconnects| - |l.disconnects|, l.keepalive);
            && (n == 0 <==> Misc(l, c).open == l.open)
            && (n == 2 <==> l.open && k > 0 && (c.now - l.lastOut >= k || c.now - l.lastIn >= k)
                            && l.pingT != 0 && c.later - l.pingT >= k)
            && 0 <= n <= 2
            && forall k :: |l.disconnects| <= k < |Misc(l, c).disconnects| ==>
                 Misc(l, c).disconnects[k] == if l.state == Disconnecting then 0 else 1
  {
    var l1 := Checked(l, c);
    assert Retried(l1, c).pingT == l1.pingT && Retried(l1, c).disconnects == l1.disconnects;
  }

  // ---------------------------------------------------------------- runs of calls

  datatype Event =
    | LoopMisc(call: Call)
    | Wrote(t: int)                        // a packet was written
    | Read(t: int)                         // a packet was read
    | PingResp
    | StateSet(state: ConnState)           // CONNACK, mosquitto_disconnect
    | Reconnected(t: int, t': int, ok: bool)

  function Step(l: Link, e: Event): Link {
    match e
    case LoopMisc(c) => Misc(l, c)
    case Wrote(t) => l.(lastOut := t)
    case Read(t) => l.(lastIn := t)
    case PingResp => l.(pingT := 0, pings := 0, stuck := 0)
    case StateSet(state) => l.(state := state)
    case Reconnected(t, t', ok) => l.(state := New, lastIn := t, lastOut := t', pingT := 0, open := ok,
                                          pings := 0, stuck := 0)
  }

  function Run(l: Link, es: seq<Event>): Link {
    Fold(Step, l, es)
  }

  predicate Clocked(es: seq<Event>) {
    forall k :: 0 <= k < |es| && es[k].LoopMisc? ==> Ordered(es[k].call)
  }

  predicate Counted(l: Link) {
    l.pings == (if l.pingT != 0 then 1 else 0) + l.stuck
  }

  /** Over every run: one ping is outstanding if pingT says so, and one more for each PINGREQ
      that got stuck in the output queue. So there is at most one exactly as long as none got
      stuck, or one did and no other was sent. */
  lemma {:induction false} PingsCounted(l: Link, es: seq<Event>)
    requires Clocked(es) && Counted(l)
    ensures var l' := Run(l, es); Counted(l') && (l'.pings <= 1 <==> l'.stuck == 0 || (l'.stuck == 1 && l'.pingT == 0))
  {
    if es == [] {
    } else {
      PingsCounted(l, es[..|es| - 1]);
      var (l1, e) := (Run(l, es[..|es| - 1]), es[|es| - 1]);
      if e.LoopMisc? {
        assert Ordered(e.call);
        var l2 := Checked(l1, e.call);
        assert Retried(l2, e.call).pingT == l2.pingT && Retried(l2, e.call).pings == l2.pings
            && Retried(l2, e.call).stuck == l2.stuck;
      }
    }
  }

  /** Two do occur: a PINGREQ that could not be written stays queued, the check does not note it,
      and queues the next one after the keepalive time. */
  lemma TwoPings(l: Link, a: Call, b: Call)
    requires l.open && l.state == Connected && l.keepalive > 0 && l.pingT == 0 && l.pings == l.stuck == 0
    requires Ordered(a) && Ordered(b) && a.ping == b.ping == Stuck && a.later < b.now
    requires a.now >= l.lastIn + l.keepalive && b.now >= a.now + l.keepalive
    ensures Run(l, [LoopMisc(a), LoopMisc(b)]).pings == 2 && Run(l, [LoopMisc(a), LoopMisc(b)]).open
  {
    assert [LoopMisc(a), LoopMisc(b)] == [LoopMisc(a)] + [LoopMisc(b)];
    FoldOne(Step, l, LoopMisc(a));
    FoldSnoc(Step, l, [LoopMisc(a)], LoopMisc(b));
    var l1 := Misc(l, a);
    assert l1.open && l1.pingT == 0 && l1.lastIn == a.now && l1.pings == 1;
  }

  /** The peer is silent, every ping is queued, and the function runs at least every `every`
      seconds, from `start` on. */
  predicate Silent(es: seq<Event>, start: int, every: nat) {
    es == [] ||
    (var (front, e) := (es[..|es| - 1], es[|es| - 1]);
     && Silent(front, start, every)
     && match e
        case LoopMisc(c) =>
          Ordered(c) && c.ping == Queued && LastCall(front, start) <= c.now <= LastCall(front, start) + every
        case Wrote(_) => true
        case StateSet(_) => true
        case _ => false)
  }

  function LastCall(es: seq<Event>, start: int): int {
    if es == [] then start
    else if es[|es| - 1].LoopMisc? then es[|es| - 1].call.now
    else LastCall(es[..|es| - 1], start)
  }

  /** What is known of an open connection to a peer silent since `start`, when the last call
      was at `last`. */
  predicate Waiting(l: Link, start: int, every: nat, last: int) {
    var k := l.keepalive;
    && (l.pingT == 0 ==> l.lastIn <= start && last < start + k)
    && l.lastIn < start + k + every && last < start + 2 * k + every
  }

  lemma MiscWaits(l: Link, c: Call, start: int, every: nat, last: int)
    requires l.keepalive > 0 && Ordered(c) && c.ping == Queued && last <= c.now <= last + every
    requires l.open ==> Waiting(l, start, every, last)
    ensures Misc(l, c).open ==> Waiting(Misc(l, c), start, every, c.now)
    ensures Misc(l, c).keepalive == l.keepalive
  {
    var l1 := Checked(l, c);
    var l2 := Retried(l1, c);
    assert l2.pingT == l1.pingT && l2.lastIn == l1.lastIn && l2.keepalive == l1.keepalive == l.keepalive;
  }

  lemma {:induction false} SilentWaits(l: Link, es: seq<Event>, start: int, every: nat)
    requires l.keepalive > 0 && every > 0 && l.lastIn <= start && Silent(es, start, every)
    ensures var l' := Run(l, es);
            l'.keepalive == l.keepalive && (l'.open ==> Waiting(l', start, every, LastCall(es, start)))
  {
    if es == [] {
    } else {
      var (front, e) := (es[..|es| - 1], es[|es| - 1]);
      SilentWaits(l, front, start, every);
      if e.LoopMisc? { MiscWaits(Run(l, front), e.call, start, every, LastCall(front, start)); }
    }
  }

  /** A peer from which nothing arrives after `start` is disconnected within twice the sum of
      the keepalive time and the time between calls. */
  lemma SilentPeerDropped(l: Link, es: seq<Event>, start: int, every: nat, t: int)
    requires l.keepalive > 0 && every > 0 && l.lastIn <= start && Silent(es, start, every)
    requires t <= LastCall(es, start) + every && t >= start + 2 * (l.keepalive + every)
    ensures !Run(l, es).open
  {
    SilentWaits(l, es, start, every);
  }

  // ---------------------------------------------------------------- a link that is kept

  function LastWrote(es: seq<Event>, start: int): int {
    if es == [] then start else if es[|es| - 1].Wrote? then es[|es| - 1].t else LastWrote(es[..|es| - 1], start)
  }

  function LastRead(es: seq<Event>, start: int): int {
    if es == [] then start else if es[|es| - 1].Read? then es[|es| - 1].t else LastRead(es[..|es| - 1], start)
  }

  /** Before every call a packet was written and one was read less than the keepalive time ago. */
  predicate Busy(l: Link, es: seq<Event>) {
    es == [] ||
    (var (front, e) := (es[..|es| - 1], es[|es| - 1]);
     var (w, r) := (LastWrote(front, l.lastOut), LastRead(front, l.lastIn));
     Busy(l, front) && !e.Reconnected?
     && (e.LoopMisc? ==> Ordered(e.call) && w <= e.call.now < w + l.keepalive && e.call.now < r + l.keepalive))
  }

  /** A link with such traffic is kept, and no ping is sent. */
  lemma {:induction false} BusyKept(l: Link, es: seq<Event>)
    requires l.open && l.pingT == 0 && Busy(l, es)
    ensures var l' := Run(l, es);
            && l'.open && l'.pingT == 0 && l'.pings <= l.pings && l'.disconnects == l.disconnects
            && l'.lastOut >= LastWrote(es, l.lastOut) && l'.lastIn == LastRead(es, l.lastIn)
            && l'.keepalive == l.keepalive
  {
    if es == [] {
    } else {
      BusyKept(l, es[..|es| - 1]);
    }
  }

  /** A reconnect starts afresh: until the keepalive time has passed since, no call closes the
      connection or sends a ping, whatever was outstanding before. */
  lemma ReconnectedAfresh(l: Link, t: int, t': int, c: Call)
    requires Ordered(c) && t' <= c.now < t' + l.keepalive && c.now < t + l.keepalive
    ensures var l' := Run(l, [Reconnected(t, t', true), LoopMisc(c)]);
            l'.open && l'.pings == 0 && l'.disconnects == l.disconnects
  {
    var (r, es) := (Step(l, Reconnected(t, t', true)), [LoopMisc(c)]);
    assert [Reconnected(t, t', true), LoopMisc(c)] == [Reconnected(t, t', true)] + es;
    FoldOne(Step, l, Reconnected(t, t', true));
    FoldConcat(Step, l, [Reconnected(t, t', true)], es);
    assert es[..0] == [];
    BusyKept(r, es);
  }

  /** The call that queued the ping waited for, if there is one. */
  function Asked(l: Link, es: seq<Event>): Option<Call> {
    if es == [] then None
    else
      var (front, e) := (es[..|es| - 1], es[|es| - 1]);
      match e
      case LoopMisc(c) =>
        if c.ping == Queued && Run(l, es).pings > Run(l, front).pings then Some(c) else Asked(l, front)
      case PingResp => None
      case Reconnected(_, _, _) => None
      case _ => Asked(l, front)
  }

  /** The clock does not go back, no call lasts for the keepalive time, and the PINGRESP is there
      before the first call that ends the keepalive time after the one that asked for it. */
  predicate Prompt(l: Link, es: seq<Event>, start: int) {
    es == [] ||
    (var (front, e) := (es[..|es| - 1], es[|es| - 1]);
     && Prompt(l, front, start)
     && match e
        case LoopMisc(c) =>
          && Ordered(c) && LastCall(front, start) <= c.now && c.later < c.now + l.keepalive
          && (Asked(l, front).Some? ==> c.later < Asked(l, front).value.now + l.keepalive)
        case Wrote(t) => LastCall(front, start) <= t
        case Read(t) => LastCall(front, start) <= t
        case PingResp => true
        case _ => false)
  }

  /** What is known of a link on which `asked` has queued the ping waited for. */
  predicate Waits(l: Link, asked: Option<Call>, k: nat, last: int) {
    && l.open && l.state == Connected && l.keepalive == k && (asked.None? ==> l.pingT == 0)
    && (asked.Some? ==>
          var a := asked.value;
          Ordered(a) && l.pingT == a.pingNow && a.now <= last && a.now <= l.lastOut && a.now <= l.lastIn)
  }

  lemma MiscPrompt(l: Link, asked: Option<Call>, c: Call, last: int)
    requires Waits(l, asked, l.keepalive, last) && Ordered(c) && last <= c.now && c.later < c.now + l.keepalive
    requires asked.Some? ==> c.later < asked.value.now + l.keepalive
    ensures var asks := c.ping == Queued && Misc(l, c).pings > l.pings;
            Waits(Misc(l, c), if asks then Some(c) else asked, l.keepalive, c.now)
  {
    var l1 := Checked(l, c);
    var l2 := Retried(l1, c);
    assert l2 == l1.(lastOut := l2.lastOut, lastRetry := l2.lastRetry, checks := l2.checks);
    assert !PingLate(l2, c);
  }

  /** A connected link stays open as long as each ping is answered before it is the keepalive
      time old, however many are sent. */
  lemma {:induction false} PromptKept(l: Link, es: seq<Event>, start: int)
    requires l.open && l.state == Connected && l.pingT == 0 && Prompt(l, es, start)
    ensures Run(l, es).open && Run(l, es).state == Connected
    ensures Waits(Run(l, es), Asked(l, es), l.keepalive, LastCall(es, start))
  {
    if es == [] {
    } else {
      var (front, e) := (es[..|es| - 1], es[|es| - 1]);
      PromptKept(l, front, start);
      if e.LoopMisc? { MiscPrompt(Run(l, front), Asked(l, front), e.call, LastCall(front, start)); }
    }
  }

  // ---------------------------------------------------------------- pings that are not queued

  /** Nothing comes from the peer, and the connection state stays. */
  predicate Lonely(e: Event) {
    e.Wrote? || (e.LoopMisc? && Ordered(e.call))
  }

  /** The call sends a ping, and it is queued. */
  predicate GetsThrough(l: Link, e: Event) {
    && e.LoopMisc? && l.open && Idle(l, e.call.now) && l.state == Connected && l.pingT == 0
    && e.call.ping == Queued
  }

  predicate Unpinged(l: Link) {
    l.open && l.state == Connected && l.pingT == 0
  }

  /** A ping that is not queued changes nothing but the ages: both start again. */
  lemma StillUnpinged(l: Link, e: Event)
    requires Unpinged(l) && Lonely(e) && !GetsThrough(l, e)
    ensures Unpinged(Step(l, e)) && Step(l, e).keepalive == l.keepalive
  {
    if e.LoopMisc? {
      var l1 := Checked(l, e.call);
      assert l1.open && l1.pingT == 0 && l1.state == Connected;
      assert Retried(l1, e.call).open && Retried(l1, e.call).pingT == 0;
    }
  }

  /** What is known of an open connection since its ping was queued by a call at `now`. */
  predicate Pending(l: Link, now: int, k: nat) {
    l.keepalive == k && (l.open ==> l.state == Connected && l.pingT != 0 && l.lastIn == now)
  }

  lemma PingStarts(l: Link, c: Call)
    requires GetsThrough(l, LoopMisc(c)) && Ordered(c)
    ensures Pending(Misc(l, c), c.now, l.keepalive)
  {
    var l1 := Checked(l, c);
    assert Retried(l1, c).pingT == l1.pingT && Retried(l1, c).lastIn == l1.lastIn && Retried(l1, c).state == l1.state;
  }

  lemma StillPending(l: Link, now: int, k: nat, e: Event)
    requires Pending(l, now, k) && Lonely(e)
    ensures Pending(Step(l, e), now, k)
    ensures k > 0 && e.LoopMisc? && e.call.now >= now + k ==> !Step(l, e).open
  {
    if e.LoopMisc? && l.open {
      var l1 := Checked(l, e.call);
      assert Retried(l1, e.call).pingT == l1.pingT && Retried(l1, e.call).lastIn == l1.lastIn
          && Retried(l1, e.call).state == l1.state && Retried(l1, e.call).open == l1.open;
    }
  }

  predicate AllLonely(es: seq<Event>) {
    forall k :: 0 <= k < |es| ==> Lonely(es[k])
  }

  /** Once a ping is queued, the first call at or behind the keepalive time closes the
      connection, if the peer stays silent. */
  lemma {:induction false} PingCloses(l: Link, c: Call, es: seq<Event>)
    requires GetsThrough(l, LoopMisc(c)) && Ordered(c) && AllLonely(es)
    ensures var l' := Run(Misc(l, c), es);
            && Pending(l', c.now, l.keepalive)
            && (l'.open ==> LastCall(es, c.now) < c.now + l.keepalive)
  {
    if es == [] {
      PingStarts(l, c);
    } else {
      var (front, e) := (es[..|es| - 1], es[|es| - 1]);
      PingCloses(l, c, front);
      assert Lonely(e);
      StillPending(Run(Misc(l, c), front), c.now, l.keepalive, e);
    }
  }

  /** So with calls at least every `every` seconds it is closed within the keepalive time and
      `every` of the first ping that is queued. */
  lemma ClosedWithin(l: Link, c: Call, es: seq<Event>, every: nat, t: int)
    requires GetsThrough(l, LoopMisc(c)) && Ordered(c) && AllLonely(es)
    requires t <= LastCall(es, c.now) + every && t >= c.now + l.keepalive + every
    ensures !Run(Misc(l, c), es).open
  {
    PingCloses(l, c, es);
  }

  /** The first n events of an endless sequence. */
  function Take(f: nat -> Event, n: nat): (es: seq<Event>)
    ensures |es| == n && forall k :: 0 <= k < n ==> es[k] == f(k)
  {
    seq(n, k requires 0 <= k < n => f(k))
  }

  lemma TakeNext(f: nat -> Event, n: nat)
    ensures Take(f, n + 1) == Take(f, n) + [f(n)]
  {
  }

  ghost predicate StaysOpen(l: Link, f: nat -> Event) {
    forall n: nat :: Run(l, Take(f, n)).open
  }

  ghost predicate NoneThrough(l: Link, f: nat -> Event) {
    forall n: nat :: !GetsThrough(Run(l, Take(f, n)), f(n))
  }

  /** The function is called at ever later times. */
  ghost predicate Endless(f: nat -> Event) {
    forall n: nat, t: int :: CalledAt(f, n, t)
  }

  ghost predicate CalledAt(f: nat -> Event, n: nat, t: int) {
    exists m: nat :: n <= m && f(m).LoopMisc? && f(m).call.now >= t
  }

  lemma {:induction false} NoneThroughOpen(l: Link, f: nat -> Event, n: nat)
    requires Unpinged(l) && (forall k: nat :: Lonely(f(k))) && NoneThrough(l, f)
    ensures Unpinged(Run(l, Take(f, n)))
  {
    if n == 0 {
    } else {
      NoneThroughOpen(l, f, n - 1);
      AfterTake(l, f, n - 1);
      assert !GetsThrough(Run(l, Take(f, n - 1)), f(n - 1)) && Lonely(f(n - 1));
      StillUnpinged(Run(l, Take(f, n - 1)), f(n - 1));
    }
  }

  /** k events from the n-th on. */
  function From(f: nat -> Event, n: nat, k: nat): (es: seq<Event>)
    ensures |es| == k && forall i :: 0 <= i < k ==> es[i] == f(n + i)
  {
    seq(k, i requires 0 <= i < k => f(n + i))
  }

  lemma TakeFrom(l: Link, f: nat -> Event, n: nat, k: nat)
    ensures Run(l, Take(f, n + k)) == Run(Run(l, Take(f, n)), From(f, n, k))
  {
    assert Take(f, n + k) == Take(f, n) + From(f, n, k);
    FoldConcat(Step, l, Take(f, n), From(f, n, k));
  }

  lemma {:induction false} KeepaliveStays(l: Link, es: seq<Event>)
    ensures Run(l, es).keepalive == l.keepalive
  {
    if es == [] {
    } else {
      KeepaliveStays(l, es[..|es| - 1]);
    }
  }

  /** Some later call is at or behind the keepalive time. */
  lemma LaterCall(f: nat -> Event, n: nat, t: int) returns (k: nat)
    requires Endless(f)
    ensures k > 0 && f(n + k - 1).LoopMisc? && f(n + k - 1).call.now >= t
  {
    assert CalledAt(f, n, t);
    var m: nat :| n <= m && f(m).LoopMisc? && f(m).call.now >= t;
    k := m + 1 - n;
  }

  /** A ping that gets through is the end. */
  lemma ThroughCloses(l: Link, f: nat -> Event, n: nat)
    requires l.keepalive > 0 && (forall k: nat :: Lonely(f(k))) && Endless(f)
    requires GetsThrough(Run(l, Take(f, n)), f(n))
    ensures !StaysOpen(l, f)
  {
    var (l1, c) := (Run(l, Take(f, n)), f(n).call);
    KeepaliveStays(l, Take(f, n));
    var k := LaterCall(f, n + 1, c.now + l.keepalive);
    AfterTake(l, f, n);
    TakeFrom(l, f, n + 1, k);
    ClosedAfter(l1, c, f, n + 1, k);
    assert !Run(l, Take(f, n + 1 + k)).open;
  }

  lemma AfterTake(l: Link, f: nat -> Event, n: nat)
    ensures Run(l, Take(f, n + 1)) == Step(Run(l, Take(f, n)), f(n))
  {
    TakeNext(f, n);
    FoldSnoc(Step, l, Take(f, n), f(n));
  }

  lemma ClosedAfter(l: Link, c: Call, f: nat -> Event, n: nat, k: nat)
    requires (forall i: nat :: Lonely(f(i))) && GetsThrough(l, LoopMisc(c)) && Ordered(c)
    requires k > 0 && f(n + k - 1).LoopMisc? && f(n + k - 1).call.now >= c.now + l.keepalive
    ensures !Run(Misc(l, c), From(f, n, k)).open
  {
    var es := From(f, n, k);
    PingCloses(l, c, es);
    assert es[|es| - 1] == f(n + k - 1);
  }

  /** A connected link to a silent peer stays open for good exactly when no ping it sends is
      queued: the check restarts both ages whether or not the PINGREQ was queued. */
  lemma StaysOpenExactly(l: Link, f: nat -> Event)
    requires Unpinged(l) && l.keepalive > 0 && (forall k: nat :: Lonely(f(k))) && Endless(f)
    ensures StaysOpen(l, f) <==> NoneThrough(l, f)
  {
    if NoneThrough(l, f) {
      forall n: nat ensures Run(l, Take(f, n)).open { NoneThroughOpen(l, f, n); }
    } else {
      var n: nat :| GetsThrough(Run(l, Take(f, n)), f(n));
      ThroughCloses(l, f, n);
    }
  }

  // ---------------------------------------------------------------- the retry check

  predicate RetryDue(l: Link, c: Call) {
    l.open && c.later >= l.lastRetry + 2
  }

  /** Retry checks follow each other after two seconds of the clock or more, and lastRetry is the
      time of the last one. */
  predicate Spaced(l: Link) {
    && (forall k :: 0 <= k < |l.checks| - 1 ==> l.checks[k + 1] >= l.checks[k] + 2)
    && (l.checks != [] ==> l.lastRetry == l.checks[|l.checks| - 1])
  }

  /** Any call on an open connection makes the check exactly when the last one is two seconds back,
      and records its time; nothing else does. */
  lemma StepSpaced(l: Link, e: Event)
    requires Spaced(l)
    ensures Spaced(Step(l, e))
    ensures Step(l, e).checks ==
            if e.LoopMisc? && RetryDue(l, e.call) then l.checks + [e.call.later] else l.checks
  {
    if e.LoopMisc? {
      var l1 := Checked(l, e.call);
      assert l1.checks == l.checks && l1.lastRetry == l.lastRetry;
    }
  }

  /** Over every run, whatever the clock does: two retry checks are two seconds apart or more. */
  lemma {:induction false} RetriesSpaced(l: Link, es: seq<Event>)
    requires Spaced(l)
    ensures Spaced(Run(l, es)) && l.checks <= Run(l, es).checks
  {
    if es == [] {
    } else {
      RetriesSpaced(l, es[..|es| - 1]);
      StepSpaced(Run(l, es[..|es| - 1]), es[|es| - 1]);
    }
  }

  /** The part of the client structure the keepalive check works on. */
  class Session {
    var open: bool
    var state: ConnState
    var keepalive: uint16
    var lastMsgOut: int
    var lastMsgIn: int
    var pingT: int
    var lastRetryCheck: int
    ghost var pings: nat
    ghost var stuck: nat
    ghost var disconnects: seq<int>
    ghost var checks: seq<int>

    ghost function View(): Link
      reads this
    {
      Link(open, state, keepalive, lastMsgOut, lastMsgIn, pingT, lastRetryCheck, pings, stuck, disconnects, checks)
    }

    /** The session _mosquitto_reconnect starts. */
    constructor (keepalive: uint16, t: int, t': int)
      ensures View() == Link(true, New, keepalive, t', t, 0, 0, 0, 0, [], [])
    {
      open, state, this.keepalive, lastMsgOut, lastMsgIn, pingT, lastRetryCheck := true, New, keepalive, t', t, 0, 0;
      pings, stuck, disconnects, checks := 0, 0, [], [];
    }

    /** mosquitto.c, what _mosquitto_reconnect does to these fields; `ok` says whether the
        socket could be opened. */
    method Reconnect(t: int, t': int, ok: bool)
      modifies this
      ensures View() == Step(old(View()), Reconnected(t, t', ok))
    {
      state := New;
      lastMsgIn := t;
      lastMsgOut := t';
      pingT := 0;
      pings, stuck := 0, 0;
      open := ok;
    }

    /** _mosquitto_socket_close and the call of on_disconnect. */
    method CloseSocket()
      modifies this
      ensures View() == Close(old(View()))
    {
      open := false;
      var rc := if state == Disconnecting then 0 else 1;
      disconnects := disconnects + [rc];
    }

    /** send_mosq.c, _mosquitto_send_pingreq. */
    method SendPingreq(c: Call)
      modifies this`pingT, this`pings, this`stuck
      ensures View() == SentPing(old(View()), c)
    {
      if c.ping == Queued {
        pingT := c.pingNow;
      }
      pings := if c.ping == NotQueued then pings else pings + 1;
      stuck := if c.ping == Stuck then stuck + 1 else stuck;
    }

    method CheckKeepalive(c: Call)
      modifies this
      ensures View() == Checked(old(View()), c)
    {
      var (lastOut, lastIn) := (lastMsgOut, lastMsgIn);
      if keepalive > 0 && open && (c.now - lastOut >= keepalive || c.now - lastIn >= keepalive) {
        if state == Connected && pingT == 0 {
          SendPingreq(c);
          // The peer is given the keepalive time again to answer.
          lastMsgIn := c.now;
          lastMsgOut := c.now;
        } else {
          CloseSocket();
        }
      }
    }

    method LoopMisc(c: Call) returns (rc: Code)
      modifies this
      ensures View() == Misc(old(View()), c)
      ensures rc == NoConn <==> !old(open)
      ensures rc == ConnLost <==> old(open) && pingT != 0 && c.later - pingT >= keepalive
      ensures keepalive > 0 && Ordered(c) && open ==>
                && c.now - lastMsgOut < keepalive && c.now - lastMsgIn < keepalive
                && (pingT != 0 ==> c.later - pingT < keepalive)
    {
      ghost var before := View();
      if keepalive > 0 && Ordered(c) { KeptAlive(before, c); }
      if !open {
        return NoConn;
      }
      CheckKeepalive(c);
      if lastRetryCheck + 1 < c.later {
        if c.retried.Some? {
          lastMsgOut := c.retried.value;
        }
        lastRetryCheck, checks := c.later, checks + [c.later];
      }
      assert View() == Retried(Checked(before, c), c);
      if pingT != 0 && c.later - pingT >= keepalive {
        CloseSocket();
        return ConnLost;
      }
      rc := Success;
    }

    /** read_handle_shared.c, _mosquitto_handle_pingresp. */
    method HandlePingresp()
      modifies this`pingT, this`pings, this`stuck
      ensures View() == Step(old(View()), PingResp)
    {
      pingT := 0;
      pings, stuck := 0, 0;
    }

    /** Any event. */
    method Perform(e: Event)
      modifies this
      ensures View() == Step(old(View()), e)
    {
      match e {
        case LoopMisc(c) => var _ := LoopMisc(c);
        case Wrote(t) => lastMsgOut := t;
        case Read(t) => lastMsgIn := t;
        case PingResp => HandlePingresp();
        case StateSet(s) => state := s;
        case Reconnected(t, t', ok) => Reconnect(t, t', ok);
      }
    }

    /** Through any sequence of events the fields are those of the run, for which the results
        above are stated. */
    method Execute(es: seq<Event>)
      modifies this
      ensures View() == Run(old(View()), es)
    {
      ghost var l := View();
      for i := 0 to |es|
        invariant View() == Run(l, es[..i])
      {
        Perform(es[i]);
        assert es[..i + 1] == es[..i] + [es[i]];
        FoldSnoc(Step, l, es[..i], es[i]);
      }
      assert es[..|es|] == es;
    }
  }

  // ---------------------------------------------------------------- reconnect delay

  const WORD: nat := 0x1_0000_0000

  /** The product of the backoff branch, one of unsigned ints. */
  function Product(base: uint32, reconnects: uint32): uint32 {
    base * reconnects % WORD * reconnects % WORD
  }

  /** mosquitto.c, one turn of the reconnect loop: the delay, and `reconnects` afterwards. */
  function Turn(base: uint32, max: uint32, backoff: bool, reconnects: uint32): (uint32, uint32) {
    CutOff(if base > 0 && backoff then Product(base, reconnects) else base, max, reconnects)
  }

  function CutOff(delay: uint32, max: uint32, reconnects: uint32): (uint32, uint32) {
    if delay > max then (max, reconnects) else (delay, (reconnects + 1) % WORD)
  }

  /** `reconnects` before turn k of an outage, and the delay of that turn. */
  function Reconnects(base: uint32, max: uint32, backoff: bool, k: nat): uint32 {
    if k == 0 then 0 else Turn(base, max, backoff, Reconnects(base, max, backoff, k - 1)).1
  }

  function Delay(base: uint32, max: uint32, backoff: bool, k: nat): uint32 {
    Turn(base, max, backoff, Reconnects(base, max, backoff, k)).0
  }

  function Min(a: nat, b: nat): nat {
    if a < b then a else b
  }

  /** The product without wrapping. */
  function Quadratic(base: nat, k: nat): nat {
    base * (k * k)
  }

  lemma TimesMonotone(c: nat, a: nat, b: nat)
    requires a <= b
    ensures c * a <= c * b
  {
  }

  lemma QuadraticMonotone(base: nat, i: nat, j: nat)
    requires i <= j
    ensures Quadratic(base, i) <= Quadratic(base, j)
  {
    assert i * i <= j * j by {
      TimesMonotone(i, i, j);
      TimesMonotone(j, i, j);
    }
    TimesMonotone(base, i * i, j * j);
  }

  lemma QuadraticAbove(base: nat, k: nat)
    requires base > 0
    ensures k <= base * k <= Quadratic(base, k)
  {
    assert k <= k * k by { if k > 0 { TimesMonotone(k, 1, k); } }
    TimesMonotone(base, k, k * k);
    TimesMonotone(k, 1, base);
  }

  lemma SquareStep(n: nat)
    requires n > 0
    ensures (n + 1) * (n + 1) <= 4 * (n * n)
  {
    assert (n + 1) * (n + 1) == n * n + 2 * n + 1;
    TimesMonotone(n, 1, n);
  }

  /** One turn more makes the product at most four times as large. */
  lemma QuadraticStep(base: nat, n: nat)
    requires n > 0
    ensures Quadratic(base, n + 1) <= 4 * Quadratic(base, n)
  {
    SquareStep(n);
    TimesMonotone(base, (n + 1) * (n + 1), 4 * (n * n));
    assert base * (4 * (n * n)) == 4 * (base * (n * n));
  }

  lemma NoWrap(base: uint32, r: uint32)
    requires base > 0 && Quadratic(base, r) < WORD
    ensures Product(base, r) == Quadratic(base, r)
  {
    QuadraticAbove(base, r);
    assert base * r * r == Quadratic(base, r);
  }

  /** The first turn whose product is over the limit fits 32 bits when the limit is below
      2^30, and so do all before it. */
  lemma ProductFits(base: uint32, max: uint32, r: uint32)
    requires max < 0x4000_0000 && base > 0
    requires r == 0 || Quadratic(base, r - 1) <= max
    ensures Product(base, r) == Quadratic(base, r)
  {
    if r >= 2 {
      QuadraticStep(base, r - 1);
    } else {
      assert Quadratic(base, r) == if r == 0 then 0 else base;
    }
    NoWrap(base, r);
  }

  lemma TurnAt(base: uint32, max: uint32, r: uint32)
    requires max < 0x4000_0000 && base > 0
    requires r == 0 || Quadratic(base, r - 1) <= max
    ensures Turn(base, max, true, r) == if Quadratic(base, r) > max then (max, r) else (Quadratic(base, r), r + 1)
  {
    var q := Quadratic(base, r);
    assert Product(base, r) == q by { ProductFits(base, max, r); }
    assert r <= q by { QuadraticAbove(base, r); }
    CutOffAt(q, max, r);
  }

  lemma CutOffAt(q: uint32, max: uint32, r: uint32)
    requires r <= q && max < 0x4000_0000
    ensures CutOff(q, max, r) == if q > max then (max, r) else (q, r + 1)
  {
  }

  /** Where `reconnects` can be: k, until the product is over the limit. */
  ghost predicate Reached(base: uint32, max: uint32, k: nat, r: nat) {
    r <= k && (r == 0 || Quadratic(base, r - 1) <= max) && (r == k || Quadratic(base, r) > max)
  }

  lemma {:induction false} ReconnectsAt(base: uint32, max: uint32, k: nat)
    requires max < 0x4000_0000 && base > 0
    ensures Reached(base, max, k, Reconnects(base, max, true, k))
  {
    if k == 0 {
    } else {
      ReconnectsAt(base, max, k - 1);
      TurnAt(base, max, Reconnects(base, max, true, k - 1));
    }
  }

  /** With backoff and a limit below 2^30 the delays of an outage are quadratic, from 0, and
      cut off at the limit. */
  lemma BackoffDelay(base: uint32, max: uint32, k: nat)
    requires max < 0x4000_0000 && base > 0
    ensures Delay(base, max, true, k) == Min(Quadratic(base, k), max)
  {
    var r := Reconnects(base, max, true, k);
    ReconnectsAt(base, max, k);
    TurnAt(base, max, r);
    QuadraticMonotone(base, r, k);
  }

  /** With 2^30 as the base delay the product wraps to 0 on the third turn. */
  lemma BackoffWraps(max: uint32)
    requires max >= 0x4000_0000
    ensures Delay(0x4000_0000, max, true, 1) == 0x4000_0000 && Delay(0x4000_0000, max, true, 2) == 0
  {
    var base: uint32 := 0x4000_0000;
    assert Turn(base, max, true, 0) == (0, 1);
    assert Turn(base, max, true, 1) == (base, 2);
    assert Reconnects(base, max, true, 1) == 1;
    assert Reconnects(base, max, true, 2) == 2;
  }

  /** The delays are what they are meant to be for every base delay. */
  ghost predicate Quadratics(max: uint32) {
    forall base: uint32, k: nat :: base > 0 ==> Delay(base, max, true, k) == Min(Quadratic(base, k), max)
  }

  /** 2^30 is the exact bound: with a limit below it no base delay can wrap, from it on one
      does. */
  lemma BackoffExact(max: uint32)
    ensures Quadratics(max) <==> max < 0x4000_0000
  {
    if max < 0x4000_0000 {
      forall base: uint32, k: nat | base > 0 ensures Delay(base, max, true, k) == Min(Quadratic(base, k), max) {
        BackoffDelay(base, max, k);
      }
    } else {
      BackoffWraps(max);
      assert Delay(0x4000_0000, max, true, 2) != Min(Quadratic(0x4000_0000, 2), max);
    }
  }

  lemma ConstantDelay(base: uint32, max: uint32, backoff: bool, k: nat)
    requires !backoff || base == 0
    ensures Delay(base, max, backoff, k) == Min(base, max)
  {
  }

  /** Within one outage the delays do not fall, without backoff for every limit, and with it for
      limits below 2^30; with backoff and a positive base they reach such a limit, and stay
      there, from turn `max` at the latest. None exceeds the limit, whatever wraps. */
  lemma DelaysRise(base: uint32, max: uint32, backoff: bool, i: nat, j: nat)
    requires i <= j
    ensures Delay(base, max, backoff, i) <= max
    ensures !backoff || base == 0 || max < 0x4000_0000 ==> Delay(base, max, backoff, i) <= Delay(base, max, backoff, j)
    ensures backoff && base > 0 && max < 0x4000_0000 && j >= max ==> Delay(base, max, backoff, j) == max
  {
    if !backoff || base == 0 {
      ConstantDelay(base, max, backoff, i);
      ConstantDelay(base, max, backoff, j);
    } else if max < 0x4000_0000 {
      BackoffDelay(base, max, i);
      BackoffDelay(base, max, j);
      QuadraticMonotone(base, i, j);
      QuadraticAbove(base, j);
    }
  }

  /** The two examples of mosquitto.h, as the code has them: it documents 2, 4, 6, 8, 10 and
      3, 6, 12, 24, 30. */
  lemma HeaderExamples(k: nat)
    ensures Delay(2, 10, false, k) == 2
    ensures Delay(3, 30, true, 0) == 0 && Delay(3, 30, true, 1) == 3 && Delay(3, 30, true, 2) == 12
    ensures Delay(3, 30, true, 3) == 27 && Delay(3, 30, true, 4) == 30
  {
    ConstantDelay(2, 10, false, k);
    BackoffDelay(3, 30, 0);
    BackoffDelay(3, 30, 1);
    BackoffDelay(3, 30, 2);
    BackoffDelay(3, 30, 3);
    BackoffDelay(3, 30, 4);
  }

  /** `reconnects` before turn k of an outage that begins with `start`, and the delay. It is
      reset to 0 only by a call of mosquitto_loop that succeeds, so a connection that fails at
      once goes on counting. */
  function ReconnectsFrom(base: uint32, max: uint32, backoff: bool, start: uint32, k: nat): uint32 {
    if k == 0 then start else Turn(base, max, backoff, ReconnectsFrom(base, max, backoff, start, k - 1)).1
  }

  function DelayFrom(base: uint32, max: uint32, backoff: bool, start: uint32, k: nat): uint32 {
    Turn(base, max, backoff, ReconnectsFrom(base, max, backoff, start, k)).0
  }

  /** Then the delays go on where the last outage stopped: two outages without a successful
      call between them have the delays of one. */
  lemma {:induction false} OutageGoesOn(base: uint32, max: uint32, backoff: bool, j: nat, k: nat)
    ensures var start := Reconnects(base, max, backoff, j);
            && ReconnectsFrom(base, max, backoff, start, k) == Reconnects(base, max, backoff, j + k)
            && DelayFrom(base, max, backoff, start, k) == Delay(base, max, backoff, j + k)
  {
    if k == 0 {
    } else {
      OutageGoesOn(base, max, backoff, j, k - 1);
    }
  }

  /** mosquitto.c, mosquitto_loop_forever: the loop that tries to reconnect, begun with the
      given count. The results of the attempts are an input; the loop ends with the first that
      succeeds, or where they end, with a call of mosquitto_disconnect. */
  method Outage(base: uint32, max: uint32, backoff: bool, start: uint32, attempts: seq<bool>)
    returns (delays: seq<uint32>, reconnects: uint32)
    ensures |delays| <= |attempts| && reconnects == ReconnectsFrom(base, max, backoff, start, |delays|)
    ensures forall k :: 0 <= k < |delays| ==> delays[k] == DelayFrom(base, max, backoff, start, k)
    ensures forall k :: 0 <= k < |delays| - 1 ==> !attempts[k]
    ensures |delays| == |attempts| || (delays != [] && attempts[|delays| - 1])
  {
    reconnects := start;
    delays := [];
    var connected := false;
    while |delays| < |attempts| && !connected
      invariant |delays| <= |attempts| && reconnects == ReconnectsFrom(base, max, backoff, start, |delays|)
      invariant forall k :: 0 <= k < |delays| ==> delays[k] == DelayFrom(base, max, backoff, start, k)
      invariant forall k :: 0 <= k < |delays| - 1 ==> !attempts[k]
      invariant connected <==> delays != [] && attempts[|delays| - 1]
      decreases |attempts| - |delays|
    {
      var delay: uint32;
      if base > 0 && backoff {
        delay := Product(base, reconnects);
      } else {
        delay := base;
      }
      if delay > max {
        delay := max;
      } else {
        reconnects := (reconnects + 1) % WORD;
      }
      connected := attempts[|delays|];
      delays := delays + [delay];
    }
  }

  /** The count while the client runs: a successful call of mosquitto_loop resets it, an outage
      raises it. The delays of the whole life of the client are those of outages that begin at
      0 or go on with the last one. */
  datatype Phase = Worked | Failed(attempts: seq<bool>)

  function CountAfter(base: uint32, max: uint32, backoff: bool, phases: seq<Phase>): uint32 {
    if phases == [] then 0
    else
      match phases[|phases| - 1]
      case Worked => 0
      case Failed(attempts) =>
        ReconnectsFrom(base, max, backoff, CountAfter(base, max, backoff, phases[..|phases| - 1]), Turns(attempts))
  }

  /** How many turns the loop makes. */
  function Turns(attempts: seq<bool>): (n: nat)
    ensures n <= |attempts|
    ensures forall k :: 0 <= k < n - 1 ==> !attempts[k]
    ensures n == |attempts| || (n > 0 && attempts[n - 1])
  {
    if attempts == [] then 0 else if attempts[0] then 1 else 1 + Turns(attempts[1..])
  }

  /** The turns since the last successful call. */
  function TurnsSince(phases: seq<Phase>): nat {
    if phases == [] then 0
    else
      match phases[|phases| - 1]
      case Worked => 0
      case Failed(attempts) => TurnsSince(phases[..|phases| - 1]) + Turns(attempts)
  }

  /** Whatever the client goes through, the next outage has the delays of a single one since the
      last successful call: so all that is proved of `Delay` holds of it. */
  lemma {:induction false} CountIsTurns(base: uint32, max: uint32, backoff: bool, phases: seq<Phase>, k: nat)
    ensures var start := CountAfter(base, max, backoff, phases);
            && start == Reconnects(base, max, backoff, TurnsSince(phases))
            && DelayFrom(base, max, backoff, start, k) == Delay(base, max, backoff, TurnsSince(phases) + k)
  {
    if phases != [] && phases[|phases| - 1].Failed? {
      CountIsTurns(base, max, backoff, phases[..|phases| - 1], 0);
      OutageGoesOn(base, max, backoff, TurnsSince(phases[..|phases| - 1]), Turns(phases[|phases| - 1].attempts));
    }
    OutageGoesOn(base, max, backoff, TurnsSince(phases), k);
  }
}
