/** Packet ids: the sequence _mosquitto_mid_generate counts through, and which messages of
    the outgoing list can share one. */
module Ids {
  import opened Codec
  import opened Engine
  import opened Fate

  /** The id drawn k-th, starting from last_mid = 0. */
  function Kth(k: nat): uint16 {
    if k == 0 then 0 else NextMid(Kth(k - 1))
  }

  /** It is never 0, and it counts 1 to 65535 round and round. */
  lemma {:induction false} KthId(k: nat)
    requires k > 0
    ensures Kth(k) == (k - 1) % 65535 + 1
  {
    if k > 1 { KthId(k - 1); }
  }

  /** A multiple of 65535 draws lies between the two. */
  predicate WholeRounds(i: nat, j: nat) {
    (j - i) % 65535 == 0
  }

  /** Two draws give the same id exactly when a multiple of 65535 lies between them. */
  lemma SameId(i: nat, j: nat)
    requires 0 < i <= j
    ensures Kth(i) == Kth(j) <==> WholeRounds(i, j)
  {
    KthId(i);
    KthId(j);
  }

  /** So any 65535 ids drawn in a row are distinct. */
  lemma ConsecutiveDistinct(i: nat, j: nat)
    requires 0 < i < j < i + 65535
    ensures Kth(i) != Kth(j)
  {
    SameId(i, j);
  }

  // ---------------------------------------------------------------- ids of the outgoing list

  /** The ids drawn by a run. */
  function Drawn(es: seq<Event>): nat {
    if es == [] then 0
    else Drawn(es[..|es| - 1]) + if es[|es| - 1].DoPublish? || es[|es| - 1].DoDraw? then 1 else 0
  }

  /** Which draw each listed message got its id from, after one more event. */
  function NextDraws(ds: seq<nat>, s: State, e: Event, drawn: nat): seq<nat> {
    match e
    case DoPublish(c, _) => if c.qos > 0 then ds + [drawn + 1] else ds
    case OnAck(mid) => if Find(s.out, mid) < |s.out| && |ds| == |s.out| then Without(ds, Find(s.out, mid)) else ds
    case _ => ds
  }

  function Draws(s0: State, es: seq<Event>): seq<nat> {
    if es == [] then []
    else
      var front := es[..|es| - 1];
      NextDraws(Draws(s0, front), Run(s0, front), es[|es| - 1], Drawn(front))
  }

  /** The list is in the order of its draws, and each id is that of its draw. */
  ghost predicate Numbered(s: State, ds: seq<nat>, drawn: nat) {
    && |ds| == |s.out| && s.lastMid == Kth(drawn)
    && (forall i, j :: 0 <= i < j < |ds| ==> ds[i] < ds[j])
    && (forall i :: 0 <= i < |ds| ==> 0 < ds[i] <= drawn && s.out[i].content.mid == Kth(ds[i]))
  }

  lemma SameNumbered(s: State, s': State, ds: seq<nat>, drawn: nat)
    requires Numbered(s, ds, drawn) && s'.lastMid == s.lastMid && |s'.out| == |s.out|
    requires forall i :: 0 <= i < |s.out| ==> s'.out[i].content == s.out[i].content
    ensures Numbered(s', ds, drawn)
  {
  }

  lemma PublishNumbered(s: State, ds: seq<nat>, drawn: nat, c: Content, now: int)
    requires Numbered(s, ds, drawn)
    ensures Numbered(Publish(s, c, now), NextDraws(ds, s, DoPublish(c, now), drawn), drawn + 1)
  {
  }

  lemma RemovedNumbered(s: State, s': State, ds: seq<nat>, drawn: nat, i: nat)
    requires Numbered(s, ds, drawn) && i < |s.out| && s'.lastMid == s.lastMid
    requires Contents(s'.out) == Without(Contents(s.out), i)
    ensures Numbered(s', Without(ds, i), drawn)
  {
    var ds' := Without(ds, i);
    forall k | 0 <= k < |s'.out| ensures 0 < ds'[k] <= drawn && s'.out[k].content.mid == Kth(ds'[k]) {
      var k' := if k < i then k else k + 1;
      assert s'.out[k].content == Contents(s'.out)[k] == Contents(s.out)[k'] && ds'[k] == ds[k'];
    }
    forall j, k | 0 <= j < k < |ds'| ensures ds'[j] < ds'[k] {
      assert ds'[j] == ds[if j < i then j else j + 1] && ds'[k] == ds[if k < i then k else k + 1];
    }
  }

  lemma AckNumbered(s: State, ds: seq<nat>, drawn: nat, mid: uint16)
    requires Numbered(s, ds, drawn)
    ensures Numbered(Ack(s, mid), NextDraws(ds, s, OnAck(mid), drawn), drawn)
  {
    var i := Find(s.out, mid);
    if i < |s.out| {
      AckContents(s, mid);
      PromoteLogs(Unlink(s, i), 0);
      RemovedNumbered(s, Ack(s, mid), ds, drawn, i);
    }
  }

  lemma StepNumbered(s: State, ds: seq<nat>, drawn: nat, e: Event)
    requires Numbered(s, ds, drawn)
    ensures Numbered(Step(s, e), NextDraws(ds, s, e, drawn), if e.DoPublish? || e.DoDraw? then drawn + 1 else drawn)
  {
    match e
    case DoPublish(c, now) => PublishNumbered(s, ds, drawn, c, now);
    case OnAck(mid) => AckNumbered(s, ds, drawn, mid);
    case OnPubrec(mid, now) => SameNumbered(s, Pubrec(s, mid, now), ds, drawn);
    case DoRetry(now) => SameNumbered(s, Retry(s, now), ds, drawn);
    case DoReset => SameNumbered(s, Reset(s), ds, drawn);
    case DoDraw =>
    case OnPublish(c, dup, now) => SameNumbered(s, Receive(s, c, dup, now), ds, drawn);
    case OnPubrel(mid, flagsOk) => SameNumbered(s, Pubrel(s, mid, flagsOk), ds, drawn);
  }

  lemma {:induction false} RunNumbered(max: nat, retry: nat, script: seq<bool>, es: seq<Event>)
    ensures var s0 := Initial(max, retry, script);
            Numbered(Run(s0, es), Draws(s0, es), Drawn(es))
  {
    if es == [] {
    } else {
      var (s0, front) := (Initial(max, retry, script), es[..|es| - 1]);
      RunNumbered(max, retry, script, front);
      StepNumbered(Run(s0, front), Draws(s0, front), Drawn(front), es[|es| - 1]);
    }
  }

  lemma NumberedIds(s: State, ds: seq<nat>, drawn: nat, i: nat, j: nat)
    requires Numbered(s, ds, drawn) && i < j < |s.out|
    ensures ds[0] <= ds[i] < ds[j] <= drawn
    ensures s.out[i].content.mid == s.out[j].content.mid <==> WholeRounds(ds[i], ds[j])
    ensures drawn - ds[0] + 1 <= 65535 ==> s.out[i].content.mid != s.out[j].content.mid
  {
    SameId(ds[i], ds[j]);
    if drawn - ds[0] + 1 <= 65535 { ConsecutiveDistinct(ds[i], ds[j]); }
  }

  /** Two listed messages share an id exactly when a multiple of 65535 ids was drawn from one
      to the other; so over any run the listed ids are pairwise distinct as long as, counting
      the draw of the oldest one, at most 65535 ids have been drawn since. */
  lemma ListedDistinct(max: nat, retry: nat, script: seq<bool>, es: seq<Event>, i: nat, j: nat)
    requires i < j < |Run(Initial(max, retry, script), es).out|
    ensures var (s, ds) := (Run(Initial(max, retry, script), es), Draws(Initial(max, retry, script), es));
            && |ds| == |s.out| && ds[0] <= ds[i] < ds[j] <= Drawn(es)
            && (s.out[i].content.mid == s.out[j].content.mid <==> WholeRounds(ds[i], ds[j]))
            && (Drawn(es) - ds[0] + 1 <= 65535 ==> s.out[i].content.mid != s.out[j].content.mid)
  {
    var s0 := Initial(max, retry, script);
    RunNumbered(max, retry, script, es);
    NumberedIds(Run(s0, es), Draws(s0, es), Drawn(es), i, j);
  }
}
