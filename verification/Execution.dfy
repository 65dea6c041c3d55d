/** The linked lists run as the engine does, through any sequence of events in which no message
    is listed while the tail pointer of the empty outgoing list is stale. That pointer is set
    by a reset that finds incoming messages only. */
module Execution {
  import opened Engine
  import opened Fate
  import opened MessageLists
  import opened Qos2Receiver

  // ---------------------------------------------------------------- the stale tail

  /** The last reset found incoming messages and no outgoing one. */
  predicate Stale(s0: State, es: seq<Event>) {
    if es == [] then false
    else
      var front := es[..|es| - 1];
      if es[|es| - 1] == DoReset then Run(s0, front).out == [] && Run(s0, front).inn != []
      else Stale(s0, front)
  }

  /** The event puts a message into the outgoing list. */
  predicate Lists(e: Event) {
    e.DoPublish? && e.c.qos > 0
  }

  /** No message is put into the outgoing list while its tail pointer is stale. */
  predicate NeverStale(s0: State, es: seq<Event>) {
    es == [] ||
    (var front := es[..|es| - 1];
     NeverStale(s0, front) && !(Lists(es[|es| - 1]) && Stale(s0, front)))
  }

  lemma StaleNext(s0: State, es: seq<Event>, n: nat)
    requires n < |es|
    ensures Stale(s0, es[..n + 1])
         == if es[n] == DoReset then Run(s0, es[..n]).out == [] && Run(s0, es[..n]).inn != [] else Stale(s0, es[..n])
    ensures NeverStale(s0, es[..n + 1]) <==> NeverStale(s0, es[..n]) && !(Lists(es[n]) && Stale(s0, es[..n]))
  {
    assert es[..n + 1][..n] == es[..n];
  }

  lemma {:induction false} NeverStaleFront(s0: State, es: seq<Event>, n: nat)
    requires n <= |es| && NeverStale(s0, es)
    ensures NeverStale(s0, es[..n])
    decreases |es|
  {
    if n == |es| {
      assert es[..n] == es;
    } else {
      NeverStaleFront(s0, es[..|es| - 1], n);
      assert es[..|es| - 1][..n] == es[..n];
    }
  }

  lemma NextRun(max: nat, retry: nat, script: seq<bool>, es: seq<Event>, n: nat)
    requires n < |es|
    ensures var s0 := Initial(max, retry, script);
            && Run(s0, es[..n + 1]) == Step(Run(s0, es[..n]), es[n])
            && AllTwo(Run(s0, es[..n]).inn)
  {
    IncomingAlwaysQos2(max, retry, script, es[..n]);
    assert es[..n] + [es[n]] == es[..n + 1];
    RunSnoc(Initial(max, retry, script), es[..n], es[n]);
  }

  // ---------------------------------------------------------------- running

  /** The messages the pointers of a client lead to. */
  ghost function Reached(client: Client): set<Message>
    reads client, client.out, client.inn
  {
    (set m | m in client.out.nodes) + (set m | m in client.inn.nodes)
    + if client.out.last == null then {} else {client.out.last}
  }

  /** The lists stand for s, and the tail pointer is stale or not. */
  ghost predicate Stands(client: Client, s: State, stale: bool)
    reads client, client.out, client.out.nodes, client.inn, client.inn.nodes
  {
    client.Valid() && client.Usable() && client.View() == s && (client.out.Tailed() <==> !stale)
  }

  /** The lists and s have parted: one message was published that is in s only. The lists have
      counted it, and it is nowhere in the account of published messages. */
  ghost predicate Parted(client: Client, s: State)
    reads client, client.out, client.out.nodes, client.inn, client.inn.nodes
  {
    && client.Valid() && client.out.first == null && |s.out| == 1
    && client.View() == s.(out := [], inn := client.View().inn)
  }

  /** One event that lists no message while the tail pointer is stale. */
  method FollowPlain(client: Client, ghost s: State, e: Event, ghost stale: bool)
    requires Stands(client, s, stale) && AllTwo(s.inn) && !(Lists(e) && stale)
    modifies client, client.out, client.inn, Reached(client)
    ensures Stands(client, Step(s, e), if e == DoReset then s.out == [] && s.inn != [] else stale)
    ensures fresh(Reached(client) - old(Reached(client)))
  {
    assert |client.View().out| == |client.out.nodes| && |client.View().inn| == |client.inn.nodes|;
    client.Perform(e);
  }

  /** One that does: the lists and the engine part. */
  method FollowStale(client: Client, ghost s: State, c: Content, now: int)
    requires Stands(client, s, true) && c.qos > 0
    modifies client, client.out, client.inn, Reached(client)
    ensures Parted(client, Publish(s, c, now))
  {
    assert client.out.last in Reached(client);
    var _, m := client.EnqueueStale(c, now);
    assert |client.View().inn| == |client.inn.nodes|;
  }

  /** One event. The test is the one the source makes of the tail pointer when it links a
      message, and tells the two cases of that statement apart. */
  method Follow(client: Client, ghost s: State, e: Event, ghost stale: bool) returns (follows: bool)
    requires Stands(client, s, stale) && AllTwo(s.inn)
    modifies client, client.out, client.inn, Reached(client)
    ensures follows <==> !(Lists(e) && stale)
    ensures follows ==> Stands(client, Step(s, e), if e == DoReset then s.out == [] && s.inn != [] else stale)
    ensures follows ==> fresh(Reached(client) - old(Reached(client)))
    ensures !follows ==> Parted(client, Step(s, e))
  {
    follows := !(e.DoPublish? && e.c.qos > 0 && client.out.first == null && client.out.last != null);
    if follows {
      FollowPlain(client, s, e, stale);
    } else {
      FollowStale(client, s, e.c, e.now);
    }
  }

  /** The n-th event of a run. */
  method FollowRun(client: Client, max: nat, retry: nat, ghost script: seq<bool>, es: seq<Event>, n: nat)
    returns (follows: bool)
    requires n < |es|
    requires var s0 := Initial(max, retry, script); Stands(client, Run(s0, es[..n]), Stale(s0, es[..n]))
    modifies client, client.out, client.inn, Reached(client)
    ensures var s0 := Initial(max, retry, script);
            && (follows <==> !(Lists(es[n]) && Stale(s0, es[..n])))
            && (follows ==> Stands(client, Run(s0, es[..n + 1]), Stale(s0, es[..n + 1])))
            && (!follows ==> Parted(client, Run(s0, es[..n + 1])))
            && (NeverStale(s0, es[..n + 1]) <==> NeverStale(s0, es[..n]) && follows)
    ensures follows ==> fresh(Reached(client) - old(Reached(client)))
  {
    NextRun(max, retry, script, es, n);
    StaleNext(Initial(max, retry, script), es, n);
    ghost var (s, stale) := (Run(Initial(max, retry, script), es[..n]), Stale(Initial(max, retry, script), es[..n]));
    follows := Follow(client, s, es[n], stale);
  }

  /** What is proved of the runs of the engine holds of the lists through every sequence of
      events in which no message is listed while the tail pointer is stale, the accounts of
      the messages published and received among them. In every other one they part with the
      engine at the first such message: `done` events go before it. */
  method Execute(max: nat, retry: nat, script: seq<bool>, es: seq<Event>) returns (client: Client, done: nat)
    ensures done <= |es| && NeverStale(Initial(max, retry, script), es[..done])
    ensures done == |es| <==> NeverStale(Initial(max, retry, script), es)
    ensures done == |es| ==> client.Valid() && client.View() == Run(Initial(max, retry, script), es)
    ensures done == |es| ==> Accounted(client.View()) && Held(client.View())
    ensures done == |es| ==> forall mid :: Got(client.View(), mid) == ArrivedWith(es, mid)
    ensures done < |es| ==> Lists(es[done]) && Stale(Initial(max, retry, script), es[..done])
                            && Parted(client, Run(Initial(max, retry, script), es[..done + 1]))
  {
    RunAccounted(max, retry, script, es);
    IncomingAlwaysQos2(max, retry, script, es);
    client := new Client(max, retry, script);
    assert Reached(client) == {};
    done := FollowFrom(client, max, retry, script, es, 0);
  }

  /** How far the lists have followed the engine. */
  ghost predicate Followed(client: Client, s0: State, es: seq<Event>, done: nat)
    reads client, client.out, client.out.nodes, client.inn, client.inn.nodes
  {
    && done <= |es| && NeverStale(s0, es[..done]) && (done == |es| <==> NeverStale(s0, es))
    && (done == |es| ==> client.Valid() && client.View() == Run(s0, es))
    && (done < |es| ==> Lists(es[done]) && Stale(s0, es[..done]) && Parted(client, Run(s0, es[..done + 1])))
  }

  /** The events from the n-th on, up to the one at which the lists part. */
  method FollowFrom(client: Client, max: nat, retry: nat, ghost script: seq<bool>, es: seq<Event>, n: nat)
    returns (done: nat)
    requires n <= |es| && NeverStale(Initial(max, retry, script), es[..n])
    requires var s0 := Initial(max, retry, script); Stands(client, Run(s0, es[..n]), Stale(s0, es[..n]))
    modifies client, client.out, client.inn, Reached(client)
    ensures Followed(client, Initial(max, retry, script), es, done)
    decreases |es| - n
  {
    done := n;
    assert es[..|es|] == es;
    if n < |es| {
      var follows := FollowRun(client, max, retry, script, es, n);
      if follows {
        done := FollowFrom(client, max, retry, script, es, n + 1);
      } else {
        PartedBefore(Initial(max, retry, script), es, n);
      }
    }
  }

  lemma PartedBefore(s0: State, es: seq<Event>, n: nat)
    requires n < |es| && !NeverStale(s0, es[..n + 1])
    ensures !NeverStale(s0, es)
  {
    if NeverStale(s0, es) { NeverStaleFront(s0, es, n + 1); }
  }

  /** When they part, a published message is in none of the three places of Accounted: it is not
      listed, and neither acknowledged nor dropped. */
  lemma PartedUnaccounted(s: State, v: State)
    requires Accounted(s) && |s.out| == 1 && v == s.(out := [], inn := v.inn)
    ensures multiset(v.published) == multiset(Contents(v.out)) + multiset(v.acked) + multiset(v.dropped)
                                     + multiset{s.out[0].content}
    ensures v.outLen == 1 && !Accounted(v)
  {
    assert Contents(s.out) == [s.out[0].content];
    assert multiset(Contents(s.out)) == multiset{s.out[0].content};
    assert |v.out| == 0;
  }
}
