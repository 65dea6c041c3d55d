/** The message lists of messages_mosq.c as linked lists with tail pointers and length
    counters, and the operations on them, each proved against its counterpart in Engine. The
    two lists of the client structure have the same fields and the same list code, so they
    are two objects of one class here. The tail pointer of an empty outgoing list need not be
    null: behind a reset it can be the last incoming message, and a message published then is
    linked behind that one (EnqueueStale). */
module MessageLists {
  import opened Codec
  import Topics
  import opened Engine

  class Message {
    var next: Message?
    var timestamp: int
    var state: MsgState
    var dup: bool
    const content: Content

    constructor (content: Content, state: MsgState, dup: bool, timestamp: int)
      ensures next == null && Value() == Msg(content, state, dup, timestamp)
    {
      next := null;
      this.content, this.state, this.dup, this.timestamp := content, state, dup, timestamp;
    }

    ghost function Value(): Msg
      reads this
    {
      Msg(content, state, dup, timestamp)
    }
  }

  /** Where a loop that turns `from` into `to` front to back, one element at a time, is after
      k of them. */
  ghost predicate Halfway(ms: seq<Msg>, from: seq<Msg>, to: seq<Msg>, k: nat) {
    && |ms| == |from| == |to| && k <= |from|
    && forall i :: 0 <= i < |ms| ==> ms[i] == if i < k then to[i] else from[i]
  }

  lemma HalfwayNext(ms: seq<Msg>, from: seq<Msg>, to: seq<Msg>, k: nat, m: Msg)
    requires Halfway(ms, from, to, k) && k < |ms| && (ms[k] == from[k] ==> m == to[k])
    ensures ms[k] == from[k] && Halfway(ms[k := m], from, to, k + 1)
  {
  }

  lemma WithoutWithin<T>(ts: seq<T>, i: nat)
    requires i < |ts|
    ensures forall t :: t in Without(ts, i) ==> t in ts
  {
  }

  /** The node at a position, or null outside the list; and the one behind it. */
  function NodeAt(nodes: seq<Message>, i: int): Message? {
    if 0 <= i < |nodes| then nodes[i] else null
  }

  function NextOf(nodes: seq<Message>, i: int): Message? {
    NodeAt(nodes, i + 1)
  }

  predicate AllNodesTwo(nodes: seq<Message>) {
    forall i :: 0 <= i < |nodes| ==> nodes[i].content.qos == 2
  }

  /** Some messages were taken out, none with QoS 2 only. */
  ghost predicate Shrunk(nodes: seq<Message>, before: seq<Message>) {
    (forall m :: m in nodes ==> m in before) && (AllNodesTwo(before) ==> nodes == before)
  }

  lemma ShrunkOn(a: seq<Message>, b: seq<Message>, k: nat, c: seq<Message>)
    requires Shrunk(b, a) && k < |b|
    requires c == if b[k].content.qos == 2 then b else Without(b, k)
    ensures Shrunk(c, a)
  {
    assert b[k].content.qos != 2 ==> !AllNodesTwo(b);
    assert forall m :: m in Without(b, k) ==> m in b;
  }

  /** Where a node is, or the length. */
  ghost function PlaceOf(nodes: seq<Message>, m: Message?): (i: nat)
    ensures i <= |nodes| && (i < |nodes| ==> nodes[i] == m) && forall k :: 0 <= k < i ==> nodes[k] != m
  {
    if nodes == [] || nodes[0] == m then 0 else 1 + PlaceOf(nodes[1..], m)
  }

  /** The list in which m was linked behind t: what stood behind t is cut off. */
  ghost function LinkedBehind(nodes: seq<Message>, t: Message?, m: Message): seq<Message> {
    CutBehind(nodes, PlaceOf(nodes, t), m)
  }

  function CutBehind<T>(ts: seq<T>, i: nat, t: T): seq<T> {
    if i < |ts| then ts[..i + 1] + [t] else ts
  }

  /** The values of that list, when only those of m change. */
  lemma CutChanged(
      nodes: seq<Message>, values: seq<Msg>, t: Message?, m: Message, a: seq<Msg>, v: Msg, b: seq<Msg>, v': Msg)
    requires m !in nodes && |values| == |nodes| && a == CutBehind(values, PlaceOf(nodes, t), v)
    requires var ns := LinkedBehind(nodes, t, m);
             |b| == |ns| && forall k :: 0 <= k < |ns| ==> b[k] == if ns[k] == m then v' else a[k]
    ensures b == CutBehind(values, PlaceOf(nodes, t), v')
  {
    var (i, ns) := (PlaceOf(nodes, t), LinkedBehind(nodes, t, m));
    assert forall k :: 0 <= k < |ns| ==> (ns[k] == m <==> i < |nodes| && k == i + 1);
  }

  class MessageList {
    var first: Message?
    var last: Message?
    var len: int

    ghost var nodes: seq<Message>

    /** The pointers from `first` on form the list `nodes`. */
    ghost predicate Valid()
      reads this, nodes
    {
      && first == NodeAt(nodes, 0)
      && (forall i {:trigger NextOf(nodes, i)} :: 0 <= i < |nodes| ==> nodes[i].next == NextOf(nodes, i))
      && (forall i, j :: 0 <= i < j < |nodes| ==> nodes[i] != nodes[j])
    }

    /** The tail pointer is the end of the list. */
    ghost predicate Tailed()
      reads this
    {
      last == NodeAt(nodes, |nodes| - 1)
    }

    ghost function Values(): (ms: seq<Msg>)
      reads this, nodes
      ensures |ms| == |nodes| && forall k :: 0 <= k < |nodes| ==> ms[k] == nodes[k].Value()
    {
      seq(|nodes|, k requires 0 <= k < |nodes| reads this, nodes => nodes[k].Value())
    }

    /** A list none of whose objects changed. */
    twostate lemma Untouched()
      requires old(Valid()) && unchanged(this) && forall k :: 0 <= k < |nodes| ==> unchanged(nodes[k])
      ensures Valid() && Values() == old(Values())
    {
    }

    /** The pointers form the list cut behind t. */
    lemma Cut(before: seq<Message>, values: seq<Msg>, t: Message, m: Message)
      requires nodes == LinkedBehind(before, t, m) && first == NodeAt(before, 0) && m !in before && m != t
      requires t.next == m && m.next == null && |values| == |before|
      requires forall i, j :: 0 <= i < j < |before| ==> before[i] != before[j]
      requires forall j :: 0 <= j < |before| && before[j] != t ==> before[j].next == NextOf(before, j)
      requires forall j :: 0 <= j < |before| ==> before[j].Value() == values[j]
      ensures Valid() && Values() == CutBehind(values, PlaceOf(before, t), m.Value())
    {
      forall j | 0 <= j < |nodes| ensures nodes[j].next == NextOf(nodes, j) {
        assert j < |before| ==> NextOf(before, j) == NodeAt(before, j + 1);
      }
    }

    constructor ()
      ensures Valid() && Tailed() && nodes == [] && len == 0
    {
      first, last, len := null, null, 0;
      nodes := [];
    }

    /** One step along the list. */
    lemma Next(k: nat)
      requires Valid() && k < |nodes|
      ensures nodes[k].next == NodeAt(nodes, k + 1)
    {
      assert NextOf(nodes, k) == NodeAt(nodes, k + 1);
    }

    /** The list half of _mosquitto_message_queue. When the list is empty and the tail pointer is
        not null, the message is linked behind whatever that points to, and the list stays
        empty. */
    method Append(m: Message)
      requires Valid() && (Tailed() || nodes == []) && m !in nodes && m != last
      modifies this, m`next, nodes, if nodes == [] && last != null then {last} else {}
      ensures Valid() && len == old(len) + 1 && last == m && m.next == null && m.Value() == old(m.Value())
      ensures old(Tailed()) ==> Tailed() && nodes == old(nodes) + [m] && Values() == old(Values()) + [m.Value()]
      ensures !old(Tailed()) ==>
                nodes == [] && first == null && old(last).next == m && old(last).Value() == old(last.Value())
    {
      len := len + 1;
      m.next := null;
      ghost var tailed := Tailed();
      if last != null {
        last.next := m;
      } else {
        first := m;
      }
      last := m;
      if tailed {
        ghost var before := nodes;
        nodes := nodes + [m];
        forall i | 0 <= i < |nodes| ensures nodes[i].next == NextOf(nodes, i) {
          assert i < |before| - 1 ==> NextOf(before, i) == nodes[i + 1];
        }
      }
    }

    /** The loop of _mosquitto_messages_reconnect_reset over the incoming list. A message that
        does not have QoS 2 is taken out; when it is the first, the one behind it is passed
        over, and if there is none the source follows a null pointer: the result false. What
        is left in `prev` goes into the tail pointer, and on into the loop over the outgoing
        list. */
    method ResetTimes() returns (prev: Message?, ok: bool)
      requires Valid()
      modifies this, nodes
      ensures ok <==> Walk(old(Values()), 0, 0).Some?
      ensures ok ==> Valid() && Tailed() && prev == last
      ensures ok ==> Walk(old(Values()), 0, 0) == Some((Values(), len))
      ensures Shrunk(nodes, old(nodes))
    {
      ghost var (before, from) := (nodes, Values());
      var message := first;
      prev, ok := null, true;
      SetLen(0);
      ghost var k: nat := 0;
      while message != null
        invariant Valid() && k <= |nodes| && message == NodeAt(nodes, k) && prev == NodeAt(nodes, k - 1)
        invariant Walk(Values(), k, len) == Walk(from, 0, 0)
        invariant Shrunk(nodes, before)
        decreases |nodes| - k
      {
        assert message in before && (prev != null ==> prev in nodes && prev in before);
        ghost var (nodes1, k1) := (nodes, k);
        message, prev, ok, k := ResetStep(message, prev, k);
        ShrunkOn(before, nodes1, k1, nodes);
        if !ok {
          return null, false;
        }
      }
      SetLast(prev);
    }

    /** The loop body: one turn, and on to the message behind it, at position n. */
    method ResetStep(m: Message, before: Message?, ghost k: nat)
      returns (message: Message?, prev: Message?, ok: bool, ghost n: nat)
      requires Valid() && k < |nodes| && m == nodes[k] && before == NodeAt(nodes, k - 1)
      modifies this`len, this`first, this`nodes, m`timestamp, if before == null then {} else {before}
      ensures ok ==> Valid() && n <= |nodes| && |nodes| - n < old(|nodes|) - k
      ensures ok ==> message == NodeAt(nodes, n) && prev == NodeAt(nodes, n - 1)
      ensures ok ==> Walk(old(Values()), k, old(len)) == Walk(Values(), n, len)
      ensures !ok ==> Walk(old(Values()), k, old(len)) == None
      ensures nodes == if m.content.qos == 2 then old(nodes) else Without(old(nodes), k)
    {
      prev, ok, n := ResetTurn(m, before, k);
      message := null;
      if ok {
        Next(n);
        message, n := prev.next, n + 1;
      }
    }

    /** One turn. The result is the message that becomes `prev`, at position n. */
    method ResetTurn(m: Message, prev: Message?, ghost k: nat) returns (message: Message?, ok: bool, ghost n: nat)
      requires Valid() && k < |nodes| && m == nodes[k] && prev == NodeAt(nodes, k - 1)
      modifies this`len, this`first, this`nodes, m`timestamp, if prev == null then {} else {prev}
      ensures ok ==> Valid() && n < |nodes| && message == nodes[n] && |nodes| - n < old(|nodes|) - k + 1
      ensures ok ==> Walk(old(Values()), k, old(len)) == Walk(Values(), n + 1, len)
      ensures !ok ==> Walk(old(Values()), k, old(len)) == None
      ensures nodes == if m.content.qos == 2 then old(nodes) else Without(old(nodes), k)
    {
      ghost var from := Values();
      WalkTurn(from, k, len);
      ResetTime(m, k);
      message, ok, n := m, true, k;
      if m.content.qos != 2 {
        message, ok, n := ResetDrop(m, prev, k);
        assert Values() == Without(from, k);
      }
    }

    /** The branch that takes a message out. */
    method ResetDrop(m: Message, prev: Message?, ghost k: nat) returns (message: Message?, ok: bool, ghost n: nat)
      requires Valid() && k < |nodes| && m == nodes[k] && prev == NodeAt(nodes, k - 1)
      modifies this`first, this`nodes, if prev == null then {} else {prev}
      ensures Valid() && nodes == Without(old(nodes), k) && Values() == Without(old(Values()), k)
      ensures (ok <==> k > 0 || |old(nodes)| > 1) && n == if k > 0 then k - 1 else 0
      ensures ok ==> n < |nodes| && message == nodes[n]
    {
      Bypass(m, prev, k);
      if prev != null {
        message, ok, n := prev, true, k - 1;
      } else {
        message, ok, n := first, first != null, 0;
      }
    }

    method ResetTime(m: Message, ghost k: nat)
      requires Valid() && k < |nodes| && m == nodes[k]
      modifies this`len, m`timestamp
      ensures Valid() && len == old(len) + 1
      ensures Values() == old(Values())[k := old(Values())[k].(timestamp := 0)]
    {
      len := len + 1;
      m.timestamp := 0;
      assert Values() == old(Values())[k := old(Values())[k].(timestamp := 0)];
    }

    /** The assignments around the reset loops: the counter starts again from 0, and the tail
        pointer is set to the last message walked. */
    method SetLen(n: int)
      requires Valid()
      modifies `len
      ensures Valid() && Values() == old(Values()) && len == n
    {
      len := n;
    }

    method SetLast(m: Message?)
      requires Valid()
      modifies `last
      ensures Valid() && Values() == old(Values()) && last == m
    {
      last := m;
    }

    /** The search of _mosquitto_message_remove, with the node before the one found. */
    method Search(mid: uint16) returns (cur: Message?, prev: Message?, ghost k: nat)
      requires Valid()
      ensures var i := Find(Values(), mid);
              cur == NodeAt(nodes, i) && prev == NodeAt(nodes, i - 1)
      ensures k == Find(Values(), mid)
    {
      cur, prev, k := first, null, 0;
      ghost var values := Values();
      while cur != null
        invariant k <= |nodes| && cur == NodeAt(nodes, k)
        invariant prev == NodeAt(nodes, k - 1)
        invariant k + Find(values[k..], mid) == Find(values, mid)
        decreases |nodes| - k
      {
        assert values[k..][0] == cur.Value() && values[k..][1..] == values[k + 1..];
        if cur.content.mid == mid {
          return;
        }
        prev := cur;
        Next(k);
        cur := cur.next;
        k := k + 1;
      }
    }

    /** Leads the pointers around node k. Nothing but `next` changes in the nodes. */
    method Bypass(cur: Message, prev: Message?, ghost k: nat)
      requires Valid() && k < |nodes| && cur == nodes[k] && prev == NodeAt(nodes, k - 1)
      modifies this`first, this`nodes, if prev == null then {} else {prev}
      ensures prev != null ==> prev.Value() == old(prev.Value())
      ensures Valid() && nodes == Without(old(nodes), k)
      ensures Values() == Without(old(Values()), k) && cur.Value() == old(cur.Value())
    {
      ghost var (before, values) := (nodes, Values());
      BypassPointers(cur, prev, k);
      assert forall i :: 0 <= i < |nodes| ==> nodes[i] == before[if i < k then i else i + 1];
      assert forall i :: 0 <= i < |before| ==> before[i].Value() == values[i];
    }

    method BypassPointers(cur: Message, prev: Message?, ghost k: nat)
      requires Valid() && k < |nodes| && cur == nodes[k] && prev == NodeAt(nodes, k - 1)
      modifies this`first, this`nodes, if prev == null then {} else {prev}
      ensures prev != null ==> prev.Value() == old(prev.Value())
      ensures Valid() && nodes == Without(old(nodes), k)
    {
      ghost var before := nodes;
      assert NextOf(nodes, k) == NodeAt(nodes, k + 1);
      if prev != null {
        prev.next := cur.next;
      } else {
        first := cur.next;
      }
      nodes := Without(nodes, k);
      assert forall i :: 0 <= i < |nodes| ==> nodes[i] == before[if i < k then i else i + 1];
      forall i | 0 <= i < |nodes| ensures nodes[i].next == NextOf(nodes, i) {
        var j := if i < k then i else i + 1;
        assert NextOf(before, j) == NodeAt(before, j + 1);
      }
    }

    /** Takes node k out of the list. */
    method Detach(cur: Message, prev: Message?, ghost k: nat)
      requires Valid() && k < |nodes| && cur == nodes[k] && prev == NodeAt(nodes, k - 1)
      modifies this, nodes
      ensures Valid() && nodes == Without(old(nodes), k) && len == old(len) - 1
      ensures Values() == Without(old(Values()), k) && cur.Value() == old(cur.Value())
      ensures old(Tailed()) ==> Tailed()
    {
      assert NextOf(nodes, k) == NodeAt(nodes, k + 1);
      Bypass(cur, prev, k);
      SetLen(len - 1);
      if cur.next == null {
        SetLast(prev);
      } else if first == null {
        // The source sets the tail to null here. A list with a node behind the removed one is
        // not empty, so the branch is dead.
        assert false;
      }
    }

    /** The search and unlink of _mosquitto_message_remove. */
    method Unlink(mid: uint16) returns (found: Message?)
      requires Valid()
      modifies this, nodes
      ensures Valid()
      ensures var i := Find(old(Values()), mid);
              if i == |old(nodes)|
              then found == null && nodes == old(nodes) && Values() == old(Values()) && len == old(len)
              else found == old(nodes)[i] && nodes == Without(old(nodes), i) && len == old(len) - 1
                   && Values() == Without(old(Values()), i) && found.Value() == old(Values())[i]
      ensures forall m :: m in nodes ==> m in old(nodes)
      ensures (old(Tailed()) ==> Tailed()) && (old(nodes) == [] ==> last == old(last))
    {
      var cur, prev;
      ghost var k;
      cur, prev, k := Search(mid);
      if cur == null {
        return null;
      }
      Detach(cur, prev, k);
      WithoutWithin(old(nodes), k);
      found := cur;
    }
  }

  /** The walk of the reset over the incoming list `ms`, from position k on, when `len` messages
      were counted before; None is the null pointer. */
  function Walk(ms: seq<Msg>, k: nat, len: int): Option<(seq<Msg>, int)>
    decreases |ms| - k
  {
    if k >= |ms| then Some((ms, len))
    else if ms[k].content.qos == 2 then Walk(ms[k := ms[k].(timestamp := 0)], k + 1, len + 1)
    else if k > 0 then Walk(Without(ms, k), k, len + 1)
    else if |ms| == 1 then None
    else Walk(ms[1..], 1, len + 1)
  }

  /** One turn of the walk, with the timestamp set first. */
  lemma WalkTurn(ms: seq<Msg>, k: nat, len: int)
    requires k < |ms|
    ensures var ms' := ms[k := ms[k].(timestamp := 0)];
            && |ms'| == |ms| && Without(ms', k) == Without(ms, k) && (k == 0 ==> Without(ms', k) == ms[1..])
            && Walk(ms, k, len) == if ms[k].content.qos == 2 then Walk(ms', k + 1, len + 1)
                                   else if k == 0 && |ms| == 1 then None
                                   else Walk(Without(ms', k), if k > 0 then k else 1, len + 1)
  {
    var ms' := ms[k := ms[k].(timestamp := 0)];
    assert Without(ms', k) == Without(ms, k);
    assert Without(ms, 0) == ms[1..];
  }

  /** The QoS 2 messages of a list, with their timestamps reset. */
  function Kept(ms: seq<Msg>): seq<Msg> {
    if ms == [] then []
    else (if ms[0].content.qos == 2 then [ms[0].(timestamp := 0)] else []) + Kept(ms[1..])
  }

  lemma {:induction false} WalkKeeps(ms: seq<Msg>, k: nat, len: int)
    requires 0 < k <= |ms|
    ensures Walk(ms, k, len) == Some((ms[..k] + Kept(ms[k..]), len + |ms| - k))
    decreases |ms| - k
  {
    if k == |ms| {
      assert ms[..k] + [] == ms;
    } else if ms[k].content.qos == 2 {
      var ms' := ms[k := ms[k].(timestamp := 0)];
      WalkKeeps(ms', k + 1, len + 1);
      assert ms'[k + 1..] == ms[k..][1..] && ms[k..][0] == ms[k];
      assert ms'[..k + 1] == ms[..k] + [ms'[k]];
      assert ms[..k] + [ms'[k]] + Kept(ms'[k + 1..]) == ms[..k] + ([ms'[k]] + Kept(ms'[k + 1..]));
    } else {
      var (ms', rest) := (Without(ms, k), ms[k..]);
      assert |ms'| == |ms| - 1 && ms'[k..] == rest[1..] && ms'[..k] == ms[..k] && rest[0] == ms[k];
      WalkKeeps(ms', k, len + 1);
      assert Kept(rest) == [] + Kept(rest[1..]) == Kept(rest[1..]);
      assert Walk(ms, k, len) == Walk(ms', k, len + 1);
    }
  }

  /** What the reset makes of any incoming list: the messages of QoS 2 are left, all others
      gone, except that the one behind a first message without QoS 2 is left as it is. It
      fails exactly on a single message without QoS 2. The counter counts those taken out as
      well, but not the one passed over. */
  lemma WalkExactly(ms: seq<Msg>)
    ensures Walk(ms, 0, 0) ==
            if ms == [] || ms[0].content.qos == 2 then Some((Kept(ms), |ms|))
            else if |ms| == 1 then None
            else Some(([ms[1]] + Kept(ms[2..]), |ms| - 1))
  {
    if ms == [] {
    } else if ms[0].content.qos == 2 {
      WalkTwo(ms);
    } else if |ms| > 1 {
      WalkOther(ms);
    }
  }

  lemma WalkTwo(ms: seq<Msg>)
    requires ms != [] && ms[0].content.qos == 2
    ensures Walk(ms, 0, 0) == Some((Kept(ms), |ms|))
  {
    var ms' := ms[0 := ms[0].(timestamp := 0)];
    WalkTurn(ms, 0, 0);
    WalkKeeps(ms', 1, 1);
    assert ms'[..1] == [ms'[0]] && ms'[1..] == ms[1..];
  }

  lemma WalkOther(ms: seq<Msg>)
    requires |ms| > 1 && ms[0].content.qos != 2
    ensures Walk(ms, 0, 0) == Some(([ms[1]] + Kept(ms[2..]), |ms| - 1))
  {
    WalkTurn(ms, 0, 0);
    WalkKeeps(ms[1..], 1, 1);
    assert ms[1..][..1] == [ms[1]] && ms[1..][1..] == ms[2..];
  }

  predicate AllTwo(ms: seq<Msg>) {
    forall k :: 0 <= k < |ms| ==> ms[k].content.qos == 2
  }

  lemma {:induction false} KeptAll(ms: seq<Msg>)
    requires AllTwo(ms)
    ensures Kept(ms) == ResetIn(ms)
  {
    if ms == [] {
    } else {
      assert AllTwo(ms[1..]) by { assert forall k :: 0 <= k < |ms| - 1 ==> ms[1..][k] == ms[k + 1]; }
      KeptAll(ms[1..]);
      assert forall k :: 0 < k < |ms| ==> Kept(ms)[k] == ResetIn(ms[1..])[k - 1] == ResetIn(ms)[k];
    }
  }

  /** A list of QoS 2 messages is walked as the engine says. */
  lemma WalkAllTwo(ms: seq<Msg>)
    requires AllTwo(ms)
    ensures Walk(ms, 0, 0) == Some((ResetIn(ms), |ms|))
  {
    WalkExactly(ms);
    KeptAll(ms);
  }

  /** The reset of both lists, whatever is in the incoming one. */
  ghost predicate ResetTo(s: State, s': State) {
    && Walk(s.inn, 0, 0) == Some((s'.inn, s'.inLen))
    && s' == s.(out := ResetOut(s.out, s.max), outLen := |s.out|, inflight := Counted(s.out),
                inn := s'.inn, inLen := s'.inLen)
  }

  lemma ResetBoth(s: State, s1: State, s2: State)
    requires Walk(s.inn, 0, 0) == Some((s1.inn, s1.inLen)) && s1 == s.(inn := s1.inn, inLen := s1.inLen)
    requires s2 == s1.(out := ResetOut(s1.out, s1.max), outLen := |s1.out|, inflight := Counted(s1.out))
    ensures ResetTo(s, s2)
  {
  }

  lemma ResetTwo(s: State, s': State)
    requires AllTwo(s.inn)
    ensures Walk(s.inn, 0, 0).Some? && (ResetTo(s, s') ==> s' == Reset(s))
  {
    WalkAllTwo(s.inn);
  }

  lemma CountedNext(ms: seq<Msg>, k: nat)
    requires k < |ms|
    ensures Counted(ms[..k + 1]) == Counted(ms[..k]) + if ms[k].content.qos > 0 then 1 else 0
  {
    assert ms[..k + 1][..k] == ms[..k];
  }

  /** The reset loop over the outgoing list `from`, after k messages. */
  ghost predicate ResetSoFar(ms: seq<Msg>, counted: int, from: seq<Msg>, max: nat, k: nat) {
    k <= |from| && Halfway(ms, from, ResetOut(from, max), k) && counted == Counted(from[..k])
  }

  lemma ResetStart(from: seq<Msg>, max: nat)
    ensures ResetSoFar(from, 0, from, max, 0)
  {
    assert from[..0] == [];
  }

  lemma ResetTurn(ms: seq<Msg>, counted: int, from: seq<Msg>, max: nat, k: nat)
    requires ResetSoFar(ms, counted, from, max, k) && k < |ms|
    ensures var counted' := counted + if ms[k].content.qos > 0 then 1 else 0;
            ResetSoFar(ms[k := ResetMsg(ms[k], counted', max)], counted', from, max, k + 1)
  {
    CountedNext(from, k);
    ResetOutPoint(from, max, k);
  }

  lemma ResetEnd(ms: seq<Msg>, counted: int, from: seq<Msg>, max: nat)
    requires ResetSoFar(ms, counted, from, max, |from|)
    ensures ms == ResetOut(from, max) && counted == Counted(from)
  {
    assert from[..|from|] == from;
  }

  /** _mosquitto_message_queue, direction out, and the step that follows it when it finds
      room, on values. */
  ghost function Listed(s: State, m: Msg): State {
    s.(out := s.out + [m], outLen := s.outLen + 1, inflight := if HasRoom(s) then s.inflight + 1 else s.inflight)
  }

  ghost function Activated(s: State, k: nat): State
    requires k < |s.out|
  {
    s.(out := s.out[k := s.out[k].(state := FirstWait(s.out[k].content.qos))])
  }

  ghost function WithPublished(s: State, c: Content): State {
    s.(published := s.published + [c])
  }

  ghost function ListedThenStarted(s: State, m: Msg): State {
    if HasRoom(s) then Send(Activated(Listed(s, m), |s.out|), SentPublish(m.content, m.dup)) else Listed(s, m)
  }

  lemma ListedThenSent(s: State, content: Content, now: int)
    ensures PublishListed(s, content, now)
         == ListedThenStarted(WithPublished(s, content), Msg(content, Invalid, false, now))
  {
    var (m, m') := (Msg(content, Invalid, false, now), Msg(content, FirstWait(content.qos), false, now));
    assert (s.out + [m])[|s.out| := m'] == s.out + [m'];
  }

  /** From s the message m was counted, and started as m' if there was room; it is not listed. */
  ghost predicate ListedStale(s: State, m: Msg, s': State, m': Msg, inn: seq<Msg>) {
    var s1 := s.(outLen := s.outLen + 1, inn := inn);
    if HasRoom(s) then
      && m' == m.(state := FirstWait(m.content.qos))
      && s' == Send(s1.(inflight := s1.inflight + 1), SentPublish(m.content, m.dup))
    else m' == m && s' == s1
  }

  lemma StartedStale(s: State, s1: State, m: Msg, s': State, m': Msg, inn: seq<Msg>)
    requires s1 == s.(outLen := s.outLen + 1, inn := s1.inn)
    requires if HasRoom(s1) then
               && m' == m.(state := FirstWait(m.content.qos))
               && s' == Send(s1.(inflight := s1.inflight + 1), SentPublish(m.content, m.dup)).(inn := inn)
             else m' == m && s' == s1 && inn == s1.inn
    ensures ListedStale(s, m, s', m', inn)
  {
  }

  lemma PublishedStale(s: State, c: Content, now: int, s': State, m: Msg, inn: seq<Msg>)
    requires s.out == [] && c.qos > 0
    requires var content := c.(mid := NextMid(s.lastMid));
             var listing := WithPublished(s.(lastMid := content.mid), content);
             ListedStale(listing, Msg(content, Invalid, false, now), s', m, inn)
    ensures [m] == Engine.Publish(s, c, now).out && s' == Engine.Publish(s, c, now).(out := [], inn := inn)
  {
  }

  /** The bytes of a topic as the characters the topic functions look at. */
  function Text(bs: seq<byte>): (s: string)
    ensures |s| == |bs| && forall k :: 0 <= k < |bs| ==> s[k] == bs[k] as char
  {
    seq(|bs|, k requires 0 <= k < |bs| => bs[k] as char)
  }

  lemma TextIsCString(bs: seq<byte>)
    requires 0 !in bs
    ensures '\0' !in Text(bs)
  {
    forall k | 0 <= k < |bs| ensures Text(bs)[k] != '\0' { assert bs[k] in bs; }
  }

  /** A retry pass over the list `from`, after k messages: what it made of the list, of the
      log of packets and of the script. */
  ghost predicate RetrySoFar(ms: seq<Msg>, sends: seq<Sent>, from: seq<Msg>, retry: nat, now: int, k: nat) {
    k <= |from| && Halfway(ms, from, RetryList(from, retry, now), k) && sends == RetrySends(from[..k], retry, now)
  }

  lemma RetryStart(from: seq<Msg>, retry: nat, now: int)
    ensures RetrySoFar(from, [], from, retry, now, 0)
  {
    assert from[..0] == [];
  }

  lemma RetryTurn(ms: seq<Msg>, sends: seq<Sent>, from: seq<Msg>, retry: nat, now: int, k: nat)
    requires RetrySoFar(ms, sends, from, retry, now, k) && k < |ms|
    ensures RetrySoFar(ms[k := RetryMsg(ms[k], retry, now)], sends + RetryOne(ms[k], retry, now),
                       from, retry, now, k + 1)
  {
    assert from[..k + 1][..k] == from[..k];
  }

  lemma RetryEnd(ms: seq<Msg>, sends: seq<Sent>, from: seq<Msg>, retry: nat, now: int)
    requires RetrySoFar(ms, sends, from, retry, now, |from|)
    ensures ms == RetryList(from, retry, now) && sends == RetrySends(from, retry, now)
  {
    assert from[..|from|] == from;
  }

  /** A log and a script after the packets `sends`. */
  ghost predicate Logged(logs: State, script: seq<bool>, sends: seq<Sent>, logs0: State, script0: seq<bool>) {
    logs == logs0.(sent := logs0.sent + sends) && script == DropScript(script0, |sends|)
  }

  lemma LoggedStart(logs: State, script: seq<bool>)
    ensures Logged(logs, script, [], logs, script)
  {
    assert logs.sent + [] == logs.sent;
  }

  lemma LoggedAdd(logs2: State, script2: seq<bool>, more: seq<Sent>, logs1: State, script1: seq<bool>, sends: seq<Sent>,
                  logs0: State, script0: seq<bool>)
    requires Logged(logs1, script1, sends, logs0, script0) && Logged(logs2, script2, more, logs1, script1)
    ensures Logged(logs2, script2, sends + more, logs0, script0)
  {
    DropScriptAdds(script0, |sends|, |more|);
    assert logs0.sent + sends + more == logs0.sent + (sends + more);
  }

  /** The two passes of a retry, on values. */
  ghost function RetriedOut(s: State, now: int): State {
    var sends := RetrySends(s.out, s.retry, now);
    s.(out := RetryList(s.out, s.retry, now), sent := s.sent + sends, script := DropScript(s.script, |sends|))
  }

  ghost function RetriedIn(s: State, now: int): State {
    var sends := RetrySends(s.inn, s.retry, now);
    s.(inn := RetryList(s.inn, s.retry, now), sent := s.sent + sends, script := DropScript(s.script, |sends|))
  }

  lemma RetryInTwo(s: State, now: Clock)
    ensures RetriedIn(RetriedOut(s, now.out), now.inn) == Engine.Retry(s, now)
  {
    var (outs, inns) := (RetrySends(s.out, s.retry, now.out), RetrySends(s.inn, s.retry, now.inn));
    DropScriptAdds(s.script, |outs|, |inns|);
    assert s.sent + outs + inns == s.sent + (outs + inns);
  }

  lemma DropScriptAdds(script: seq<bool>, a: nat, b: nat)
    ensures DropScript(DropScript(script, a), b) == DropScript(script, a + b)
  {
    if a + b < |script| { assert script[a..][b..] == script[a + b..]; }
  }

  ghost function DetachedOut(s: State, i: nat): State
    requires i < |s.out|
  {
    s.(out := Without(s.out, i), outLen := s.outLen - 1)
  }

  ghost function DetachedIn(s: State, i: nat): State
    requires i < |s.inn|
  {
    s.(inn := Without(s.inn, i), inLen := s.inLen - 1)
  }

  class Client {
    const out: MessageList
    const inn: MessageList
    var inflightMessages: int
    const maxInflightMessages: nat
    const messageRetry: nat
    var lastMid: uint16
    /** How the sends to come turn out. */
    var script: seq<bool>
    /** The logs of Engine.State; its other fields are not used. */
    ghost var logs: State

    ghost predicate Valid()
      reads out, out.nodes, inn, inn.nodes
    {
      && out != inn && out.Valid() && inn.Valid()
      && (forall m :: m in out.nodes ==> m !in inn.nodes)
    }

    /** The state of the engine that these fields stand for. */
    ghost function View(): State
      reads this, out, out.nodes, inn, inn.nodes
    {
      logs.(out := out.Values(), inn := inn.Values(), outLen := out.len, inLen := inn.len,
            inflight := inflightMessages, max := maxInflightMessages, retry := messageRetry,
            lastMid := lastMid, script := script)
    }

    constructor (maxInflightMessages: nat, messageRetry: nat, script: seq<bool>)
      ensures Valid() && View() == Initial(maxInflightMessages, messageRetry, script)
      ensures fresh(out) && fresh(inn) && out.Tailed() && inn.Tailed() && out.nodes == [] && inn.nodes == []
    {
      out := new MessageList();
      inn := new MessageList();
      inflightMessages, lastMid := 0, 0;
      this.maxInflightMessages, this.messageRetry, this.script := maxInflightMessages, messageRetry, script;
      logs := Initial(maxInflightMessages, messageRetry, script);
    }

    /** One of the _mosquitto_send functions. */
    method SendPacket(ghost p: Sent) returns (ok: bool)
      requires Valid()
      modifies this`script, this`logs
      ensures Valid() && View() == Send(old(View()), p) && ok == SendOk(old(View()))
    {
      ok := script == [] || script[0];
      script := if script == [] then [] else script[1..];
      logs := logs.(sent := logs.sent + [p]);
    }

    /** util_mosq.c, _mosquitto_mid_generate: the increment of a 16-bit number, skipping 0. */
    method MidGenerate() returns (mid: uint16)
      modifies this`lastMid
      ensures mid == lastMid == NextMid(old(lastMid))
    {
      lastMid := (lastMid + 1) % 0x1_0000;
      if lastMid == 0 {
        lastMid := (lastMid + 1) % 0x1_0000;
      }
      mid := lastMid;
    }

    // -------------------------------------------------------------- publishing

    /** _mosquitto_message_queue, direction out. False is the source's 1: the window is full. */
    method QueueOut(m: Message) returns (start: bool)
      requires Valid() && out.Tailed() && m !in out.nodes && m !in inn.nodes && m.content.qos > 0
      modifies this`inflightMessages, out, out.nodes, m`next
      ensures Valid() && out.Tailed() && out.nodes == old(out.nodes) + [m]
      ensures start == HasRoom(old(View())) && View() == Listed(old(View()), old(m.Value()))
    {
      AppendOut(m);
      start := true;
      if m.content.qos > 0 {
        if maxInflightMessages == 0 || inflightMessages < maxInflightMessages {
          inflightMessages := inflightMessages + 1;
        } else {
          start := false;
        }
      }
    }

    /** Its list half. */
    method AppendOut(m: Message)
      requires Valid() && out.Tailed() && m !in out.nodes && m !in inn.nodes
      modifies out, out.nodes, m`next
      ensures Valid() && out.Tailed() && out.nodes == old(out.nodes) + [m]
      ensures View() == old(View()).(out := old(out.Values()) + [old(m.Value())], outLen := old(out.len) + 1)
    {
      assert forall k :: 0 <= k < |inn.nodes| ==> inn.nodes[k] !in out.nodes && inn.nodes[k] != m;
      out.Append(m);
      inn.Untouched();
    }

    /** mosquitto_publish behind its argument checks. */
    method Enqueue(topic: seq<byte>, payload: seq<byte>, qos: Wire.QoS, retain: bool, now: int)
      returns (sent: bool, mid: uint16)
      requires Valid() && (qos > 0 ==> out.Tailed())
      modifies this`lastMid, this`inflightMessages, this`script, this`logs, out, out.nodes
      ensures Valid() && out.Tailed() == old(out.Tailed()) && mid == NextMid(old(lastMid))
      ensures qos == 0 ==> out.nodes == old(out.nodes) && out.last == old(out.last)
      ensures View() == Engine.Publish(old(View()), Content(0, topic, payload, qos, retain), now)
      ensures sent == ((qos > 0 && !HasRoom(old(View()))) || SendOk(old(View())))
      ensures forall m :: m in out.nodes ==> m in old(out.nodes) || fresh(m)
    {
      mid := MidGenerate();
      var content := Content(mid, topic, payload, qos, retain);
      if qos == 0 {
        sent := SendPacket(SentPublish(content, false));
      } else {
        sent := EnqueueMessage(content, now);
      }
    }

    method EnqueueMessage(content: Content, now: int) returns (sent: bool)
      requires Valid() && out.Tailed() && content.qos > 0
      modifies this`inflightMessages, this`script, this`logs, out, out.nodes
      ensures Valid() && out.Tailed() && View() == PublishListed(old(View()), content, now)
      ensures sent == (!HasRoom(old(View())) || SendOk(old(View())))
      ensures forall m :: m in out.nodes ==> m in old(out.nodes) || fresh(m)
    {
      ListedThenSent(View(), content, now);
      LogPublished(content);
      sent := ListNew(content, now);
    }

    /** mosquitto_publish makes the message and lists it. */
    method ListNew(content: Content, now: int) returns (sent: bool)
      requires Valid() && out.Tailed() && content.qos > 0
      modifies this`inflightMessages, this`script, this`logs, out, out.nodes
      ensures Valid() && out.Tailed() && View() == ListedThenStarted(old(View()), Msg(content, Invalid, false, now))
      ensures sent == (!HasRoom(old(View())) || SendOk(old(View())))
      ensures forall m :: m in out.nodes ==> m in old(out.nodes) || fresh(m)
    {
      var message := new Message(content, Invalid, false, now);
      assert View() == old(View());
      sent := ListAndStart(message);
    }

    /** The message is listed, and started if there is room. */
    method ListAndStart(m: Message) returns (sent: bool)
      requires Valid() && out.Tailed() && m !in out.nodes && m !in inn.nodes && m.content.qos > 0
      modifies this`inflightMessages, this`script, this`logs, out, out.nodes, m`next, m`state
      ensures Valid() && out.Tailed() && out.nodes == old(out.nodes) + [m]
      ensures View() == ListedThenStarted(old(View()), old(m.Value()))
      ensures sent == (!HasRoom(old(View())) || SendOk(old(View())))
    {
      ghost var k := |out.nodes|;
      var start := QueueOut(m);
      if start {
        Activate(m, k);
        sent := SendPacket(SentPublish(m.content, m.dup));
      } else {
        sent := true;
      }
    }

    ghost method LogPublished(c: Content)
      requires Valid()
      modifies this`logs
      ensures Valid() && View() == WithPublished(old(View()), c)
    {
      logs := logs.(published := logs.published + [c]);
    }

    /** Sets the state of a message to the one it waits in first. */
    method Activate(m: Message, ghost k: nat)
      requires Valid() && k < |out.nodes| && m == out.nodes[k] && m.content.qos > 0
      modifies m`state
      ensures Valid() && View() == Activated(old(View()), k) && m.dup == old(m.dup)
    {
      assert m in out.nodes;
      if m.content.qos == 1 {
        m.state := WaitPuback;
      } else if m.content.qos == 2 {
        m.state := WaitPubrec;
      }
      assert out.Values() == Activated(old(View()), k).out;
      inn.Untouched();
    }

    /** mosquitto_publish. The topic is a C string, and the payload a buffer of at least
        `payloadlen` bytes. */
    method Publish(topic: seq<byte>, payloadlen: int, payload: seq<byte>, qos: int, retain: bool, now: int)
      returns (rc: Code, mid: uint16)
      requires Valid() && 0 !in topic && payloadlen <= |payload| && (qos > 0 ==> out.Tailed())
      modifies this`lastMid, this`inflightMessages, this`script, this`logs, out, out.nodes
      ensures Valid() && out.Tailed() == old(out.Tailed())
      ensures var sized := 0 <= payloadlen <= MAX_REMAINING;
              && (rc == Inval <==> !(0 <= qos <= 2) || topic == [] || (sized && !Topics.AcceptedTopic(Text(topic))))
              && (rc == PayloadSize <==> 0 <= qos <= 2 && topic != [] && !sized)
      ensures if rc == Inval || rc == PayloadSize then View() == old(View())
              else mid == NextMid(old(lastMid))
                   && View() == Engine.Publish(old(View()), Content(0, topic, payload[..payloadlen], qos, retain), now)
                   && rc == if (qos > 0 && !HasRoom(old(View()))) || SendOk(old(View())) then Success else SendFailed
      ensures forall m :: m in out.nodes ==> m in old(out.nodes) || fresh(m)
    {
      mid := 0;
      if qos < 0 || qos > 2 {
        return Inval, 0;
      }
      if topic == [] {
        return Inval, 0;
      }
      if payloadlen < 0 || payloadlen > MAX_REMAINING {
        return PayloadSize, 0;
      }
      TextIsCString(topic);
      var check := Topics.PubTopicCheck(Text(topic));
      if check != Topics.Success {
        return Inval, 0;
      }
      var sent;
      sent, mid := Enqueue(topic, payload[..payloadlen], qos, retain, now);
      rc := if sent then Success else SendFailed;
    }

    /** The list half of a publish while the empty outgoing list has a tail pointer t: the message
        is not in the outgoing list. If t is in the incoming list, the message is now behind it
        there, and all that stood behind t is cut off. */
    method AppendStale(m: Message)
      requires Valid() && out.nodes == [] && out.last != null && m !in inn.nodes && m != out.last
      modifies out, m`next, out.last, inn`nodes
      ensures Valid() && out.nodes == [] && out.last == m && out.len == old(out.len) + 1
      ensures old(out.last).next == m && m.Value() == old(m.Value())
      ensures inn.nodes == LinkedBehind(old(inn.nodes), old(out.last), m)
      ensures inn.Values() == CutBehind(old(inn.Values()), PlaceOf(old(inn.nodes), old(out.last)), m.Value())
      ensures View() == old(View()).(outLen := old(out.len) + 1, inn := inn.Values())
    {
      ghost var (t, before, values) := (out.last, inn.nodes, inn.Values());
      out.Append(m);
      assert forall j :: 0 <= j < |before| ==> before[j].Value() == values[j];
      assert forall j :: 0 <= j < |before| && before[j] != t ==> before[j].next == NextOf(before, j);
      inn.nodes := LinkedBehind(before, t, m);
      inn.Cut(before, values, t, m);
      assert out.Values() == [];
    }

    /** mosquitto_publish then. */
    method EnqueueStale(c: Content, now: int) returns (sent: bool, m: Message)
      requires Valid() && c.qos > 0 && out.nodes == [] && out.last != null
      modifies this`lastMid, this`inflightMessages, this`script, this`logs, out, out.last, inn`nodes
      ensures Valid() && out.nodes == [] && out.first == null && out.last == m && fresh(m)
      ensures inn.nodes == LinkedBehind(old(inn.nodes), old(out.last), m)
      ensures var s := Engine.Publish(old(View()), c, now);
              [m.Value()] == s.out && View() == s.(out := [], inn := inn.Values())
      ensures inn.Values() == CutBehind(old(inn.Values()), PlaceOf(old(inn.nodes), old(out.last)), m.Value())
    {
      ghost var s := View();
      var mid := MidGenerate();
      var content := c.(mid := mid);
      LogPublished(content);
      m := new Message(content, Invalid, false, now);
      assert View() == WithPublished(s.(lastMid := mid), content);
      sent := ListStale(m);
      PublishedStale(s, c, now, View(), m.Value(), inn.Values());
    }

    method ListStale(m: Message) returns (sent: bool)
      requires Valid() && out.nodes == [] && out.last != null && m !in inn.nodes && m != out.last
      requires m.content.qos > 0 && m.state == Invalid
      modifies this`inflightMessages, this`script, this`logs, out, m`next, m`state, out.last, inn`nodes
      ensures Valid() && out.nodes == [] && out.first == null && out.last == m
      ensures inn.nodes == LinkedBehind(old(inn.nodes), old(out.last), m)
      ensures inn.Values() == CutBehind(old(inn.Values()), PlaceOf(old(inn.nodes), old(out.last)), m.Value())
      ensures ListedStale(old(View()), old(m.Value()), View(), m.Value(), inn.Values())
    {
      ghost var (s, v) := (View(), m.Value());
      ghost var (t, before, values) := (out.last, inn.nodes, inn.Values());
      AppendStale(m);
      ghost var s1 := View();
      assert s1 == s.(outLen := s.outLen + 1, inn := s1.inn) && m.Value() == v;
      sent := StartStale(m);
      CutChanged(before, values, t, m, s1.inn, v, inn.Values(), m.Value());
      StartedStale(s, s1, v, View(), m.Value(), inn.Values());
    }

    /** The message is counted, started and sent if there is room. */
    method StartStale(m: Message) returns (sent: bool)
      requires Valid() && m !in out.nodes && m.content.qos > 0 && m.state == Invalid
      modifies this`inflightMessages, this`script, this`logs, m`state
      ensures Valid()
      ensures forall k :: 0 <= k < |inn.nodes| && inn.nodes[k] != m ==> inn.nodes[k].Value() == old(inn.Values())[k]
      ensures var s := old(View());
              if HasRoom(s) then
                && m.Value() == old(m.Value()).(state := FirstWait(m.content.qos))
                && View() == Send(s.(inflight := s.inflight + 1), SentPublish(m.content, m.dup)).(inn := inn.Values())
              else m.Value() == old(m.Value()) && View() == s
    {
      if maxInflightMessages == 0 || inflightMessages < maxInflightMessages {
        CountUp();
        m.state := if m.content.qos == 1 then WaitPuback else WaitPubrec;
        out.Untouched();
        sent := SendPacket(SentPublish(m.content, m.dup));
      } else {
        sent := true;
      }
    }

    // -------------------------------------------------------------- acknowledging

    /** Starts a waiting message: one turn of the promotion loop. */
    method StartMessage(m: Message, ghost k: nat) returns (ok: bool)
      requires Valid() && k < |out.nodes| && m == out.nodes[k] && m.content.qos > 0
      modifies this`inflightMessages, this`script, this`logs, m`state
      ensures Valid() && View() == Start(old(View()), k) && ok == SendOk(old(View()))
    {
      assert View().out[k] == m.Value();
      CountUp();
      Activate(m, k);
      ok := SendPacket(SentPublish(m.content, m.dup));
    }

    /** The promotion loop of _mosquitto_message_remove. */
    method PromoteWaiting() returns (rc: Code)
      requires Valid()
      modifies this`inflightMessages, this`script, this`logs, out.nodes
      ensures Valid() && (View(), rc) == Promote(old(View()), 0)
    {
      var cur := out.first;
      ghost var k: nat := 0;
      while cur != null
        invariant Valid() && k <= |out.nodes| && cur == NodeAt(out.nodes, k)
        invariant Promote(View(), k) == Promote(old(View()), 0)
        decreases |out.nodes| - k
      {
        if maxInflightMessages == 0 || inflightMessages < maxInflightMessages {
          assert View().out[k] == cur.Value();
          if cur.content.qos > 0 && cur.state == Invalid {
            var ok := StartMessage(cur, k);
            if !ok {
              return SendFailed;
            }
          }
        } else {
          return Success;
        }
        out.Next(k);
        cur := cur.next;
        k := k + 1;
      }
      rc := Success;
    }

    /** The list half of _mosquitto_message_remove. */
    method DetachOut(mid: uint16) returns (found: Message?)
      requires Valid()
      modifies out, out.nodes
      ensures Valid() && forall m :: m in out.nodes ==> m in old(out.nodes)
      ensures (old(out.Tailed()) ==> out.Tailed()) && (old(out.nodes) == [] ==> out.last == old(out.last))
      ensures var (s, i) := (old(View()), Find(old(View()).out, mid));
              if i == |s.out| then found == null && View() == s
              else found != null && found.Value() == s.out[i]
                   && View() == DetachedOut(s, i)
    {
      ghost var (s, i) := (View(), Find(View().out, mid));
      assert forall k :: 0 <= k < |inn.nodes| ==> inn.nodes[k] !in out.nodes;
      found := out.Unlink(mid);
      inn.Untouched();
      assert View() == s.(out := out.Values(), outLen := out.len);
      if i < |s.out| {
        assert out.Values() == Without(s.out, i);
      }
    }

    /** The unlinking half of _mosquitto_message_remove, direction out. */
    method UnlinkOut(mid: uint16) returns (found: Message?)
      requires Valid()
      modifies this`inflightMessages, out, out.nodes
      ensures Valid() && forall m :: m in out.nodes ==> m in old(out.nodes)
      ensures (old(out.Tailed()) ==> out.Tailed()) && (old(out.nodes) == [] ==> out.last == old(out.last))
      ensures var (s, i) := (old(View()), Find(old(View()).out, mid));
              if i == |s.out| then found == null && View() == s
              else found != null && found.Value() == s.out[i] && View() == Engine.Unlink(s, i)
      ensures forall k :: 0 <= k < |out.nodes| ==> out.nodes[k] in old(out.nodes)
    {
      found := DetachOut(mid);
      if found != null && found.content.qos > 0 {
        CountDown();
      }
    }

    method CountUp()
      requires Valid()
      modifies this`inflightMessages
      ensures Valid() && View() == old(View()).(inflight := old(View()).inflight + 1)
    {
      inflightMessages := inflightMessages + 1;
    }

    method CountDown()
      requires Valid()
      modifies this`inflightMessages
      ensures Valid() && View() == old(View()).(inflight := old(View()).inflight - 1)
    {
      inflightMessages := inflightMessages - 1;
    }

    /** _mosquitto_message_delete, direction out, and the report of the PUBACK and PUBCOMP
        handler. */
    method HandlePubackComp(mid: uint16)
      requires Valid()
      modifies this`inflightMessages, this`script, this`logs, out, out.nodes
      ensures Valid() && View() == Ack(old(View()), mid)
      ensures (old(out.Tailed()) ==> out.Tailed()) && (old(out.nodes) == [] ==> out.last == old(out.last))
      ensures forall m :: m in out.nodes ==> m in old(out.nodes)
    {
      var message := UnlinkOut(mid);
      if message != null {
        PromoteAndReport(message.content);
      }
    }

    method PromoteAndReport(content: Content)
      requires Valid()
      modifies this`inflightMessages, this`script, this`logs, out.nodes
      ensures Valid() && View() == Settle(old(View()), content)
    {
      var rc := PromoteWaiting();
      LogAck(content, rc == Success);
    }

    /** The call of on_publish, if every promotion was sent. */
    ghost method LogAck(c: Content, report: bool)
      requires Valid()
      modifies this`logs
      ensures Valid() && View() == if report then Report(old(View()), c) else Drop(old(View()), c)
    {
      if report {
        logs := logs.(reported := logs.reported + [c.mid], acked := logs.acked + [c]);
      } else {
        logs := logs.(dropped := logs.dropped + [c]);
      }
    }

    /** _mosquitto_message_out_update. */
    method OutUpdate(mid: uint16, state: MsgState, now: int) returns (rc: Code)
      requires Valid()
      modifies out.nodes
      ensures Valid()
      ensures var (s, i) := (old(View()), Find(old(View()).out, mid));
              if i == |s.out| then rc == NotFound && View() == s
              else rc == Success && View() == s.(out := s.out[i := s.out[i].(state := state, timestamp := now)])
    {
      var message, _, k := out.Search(mid);
      if message == null {
        return NotFound;
      }
      SetState(message, k, state, now);
      rc := Success;
    }

    method SetState(m: Message, ghost k: nat, state: MsgState, now: int)
      requires Valid() && k < |out.nodes| && m == out.nodes[k]
      modifies m
      ensures Valid()
      ensures View() == old(View()).(out := old(out.Values())[k := old(m.Value()).(state := state, timestamp := now)])
    {
      assert m in out.nodes;
      m.state := state;
      m.timestamp := now;
      assert out.Values() == old(out.Values())[k := old(m.Value()).(state := state, timestamp := now)];
      inn.Untouched();
    }

    /** The PUBREC handler. */
    method HandlePubrec(mid: uint16, now: int) returns (rc: Code)
      requires Valid()
      modifies this`script, this`logs, out.nodes
      ensures Valid() && View() == Engine.Pubrec(old(View()), mid, now)
      ensures rc == NotFound <==> Find(old(View()).out, mid) == |old(View()).out|
    {
      rc := OutUpdate(mid, WaitPubcomp, now);
      if rc != Success {
        return;
      }
      var ok := SendPacket(SentPubrel(mid));
      rc := if ok then Success else SendFailed;
    }

    // -------------------------------------------------------------- reconnecting

    method ResetState(m: Message)
      modifies m`timestamp, m`state
      ensures m.Value() == ResetMsg(old(m.Value()), inflightMessages, maxInflightMessages)
    {
      m.timestamp := 0;
      if maxInflightMessages == 0 || inflightMessages < maxInflightMessages {
        if m.content.qos == 1 {
          m.state := WaitPuback;
        } else if m.content.qos == 2 {
          // A QoS 2 message keeps its state.
        }
      } else {
        m.state := Invalid;
      }
    }

    /** One turn of the loop over the outgoing list: the limit is tested against the messages
        counted so far. */
    method ResetMessage(m: Message, ghost k: nat, ghost from: seq<Msg>) returns (next: Message?)
      requires out.Valid() && k < |out.nodes| && m == out.nodes[k]
      requires ResetSoFar(out.Values(), inflightMessages, from, maxInflightMessages, k)
      modifies this`inflightMessages, out`len, m`timestamp, m`state
      ensures out.Valid() && out.nodes == old(out.nodes) && next == NodeAt(out.nodes, k + 1)
      ensures out.len == old(out.len) + 1
      ensures ResetSoFar(out.Values(), inflightMessages, from, maxInflightMessages, k + 1)
    {
      ghost var values := out.Values();
      ResetTurn(values, inflightMessages, from, maxInflightMessages, k);
      out.len := out.len + 1;
      if m.content.qos > 0 {
        inflightMessages := inflightMessages + 1;
      }
      ResetState(m);
      assert out.Values() == values[k := ResetMsg(values[k], inflightMessages, maxInflightMessages)];
      out.Next(k);
      next := m.next;
    }

    /** The loop over the outgoing list; what it returns is the last message, and if there is none
        what the loop over the incoming list has left. */
    method ResetWalk(ghost from: seq<Msg>, left: Message?) returns (prev: Message?)
      requires out.Valid() && out.len == 0 && from == out.Values()
      requires ResetSoFar(from, inflightMessages, from, maxInflightMessages, 0)
      modifies this`inflightMessages, out`len, out.nodes
      ensures out.Valid() && out.nodes == old(out.nodes)
      ensures prev == if out.nodes == [] then left else NodeAt(out.nodes, |out.nodes| - 1)
      ensures ResetSoFar(out.Values(), inflightMessages, from, maxInflightMessages, |from|) && out.len == |from|
    {
      ghost var nodes := out.nodes;
      var message: Message?;
      message, prev := out.first, left;
      ghost var k: nat := 0;
      while message != null
        invariant out.Valid() && out.nodes == nodes && |nodes| == |from|
        invariant k <= |nodes| && message == NodeAt(nodes, k)
        invariant prev == if k == 0 then left else NodeAt(nodes, k - 1)
        invariant out.len == k && ResetSoFar(out.Values(), inflightMessages, from, maxInflightMessages, k)
        decreases |nodes| - k
      {
        prev := message;
        message := ResetMessage(message, k, from);
        k := k + 1;
      }
    }

    /** The counters start again from 0, and the loop counts. */
    method ResetCounted(left: Message?) returns (prev: Message?)
      requires out.Valid()
      modifies this`inflightMessages, out`len, out.nodes
      ensures out.Valid() && out.nodes == old(out.nodes)
      ensures prev == if out.nodes == [] then left else NodeAt(out.nodes, |out.nodes| - 1)
      ensures out.Values() == ResetOut(old(out.Values()), maxInflightMessages)
      ensures inflightMessages == Counted(old(out.Values())) && out.len == |out.nodes|
    {
      ghost var from := out.Values();
      ResetStart(from, maxInflightMessages);
      inflightMessages := 0;
      out.SetLen(0);
      prev := ResetWalk(from, left);
      ResetEnd(out.Values(), inflightMessages, from, maxInflightMessages);
    }

    method ResetOutLoop(left: Message?)
      requires out.Valid()
      modifies this`inflightMessages, out`len, out`last, out.nodes
      ensures out.Valid() && out.nodes == old(out.nodes)
      ensures out.last == if out.nodes == [] then left else NodeAt(out.nodes, |out.nodes| - 1)
      ensures out.Values() == ResetOut(old(out.Values()), maxInflightMessages)
      ensures inflightMessages == Counted(old(out.Values())) && out.len == |out.nodes|
    {
      var prev := ResetCounted(left);
      out.SetLast(prev);
    }

    /** The outgoing half of _mosquitto_messages_reconnect_reset. */
    method ResetOutgoing(left: Message?)
      requires Valid()
      modifies this`inflightMessages, out`len, out`last, out.nodes
      ensures Valid() && out.nodes == old(out.nodes)
      ensures var s := old(View());
              View() == s.(out := ResetOut(s.out, s.max), outLen := |s.out|, inflight := Counted(s.out))
      ensures out.last == if out.nodes == [] then left else NodeAt(out.nodes, |out.nodes| - 1)
    {
      ghost var (s, values) := (View(), out.Values());
      assert forall i :: 0 <= i < |inn.nodes| ==> inn.nodes[i] !in out.nodes;
      ResetOutLoop(left);
      inn.Untouched();
      assert out.Values() == ResetOut(values, maxInflightMessages) && out.len == |values|;
      assert View() == s.(out := out.Values(), outLen := out.len, inflight := inflightMessages);
    }

    /** The incoming half. */
    method ResetIncoming() returns (prev: Message?, ok: bool)
      requires Valid()
      modifies inn, inn.nodes
      ensures ok <==> Walk(old(inn.Values()), 0, 0).Some?
      ensures ok ==> Valid() && inn.Tailed() && prev == inn.last
      ensures ok ==> View() == old(View()).(inn := inn.Values(), inLen := inn.len)
      ensures ok ==> Walk(old(inn.Values()), 0, 0) == Some((inn.Values(), inn.len))
      ensures Shrunk(inn.nodes, old(inn.nodes))
    {
      assert forall i :: 0 <= i < |out.nodes| ==> out.nodes[i] !in inn.nodes;
      prev, ok := inn.ResetTimes();
      if ok { out.Untouched(); }
    }

    /** _mosquitto_messages_reconnect_reset. The loop over the outgoing list begins with the
        pointer the loop over the incoming list has left, so an empty outgoing list gets the
        last incoming message as its tail. */
    method ResetLists() returns (ok: bool)
      requires Valid()
      modifies this`inflightMessages, out`len, out`last, out.nodes, inn, inn.nodes
      ensures ok <==> Walk(old(inn.Values()), 0, 0).Some?
      ensures ok ==> Valid() && inn.Tailed() && out.nodes == old(out.nodes) && ResetTo(old(View()), View())
      ensures Shrunk(inn.nodes, old(inn.nodes))
      ensures ok ==> out.last == if out.nodes == [] then inn.last else NodeAt(out.nodes, |out.nodes| - 1)
    {
      ghost var s := View();
      var left;
      left, ok := ResetIncoming();
      ghost var s1 := View();
      if ok {
        ResetOutgoing(left);
        ResetBoth(s, s1, View());
      }
    }

    /** With incoming messages of QoS 2 only it is the reset of the engine. The tail pointer of the
        outgoing list is right behind it exactly when that list is not empty or the incoming
        one is. */
    method ReconnectReset() returns (ok: bool)
      requires Valid()
      modifies this`inflightMessages, out`len, out`last, out.nodes, inn, inn.nodes
      ensures ok <==> Walk(old(inn.Values()), 0, 0).Some?
      ensures ok ==> Valid() && inn.Tailed() && out.nodes == old(out.nodes) && ResetTo(old(View()), View())
      ensures Shrunk(inn.nodes, old(inn.nodes))
      ensures ok ==> out.last == if out.nodes == [] then inn.last else NodeAt(out.nodes, |out.nodes| - 1)
      ensures ok ==> (out.Tailed() <==> out.nodes != [] || inn.nodes == [])
      ensures AllTwo(old(inn.Values())) ==> ok && inn.nodes == old(inn.nodes) && View() == Engine.Reset(old(View()))
    {
      ghost var s := View();
      TwoNodes();
      ok := ResetLists();
      if AllTwo(s.inn) { ResetTwo(s, View()); }
    }

    lemma TwoNodes()
      requires Valid()
      ensures AllTwo(inn.Values()) ==> AllNodesTwo(inn.nodes)
    {
      assert forall i :: 0 <= i < |inn.nodes| ==> inn.nodes[i].content == inn.Values()[i].content;
    }

    // -------------------------------------------------------------- retrying

    /** One turn of the retry loop. */
    method RetryMessage(list: MessageList, m: Message, ghost k: nat, now: int)
      requires list.Valid() && k < |list.nodes| && m == list.nodes[k]
      modifies this`script, this`logs, m
      ensures list.Valid()
      ensures var was := old(list.Values());
              && list.Values() == was[k := RetryMsg(was[k], messageRetry, now)]
              && Logged(logs, script, RetryOne(was[k], messageRetry, now), old(logs), old(script))
    {
      ghost var (was, value) := (list.Values(), m.Value());
      if m.timestamp + messageRetry < now && m.state != Invalid {
        m.timestamp := now;
        m.dup := true;
        ghost var p;
        match m.state {
          case WaitPuback => p := SentPublish(m.content, m.dup);
          case WaitPubrec => p := SentPublish(m.content, m.dup);
          case WaitPubrel => p := SentPubrec(m.content.mid);
          case WaitPubcomp => p := SentPubrel(m.content.mid);
        }
        assert RetryOne(value, messageRetry, now) == [p];
        script := if script == [] then [] else script[1..];
        logs := logs.(sent := logs.sent + [p]);
      } else {
        LoggedStart(logs, script);
      }
      assert list.Values() == was[k := RetryMsg(was[k], messageRetry, now)];
    }

    /** _mosquitto_message_retry_check_actual. */
    method RetryPass(list: MessageList, now: int)
      requires list.Valid()
      modifies this`script, this`logs, list.nodes
      ensures list.Valid() && list.Values() == RetryList(old(list.Values()), messageRetry, now)
      ensures Logged(logs, script, RetrySends(old(list.Values()), messageRetry, now), old(logs), old(script))
    {
      ghost var from := list.Values();
      var message := list.first;
      ghost var (k: nat, sends: seq<Sent>) := (0, []);
      RetryStart(from, messageRetry, now);
      LoggedStart(logs, script);
      while message != null
        invariant list.Valid() && k <= |list.nodes| && message == NodeAt(list.nodes, k)
        invariant RetrySoFar(list.Values(), sends, from, messageRetry, now, k)
        invariant Logged(logs, script, sends, old(logs), old(script))
        decreases |list.nodes| - k
      {
        ghost var (logs1, script1, more) := (logs, script, RetryOne(list.Values()[k], messageRetry, now));
        RetryTurn(list.Values(), sends, from, messageRetry, now, k);
        RetryMessage(list, message, k, now);
        LoggedAdd(logs, script, more, logs1, script1, sends, old(logs), old(script));
        list.Next(k);
        message := message.next;
        k, sends := k + 1, sends + more;
      }
      RetryEnd(list.Values(), sends, from, messageRetry, now);
    }

    method RetryOutgoing(now: int)
      requires Valid()
      modifies this`script, this`logs, out.nodes
      ensures Valid() && View() == RetriedOut(old(View()), now)
    {
      ghost var (s, sends) := (View(), RetrySends(out.Values(), messageRetry, now));
      assert forall i :: 0 <= i < |inn.nodes| ==> inn.nodes[i] !in out.nodes;
      RetryPass(out, now);
      inn.Untouched();
      assert View() == s.(out := out.Values(), sent := s.sent + sends, script := script);
    }

    method RetryIncoming(now: int)
      requires Valid()
      modifies this`script, this`logs, inn.nodes
      ensures Valid() && View() == RetriedIn(old(View()), now)
    {
      ghost var (s, sends) := (View(), RetrySends(inn.Values(), messageRetry, now));
      assert forall i :: 0 <= i < |out.nodes| ==> out.nodes[i] !in inn.nodes;
      RetryPass(inn, now);
      out.Untouched();
      assert View() == s.(inn := inn.Values(), sent := s.sent + sends, script := script);
    }

    /** _mosquitto_message_retry_check. The clock is read for each list. */
    method RetryCheck(now: Clock)
      requires Valid()
      modifies this`script, this`logs, out.nodes, inn.nodes
      ensures Valid() && View() == Engine.Retry(old(View()), now)
      ensures out.nodes == old(out.nodes) && inn.nodes == old(inn.nodes)
    {
      RetryInTwo(View(), now);
      RetryOutgoing(now.out);
      RetryIncoming(now.inn);
    }

    // -------------------------------------------------------------- receiving

    /** _mosquitto_message_queue, direction in. */
    method QueueIn(m: Message)
      requires Valid() && inn.Tailed() && m !in out.nodes && m !in inn.nodes
      modifies inn, inn.nodes, m`next
      ensures Valid() && inn.Tailed() && inn.nodes == old(inn.nodes) + [m]
      ensures View() == old(View()).(inn := old(inn.Values()) + [old(m.Value())], inLen := old(inn.len) + 1)
    {
      assert forall k :: 0 <= k < |out.nodes| ==> out.nodes[k] !in inn.nodes && out.nodes[k] != m;
      inn.Append(m);
      out.Untouched();
    }

    /** The call of on_message. */
    ghost method LogDelivered(c: Content)
      requires Valid()
      modifies this`logs
      ensures Valid() && View() == old(View()).(delivered := old(View()).delivered + [c])
    {
      logs := logs.(delivered := logs.delivered + [c]);
    }

    /** _mosquitto_handle_publish behind the parsing of the packet. */
    method HandlePublish(content: Content, dup: bool, now: int) returns (ok: bool)
      requires Valid() && inn.Tailed()
      modifies this`script, this`logs, inn, inn.nodes
      ensures Valid() && inn.Tailed() && View() == Receive(old(View()), content, dup, now)
      ensures ok == (content.qos == 0 || SendOk(old(View())))
      ensures forall m :: m in inn.nodes ==> m in old(inn.nodes) || fresh(m)
    {
      if content.qos == 0 {
        LogDelivered(content);
        ok := true;
      } else if content.qos == 1 {
        ok := SendPacket(SentPuback(content.mid));
        LogDelivered(content);
      } else {
        ok := SendPacket(SentPubrec(content.mid));
        Hold(content, dup, now);
      }
    }

    method Hold(content: Content, dup: bool, now: int)
      requires Valid() && inn.Tailed()
      modifies inn, inn.nodes
      ensures Valid() && inn.Tailed()
      ensures View() == old(View()).(inn := old(View()).inn + [Msg(content, WaitPubrel, dup, now)],
                                     inLen := old(View()).inLen + 1)
      ensures forall m :: m in inn.nodes ==> m in old(inn.nodes) || fresh(m)
    {
      var message := new Message(content, WaitPubrel, dup, now);
      QueueIn(message);
    }

    /** _mosquitto_message_remove, direction in. */
    method DetachIn(mid: uint16) returns (found: Message?)
      requires Valid()
      modifies inn, inn.nodes
      ensures Valid() && (old(inn.Tailed()) ==> inn.Tailed())
      ensures var (s, i) := (old(View()), Find(old(View()).inn, mid));
              if i == |s.inn| then found == null && View() == s
              else found != null && found.Value() == s.inn[i]
                   && View() == DetachedIn(s, i)
      ensures forall m :: m in inn.nodes ==> m in old(inn.nodes)
    {
      ghost var (s, i) := (View(), Find(View().inn, mid));
      assert forall k :: 0 <= k < |out.nodes| ==> out.nodes[k] !in inn.nodes;
      found := inn.Unlink(mid);
      out.Untouched();
      assert View() == s.(inn := inn.Values(), inLen := inn.len);
      if i < |s.inn| {
        assert inn.Values() == Without(s.inn, i);
      }
    }

    /** _mosquitto_handle_pubrel behind the parsing of the packet. */
    method HandlePubrel(command: byte, protocol311: bool, mid: uint16) returns (rc: Code)
      requires Valid()
      modifies this`script, this`logs, inn, inn.nodes
      ensures Valid() && View() == Engine.Pubrel(old(View()), mid, protocol311 ==> command % 16 == 2)
      ensures old(inn.Tailed()) ==> inn.Tailed()
      ensures rc == Protocol <==> (protocol311 && command % 16 != 2)
      ensures forall m :: m in inn.nodes ==> m in old(inn.nodes)
    {
      if protocol311 && command % 16 != 2 {
        return Protocol;
      }
      PassOnMessage(mid);
      var ok := SendPacket(SentPubcomp(mid));
      rc := if ok then Success else SendFailed;
    }

    /** The message with the id, if there is one, leaves the list and is passed on. */
    method PassOnMessage(mid: uint16)
      requires Valid()
      modifies this`logs, inn, inn.nodes
      ensures Valid() && View() == PassOn(old(View()), mid) && (old(inn.Tailed()) ==> inn.Tailed())
      ensures forall m :: m in inn.nodes ==> m in old(inn.nodes)
    {
      var message := DetachIn(mid);
      if message != null {
        LogDelivered(message.content);
      }
    }

    // -------------------------------------------------------------- any one of them

    /** The tail pointer of the outgoing list is its end, or the list is empty. Behind a reset that
        finds incoming messages only, it is not null then. */
    ghost predicate Usable()
      reads this, out, inn
    {
      inn.Tailed() && (out.Tailed() || out.nodes == [])
    }

    /** The operation an event stands for, if it works on the outgoing list. */
    method PerformOut(e: Event)
      requires Valid() && Usable() && (e.DoPublish? || e.DoDraw? || e.OnAck? || e.OnPubrec?)
      requires e.DoPublish? && e.c.qos > 0 ==> out.Tailed()
      modifies this, out, out.nodes
      ensures Valid() && out.Tailed() == old(out.Tailed()) && View() == Step(old(View()), e)
      ensures out.Tailed() || (out.nodes == [] && out.last == old(out.last))
      ensures forall m :: m in out.nodes ==> m in old(out.nodes) || fresh(m)
    {
      match e {
        case DoPublish(c, now) => var _, _ := Enqueue(c.topic, c.payload, c.qos, c.retain, now);
        case DoDraw => var _ := MidGenerate();
        case OnAck(mid) => HandlePubackComp(mid);
        case OnPubrec(mid, now) => var _ := HandlePubrec(mid, now);
      }
    }

    /** If it works on the incoming one. */
    method PerformIn(e: Event)
      requires Valid() && inn.Tailed() && (e.OnPublish? || e.OnPubrel?)
      modifies this, inn, inn.nodes
      ensures Valid() && inn.Tailed() && View() == Step(old(View()), e)
      ensures forall m :: m in inn.nodes ==> m in old(inn.nodes) || fresh(m)
    {
      ghost var s := View();
      if e.OnPublish? {
        assert Step(s, e) == Receive(s, e.c, e.dup, e.now);
        var _ := HandlePublish(e.c, e.dup, e.now);
      } else {
        assert Step(s, e) == Pubrel(s, e.mid, e.flagsOk);
        var _ := HandlePubrel(if e.flagsOk then 0x62 else 0x60, true, e.mid);
      }
    }

    /** If it walks both. */
    method PerformBoth(e: Event)
      requires Valid() && inn.Tailed() && (e.DoRetry? || (e.DoReset? && AllTwo(inn.Values())))
      modifies this, out, out.nodes, inn, inn.nodes
      ensures Valid() && inn.Tailed() && View() == Step(old(View()), e)
      ensures out.nodes == old(out.nodes) && inn.nodes == old(inn.nodes)
      ensures if e.DoReset? then (out.Tailed() <==> out.nodes != [] || inn.nodes == [])
                                 && (!out.Tailed() ==> out.last in inn.nodes)
              else out.last == old(out.last)
    {
      ghost var s := View();
      if e.DoRetry? {
        assert Step(s, e) == Retry(s, e.at);
        RetryCheck(e.at);
      } else {
        assert Step(s, e) == Reset(s);
        var _ := ReconnectReset();
      }
    }

    /** Any event, but a publish to an empty list with a tail pointer. */
    method Perform(e: Event)
      requires Valid() && Usable() && (e == DoReset ==> AllTwo(inn.Values()))
      requires e.DoPublish? && e.c.qos > 0 ==> out.Tailed()
      modifies this, out, out.nodes, inn, inn.nodes
      ensures Valid() && Usable() && View() == Step(old(View()), e)
      ensures out.Tailed() <==> if e == DoReset then out.nodes != [] || inn.nodes == [] else old(out.Tailed())
      ensures !out.Tailed() ==> if e == DoReset then out.last in inn.nodes else out.last == old(out.last)
      ensures forall m :: m in out.nodes ==> m in old(out.nodes) || fresh(m)
      ensures forall m :: m in inn.nodes ==> m in old(inn.nodes) || fresh(m)
    {
      if e.DoRetry? || e.DoReset? {
        PerformBoth(e);
      } else if e.OnPublish? || e.OnPubrel? {
        PerformIn(e);
      } else {
        PerformOut(e);
      }
    }
  }
}
