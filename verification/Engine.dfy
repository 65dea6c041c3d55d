/** The QoS 1 and 2 message engine as a function of its state: messages_mosq.c, the queueing
    half of mosquitto_publish, and the acknowledgement handlers. Module MessageLists holds
    the same operations on the linked lists of the source; this one is what they are proved
    against, and what the results over whole runs are about. Module Execution says in which
    runs the lists do the same: those that list no message while a tail pointer is stale.

    Two kinds of fields are here that the source does not have: the script that decides how
    sends turn out, and logs of what happened. */
module Engine {
  import opened Codec
  import opened Runs
  import opened Wire

  datatype Code = Success | NotFound | Protocol | Inval | PayloadSize | SendFailed

  /** The states a listed message can be in. */
  datatype MsgState = Invalid | WaitPuback | WaitPubrec | WaitPubrel | WaitPubcomp

  datatype Content = Content(mid: uint16, topic: seq<byte>, payload: seq<byte>, qos: QoS, retain: bool)

  datatype Msg = Msg(content: Content, state: MsgState, dup: bool, timestamp: int)

  /** A packet handed to one of the _mosquitto_send functions. */
  datatype Sent =
    | SentPublish(content: Content, dup: bool)
    | SentPuback(mid: uint16)
    | SentPubrec(mid: uint16)
    | SentPubrel(mid: uint16)
    | SentPubcomp(mid: uint16)

  datatype State = State(
    out: seq<Msg>,
    inn: seq<Msg>,
    outLen: int,
    inLen: int,
    inflight: int,
    max: nat,            // max_inflight_messages; 0 is no limit
    retry: nat,          // message_retry
    lastMid: uint16,
    // how the sends to come turn out, true for success
    script: seq<bool>,
    // logs: packets sent; calls of on_publish and on_message
    sent: seq<Sent>,
    reported: seq<uint16>,
    delivered: seq<Content>,
    // logs: QoS>0 messages published; those acknowledged and reported; those acknowledged
    // whose follow-on promotion failed to send
    published: seq<Content>,
    acked: seq<Content>,
    dropped: seq<Content>)

  function Initial(max: nat, retry: nat, script: seq<bool>): State {
    State([], [], 0, 0, 0, max, retry, 0, script, [], [], [], [], [], [])
  }

  // ---------------------------------------------------------------- parts of the operations

  function Send(s: State, p: Sent): State {
    s.(sent := s.sent + [p], script := if s.script == [] then [] else s.script[1..])
  }

  predicate SendOk(s: State) {
    s.script == [] || s.script[0]
  }

  predicate HasRoom(s: State) {
    s.max == 0 || s.inflight < s.max
  }

  function FirstWait(qos: QoS): MsgState {
    if qos == 1 then WaitPuback else WaitPubrec
  }

  /** The position of the first message with this id, or the length. */
  function Find(ms: seq<Msg>, mid: uint16): (i: nat)
    ensures i <= |ms|
    ensures i < |ms| ==> ms[i].content.mid == mid
    ensures forall k :: 0 <= k < i ==> ms[k].content.mid != mid
  {
    if ms == [] || ms[0].content.mid == mid then 0 else 1 + Find(ms[1..], mid)
  }

  function Without<T>(ts: seq<T>, i: nat): seq<T>
    requires i < |ts|
  {
    ts[..i] + ts[i + 1..]
  }

  /** mosquitto's packet ids: 1 to 65535 and round again. */
  function NextMid(mid: uint16): uint16 {
    if mid == 65535 then 1 else mid + 1
  }

  // ---------------------------------------------------------------- publishing

  /** A message of QoS 1 or 2 is listed, and sent at once if there is room. */
  function PublishListed(s: State, content: Content, now: int): State {
    var s1 := s.(published := s.published + [content], outLen := s.outLen + 1);
    if HasRoom(s) then
      Send(s1.(out := s1.out + [Msg(content, FirstWait(content.qos), false, now)], inflight := s1.inflight + 1),
           SentPublish(content, false))
    else s1.(out := s1.out + [Msg(content, Invalid, false, now)])
  }

  /** mosquitto_publish, once the arguments are checked. */
  function Publish(s: State, c: Content, now: int): State {
    var content := c.(mid := NextMid(s.lastMid));
    var s1 := s.(lastMid := content.mid);
    if c.qos == 0 then Send(s1, SentPublish(content, false)) else PublishListed(s1, content, now)
  }

  // ---------------------------------------------------------------- acknowledging

  /** Message k leaves the waiting state and is sent. */
  function Start(s: State, k: nat): State
    requires k < |s.out|
  {
    var m := s.out[k].(state := FirstWait(s.out[k].content.qos));
    Send(s.(out := s.out[k := m], inflight := s.inflight + 1), SentPublish(m.content, m.dup))
  }

  /** The promotion loop of _mosquitto_message_remove from position k on: messages that wait
      are started while there is room, until a send fails. */
  function Promote(s: State, k: nat): (State, Code)
    decreases |s.out| - k
  {
    if k >= |s.out| || !HasRoom(s) then (s, Success)
    else if s.out[k].state == Invalid && s.out[k].content.qos > 0 then
      if SendOk(s) then Promote(Start(s, k), k + 1) else (Start(s, k), SendFailed)
    else Promote(s, k + 1)
  }

  /** The first half of _mosquitto_message_remove, direction out. */
  function Unlink(s: State, i: nat): State
    requires i < |s.out|
  {
    s.(out := Without(s.out, i), outLen := s.outLen - 1,
       inflight := if s.out[i].content.qos > 0 then s.inflight - 1 else s.inflight)
  }

  /** The call of on_publish. */
  function Report(s: State, c: Content): State {
    s.(reported := s.reported + [c.mid], acked := s.acked + [c])
  }

  function Drop(s: State, c: Content): State {
    s.(dropped := s.dropped + [c])
  }

  /** Behind the removal of an acknowledged message: it is reported only when every promotion
      its removal allows could be sent. */
  function Settle(s: State, c: Content): State {
    var (s1, rc) := Promote(s, 0);
    if rc == Success then Report(s1, c) else Drop(s1, c)
  }

  /** The PUBACK and PUBCOMP handler. */
  function Ack(s: State, mid: uint16): State {
    var i := Find(s.out, mid);
    if i == |s.out| then s else Settle(Unlink(s, i), s.out[i].content)
  }

  /** The PUBREC handler. */
  function Pubrec(s: State, mid: uint16, now: int): State {
    var i := Find(s.out, mid);
    if i == |s.out| then s
    else Send(s.(out := s.out[i := s.out[i].(state := WaitPubcomp, timestamp := now)]), SentPubrel(mid))
  }

  // ---------------------------------------------------------------- reconnecting

  /** _mosquitto_messages_reconnect_reset on the message at position i of the outgoing list,
      when the messages up to and with it that count are `counted`. */
  function ResetMsg(m: Msg, counted: int, max: nat): Msg {
    var m1 := m.(timestamp := 0);
    if max == 0 || counted < max then
      if m.content.qos == 1 then m1.(state := WaitPuback) else m1
    else m1.(state := Invalid)
  }

  function Counted(ms: seq<Msg>): nat {
    if ms == [] then 0 else Counted(ms[..|ms| - 1]) + if ms[|ms| - 1].content.qos > 0 then 1 else 0
  }

  function ResetOut(ms: seq<Msg>, max: nat): (rs: seq<Msg>)
    ensures |rs| == |ms|
    ensures forall k :: 0 <= k < |ms| ==> rs[k].content == ms[k].content && rs[k].dup == ms[k].dup
  {
    if ms == [] then []
    else ResetOut(ms[..|ms| - 1], max) + [ResetMsg(ms[|ms| - 1], Counted(ms), max)]
  }

  lemma {:induction false} ResetOutPoint(ms: seq<Msg>, max: nat, k: nat)
    requires k < |ms|
    ensures ResetOut(ms, max)[k] == ResetMsg(ms[k], Counted(ms[..k + 1]), max)
    decreases |ms|
  {
    if k == |ms| - 1 {
      assert ms[..k + 1] == ms;
    } else {
      ResetOutPoint(ms[..|ms| - 1], max, k);
      assert ms[..|ms| - 1][..k + 1] == ms[..k + 1];
    }
  }

  function ResetIn(ms: seq<Msg>): (rs: seq<Msg>)
    ensures |rs| == |ms|
    ensures forall k :: 0 <= k < |ms| ==> rs[k] == ms[k].(timestamp := 0)
  {
    if ms == [] then [] else ResetIn(ms[..|ms| - 1]) + [ms[|ms| - 1].(timestamp := 0)]
  }

  /** The reset of a reconnect. Its branch for incoming messages that are not QoS 2 is left
      out: no run of the engine lists one (lemma IncomingAlwaysQos2). The linked lists can come
      to hold one, behind a stale tail pointer (module StaleTail). */
  function Reset(s: State): State {
    s.(out := ResetOut(s.out, s.max), outLen := |s.out|, inflight := Counted(s.out),
       inn := ResetIn(s.inn), inLen := |s.inn|)
  }

  // ---------------------------------------------------------------- retrying

  /** What a retry sends for a message, by its state. */
  function RetryPacket(m: Msg, dup: bool): seq<Sent> {
    match m.state
    case Invalid => []
    case WaitPuback => [SentPublish(m.content, dup)]
    case WaitPubrec => [SentPublish(m.content, dup)]
    case WaitPubrel => [SentPubrec(m.content.mid)]
    case WaitPubcomp => [SentPubrel(m.content.mid)]
  }

  predicate Overdue(m: Msg, retry: nat, now: int) {
    m.timestamp + retry < now && m.state != Invalid
  }

  function RetryMsg(m: Msg, retry: nat, now: int): Msg {
    if Overdue(m, retry, now) then m.(timestamp := now, dup := true) else m
  }

  function RetryList(ms: seq<Msg>, retry: nat, now: int): (rs: seq<Msg>)
    ensures |rs| == |ms|
    ensures forall k :: 0 <= k < |ms| ==> rs[k] == RetryMsg(ms[k], retry, now)
  {
    if ms == [] then [] else RetryList(ms[..|ms| - 1], retry, now) + [RetryMsg(ms[|ms| - 1], retry, now)]
  }

  function RetryOne(m: Msg, retry: nat, now: int): seq<Sent> {
    if Overdue(m, retry, now) then RetryPacket(m, true) else []
  }

  function RetrySends(ms: seq<Msg>, retry: nat, now: int): seq<Sent> {
    if ms == [] then [] else RetrySends(ms[..|ms| - 1], retry, now) + RetryOne(ms[|ms| - 1], retry, now)
  }

  function DropScript(script: seq<bool>, n: nat): seq<bool> {
    if n >= |script| then [] else script[n..]
  }

  /** The clock as read for the outgoing and for the incoming list. */
  datatype Clock = Clock(out: int, inn: int)

  /** _mosquitto_message_retry_check: one pass over the outgoing list, one over the incoming
      one. Whether the sends succeed does not matter. */
  function Retry(s: State, now: Clock): State {
    var sends := RetrySends(s.out, s.retry, now.out) + RetrySends(s.inn, s.retry, now.inn);
    s.(out := RetryList(s.out, s.retry, now.out), inn := RetryList(s.inn, s.retry, now.inn),
       sent := s.sent + sends, script := DropScript(s.script, |sends|))
  }

  // ---------------------------------------------------------------- receiving

  /** The PUBLISH handler, once the packet is parsed. */
  function Receive(s: State, c: Content, dup: bool, now: int): State {
    if c.qos == 0 then s.(delivered := s.delivered + [c])
    else if c.qos == 1 then Send(s, SentPuback(c.mid)).(delivered := s.delivered + [c])
    else
      Send(s, SentPubrec(c.mid)).(inn := s.inn + [Msg(c, WaitPubrel, dup, now)], inLen := s.inLen + 1)
  }

  /** The first message with the id, if there is one, leaves the list and is passed on. */
  function PassOn(s: State, mid: uint16): State {
    var i := Find(s.inn, mid);
    if i == |s.inn| then s
    else s.(inn := Without(s.inn, i), inLen := s.inLen - 1, delivered := s.delivered + [s.inn[i].content])
  }

  /** The PUBREL handler; `flagsOk` is its test of the reserved header bits. */
  function Pubrel(s: State, mid: uint16, flagsOk: bool): State {
    if flagsOk then Send(PassOn(s, mid), SentPubcomp(mid)) else s
  }

  // ---------------------------------------------------------------- runs

  datatype Event =
    | DoPublish(c: Content, now: int)
    | DoDraw                            // a packet id for SUBSCRIBE or UNSUBSCRIBE
    | OnAck(mid: uint16)                // PUBACK or PUBCOMP
    | OnPubrec(mid: uint16, now: int)
    | OnPublish(c: Content, dup: bool, now: int)
    | OnPubrel(mid: uint16, flagsOk: bool)
    | DoRetry(at: Clock)
    | DoReset

  function Step(s: State, e: Event): State {
    match e
    case DoPublish(c, now) => Publish(s, c, now)
    case DoDraw => s.(lastMid := NextMid(s.lastMid))
    case OnAck(mid) => Ack(s, mid)
    case OnPubrec(mid, now) => Pubrec(s, mid, now)
    case OnPublish(c, dup, now) => Receive(s, c, dup, now)
    case OnPubrel(mid, flagsOk) => Pubrel(s, mid, flagsOk)
    case DoRetry(now) => Retry(s, now)
    case DoReset => Reset(s)
  }

  function Run(s: State, es: seq<Event>): State {
    Fold(Step, s, es)
  }

  /** Every step of the run satisfies p. */
  predicate Along(p: (State, Event) -> bool, s: State, es: seq<Event>) {
    Always(Step, p, s, es)
  }

  lemma RunSnoc(s: State, es: seq<Event>, e: Event)
    ensures Run(s, es + [e]) == Step(Run(s, es), e)
  {
    FoldSnoc(Step, s, es, e);
  }

  lemma RunCons(s: State, e: Event, es: seq<Event>)
    ensures Run(s, [e] + es) == Run(Step(s, e), es)
  {
    FoldConcat(Step, s, [e], es);
    FoldOne(Step, s, e);
  }

  lemma AlongCons(p: (State, Event) -> bool, s: State, e: Event, es: seq<Event>)
    ensures Along(p, s, [e] + es) <==> p(s, e) && Along(p, Step(s, e), es)
  {
    AlwaysConcat(Step, p, s, [e], es);
    AlwaysSnoc(Step, p, s, [], e);
    assert [] + [e] == [e];
    FoldOne(Step, s, e);
  }
}
