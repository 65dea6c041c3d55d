/** The reader of net_mosq.c as a step function of its saved fields: one step for each byte
    it takes and one for each read that would have blocked. Class Reader is proved to follow
    it; what the reader makes of a stream, and when that depends on where the reads fall
    short, is proved here. */
module ReadSteps {
  import opened Codec

  /** What a read brought: a byte, or nothing for now, which ends the call. */
  datatype Item = Byte(b: byte) | Short

  /** The fields of the packet being read, what was handed over so far, and whether a length
      was refused. In a call, `asked` says that the command byte needs no read any more: it
      was read in this call, or is not 0. `count` is the negated number of digits while the
      length is incomplete, and their number afterwards. */
  datatype Progress = Progress(
    command: byte, asked: bool, count: int, length: nat, body: seq<byte>, handled: seq<Raw>, refused: bool)

  function Fresh(handled: seq<Raw>): Progress {
    Progress(0, false, 0, 0, [], handled, false)
  }

  function Refused(handled: seq<Raw>): Progress {
    Progress(0, false, 0, 0, [], handled, true)
  }

  /** One byte goes where the fields say: command, length or body. */
  function Take(c: Progress, b: byte): Progress
    requires -4 <= c.count
  {
    if !c.asked then c.(command := b, asked := true)
    else if c.count > 0 then c.(body := c.body + [b])
    else if c.count == -4 then Refused(c.handled)
    else
      var length := c.length + b % 128 * Pow128(-c.count);
      c.(length := length, count := if b < 128 then 1 - c.count else c.count - 1)
  }

  /** A complete packet is handed over, which ends the call. */
  function Settle(c: Progress): Progress {
    if c.asked && c.count > 0 && |c.body| == c.length then Fresh(c.handled + [Raw(c.command, c.body)]) else c
  }

  /** The next call asks for a command byte when the saved one is 0. */
  function Feed(c: Progress, item: Item): (c': Progress)
    requires -4 <= c.count
    ensures -4 <= c'.count
  {
    match item
    case Short => c.(asked := c.command != 0)
    case Byte(b) => if c.refused then c else Settle(Take(c, b))
  }

  function After(items: seq<Item>): (c: Progress)
    ensures -4 <= c.count
  {
    if items == [] then Fresh([]) else Feed(After(items[..|items| - 1]), items[|items| - 1])
  }

  lemma AfterSnoc(items: seq<Item>, item: Item)
    ensures After(items + [item]) == Feed(After(items), item)
  {
    assert (items + [item])[..|items|] == items;
  }

  function BytesOf(items: seq<Item>): seq<byte> {
    if items == [] then []
    else
      var last := items[|items| - 1];
      BytesOf(items[..|items| - 1]) + if last.Byte? then [last.b] else []
  }

  lemma BytesSnoc(items: seq<Item>, item: Item)
    ensures BytesOf(items + [item]) == BytesOf(items) + if item.Byte? then [item.b] else []
  {
    assert (items + [item])[..|items|] == items;
  }

  /** Bytes read without a shortage. */
  function Items(bs: seq<byte>): (items: seq<Item>)
    ensures |items| == |bs| && forall k :: 0 <= k < |bs| ==> items[k] == Byte(bs[k])
  {
    seq(|bs|, k requires 0 <= k < |bs| => Byte(bs[k]))
  }

  lemma ItemsSnoc(bs: seq<byte>)
    requires bs != []
    ensures Items(bs) == Items(bs[..|bs| - 1]) + [Byte(bs[|bs| - 1])]
  {
  }

  lemma {:induction false} BytesOfItems(items: seq<Item>, bs: seq<byte>)
    ensures BytesOf(items + Items(bs)) == BytesOf(items) + bs
  {
    if bs == [] {
      assert items + Items(bs) == items;
    } else {
      var front := bs[..|bs| - 1];
      ItemsSnoc(bs);
      assert items + Items(bs) == (items + Items(front)) + [Byte(bs[|bs| - 1])];
      BytesSnoc(items + Items(front), Byte(bs[|bs| - 1]));
      BytesOfItems(items, front);
      assert bs == front + [bs[|bs| - 1]];
    }
  }

  /** Several body bytes at once. */
  lemma {:induction false} AfterBody(items: seq<Item>, bs: seq<byte>)
    requires var c := After(items); c.asked && c.count > 0 && !c.refused && |c.body| + |bs| <= c.length
    requires bs != []
    ensures var c := After(items); After(items + Items(bs)) == Settle(c.(body := c.body + bs))
  {
    var (c, front, last) := (After(items), bs[..|bs| - 1], bs[|bs| - 1]);
    ItemsSnoc(bs);
    assert items + Items(bs) == (items + Items(front)) + [Byte(last)];
    AfterSnoc(items + Items(front), Byte(last));
    if front == [] {
      assert items + Items(front) == items && bs == [last];
    } else {
      AfterBody(items, front);
      assert c.body + front + [last] == c.body + bs;
    }
  }

  // ---------------------------------------------------------------- streams without zero commands

  /** Every packet of the stream, and what is left behind the last, starts with a byte that is
      not 0. */
  predicate NoZero(bs: seq<byte>)
    decreases |bs|
  {
    bs == [] || (bs[0] != 0 && (ParseOne(bs).Packet? ==> NoZero(bs[ParseOne(bs).size..])))
  }

  lemma {:induction false} NoZeroPrefix(bs: seq<byte>, more: seq<byte>)
    requires NoZero(bs + more)
    ensures NoZero(bs)
    decreases |bs|
  {
    if bs == [] {
    } else {
      assert (bs + more)[0] == bs[0];
      if ParseOne(bs).Packet? {
        var size := ParseOne(bs).size;
        ParseOneMore(bs, more);
        assert (bs + more)[size..] == bs[size..] + more;
        NoZeroPrefix(bs[size..], more);
      }
    }
  }

  /** What is left of such a stream does not start with 0 either. */
  lemma {:induction false} NoZeroRest(bs: seq<byte>)
    requires NoZero(bs)
    ensures var s := ParseStream(bs); s.rest == [] || s.rest[0] != 0
    decreases |bs|
  {
    match ParseOne(bs)
    case NeedMore =>
    case Malformed =>
    case Packet(raw, size) => NoZeroRest(bs[size..]);
  }

  // ---------------------------------------------------------------- the step function and the parser

  /** The fields as a function of the bytes since the last packet boundary. */
  function Holding(rest: seq<byte>, handled: seq<Raw>): Progress {
    if rest == [] then Fresh(handled)
    else
      match ParseLength(rest[1..])
      case Incomplete(v) => Progress(rest[0], true, 1 - |rest|, v, [], handled, false)
      case TooLong => Refused(handled)
      case Length(v, u) =>
        ParseLengthBounds(rest[1..]);
        Progress(rest[0], true, u, v, rest[1 + u..], handled, false)
  }

  /** What a one-shot parse of the bytes says the fields are. */
  function Parsed(bs: seq<byte>): Progress {
    var s := ParseStream(bs);
    if s.malformed then Refused(s.packets) else Holding(s.rest, s.packets)
  }

  lemma {:induction false} RestNeedsMore(bs: seq<byte>)
    ensures var s := ParseStream(bs); if s.malformed then ParseOne(s.rest).Malformed? else ParseOne(s.rest).NeedMore?
    decreases |bs|
  {
    match ParseOne(bs)
    case NeedMore =>
    case Malformed =>
    case Packet(raw, size) => RestNeedsMore(bs[size..]);
  }

  lemma ParseLengthSnoc(digits: seq<byte>, b: byte)
    requires ParseLength(digits).Incomplete?
    ensures |digits| <= 4
    ensures ParseLength(digits + [b]) ==
            if |digits| >= 4 then TooLong
            else
              var v := ParseLength(digits).partial + b % 128 * Pow128(|digits|);
              if b < 128 then Length(v, |digits| + 1) else Incomplete(v)
  {
    LengthFromSnoc(digits, b, 0, 0);
  }

  /** More body bytes leave the verdict on the length alone. */
  lemma MoreBody(before: seq<byte>, bytes: seq<byte>)
    requires before != [] && ParseLength(before[1..]).Length?
    ensures ParseLength((before + bytes)[1..]) == ParseLength(before[1..])
    ensures var u := ParseLength(before[1..]).used;
            1 + u <= |before| && (before + bytes)[1 + u..] == before[1 + u..] + bytes
  {
    assert (before + bytes)[1..] == before[1..] + bytes;
    LengthFromMore(before[1..], bytes, 0, 1, 0);
    ParseLengthBounds(before[1..]);
  }

  /** One more byte behind a boundary: the step does what parsing with it does. */
  ghost predicate Steps(rest: seq<byte>, handled: seq<Raw>, b: byte) {
    var c := Holding(rest, handled);
    -4 <= c.count &&
    match ParseOne(rest + [b])
    case NeedMore => Feed(c, Byte(b)) == Holding(rest + [b], handled)
    case Malformed => Feed(c, Byte(b)) == Refused(handled)
    case Packet(raw, size) => size == |rest| + 1 && Feed(c, Byte(b)) == Fresh(handled + [raw])
  }

  lemma StepsCommand(handled: seq<Raw>, b: byte)
    ensures Steps([], handled, b)
  {
    assert [] + [b] == [b] && [b][1..] == [];
  }

  lemma StepsLength(rest: seq<byte>, handled: seq<Raw>, b: byte)
    requires rest != [] && ParseLength(rest[1..]).Incomplete?
    ensures Steps(rest, handled, b)
  {
    var (digits, bs) := (rest[1..], rest + [b]);
    ParseLengthSnoc(digits, b);
    assert bs[1..] == digits + [b] && bs[0] == rest[0];
    if |digits| < 4 && b < 128 {
      assert bs[1 + |digits| + 1..] == [];
      var v := ParseLength(bs[1..]).value;
      assert v == 0 ==> bs[|bs|..|bs|] == [];
    }
  }

  lemma StepsBody(rest: seq<byte>, handled: seq<Raw>, b: byte)
    requires rest != [] && ParseLength(rest[1..]).Length? && ParseOne(rest).NeedMore?
    ensures Steps(rest, handled, b)
  {
    var (u, v) := (ParseLength(rest[1..]).used, ParseLength(rest[1..]).value);
    var bs := rest + [b];
    ParseLengthBounds(rest[1..]);
    MoreBody(rest, [b]);
    assert bs[0] == rest[0] && bs[1 + u..] == rest[1 + u..] + [b];
    if |bs| == 1 + u + v { assert bs[1 + u..1 + u + v] == bs[1 + u..]; }
  }

  lemma StepsAll(rest: seq<byte>, handled: seq<Raw>, b: byte)
    requires ParseOne(rest).NeedMore?
    ensures Steps(rest, handled, b)
  {
    if rest == [] { StepsCommand(handled, b); }
    else if ParseLength(rest[1..]).Incomplete? { StepsLength(rest, handled, b); }
    else { StepsBody(rest, handled, b); }
  }

  /** The step function computes the one-shot parse, one byte at a time, on every stream. */
  lemma ParsedNext(bs: seq<byte>, b: byte)
    ensures -4 <= Parsed(bs).count && Feed(Parsed(bs), Byte(b)) == Parsed(bs + [b])
  {
    var s := ParseStream(bs);
    RestNeedsMore(bs);
    ParseStreamSplit(bs, [b]);
    if !s.malformed {
      var bs1 := s.rest + [b];
      StepsAll(s.rest, s.packets, b);
      match ParseOne(bs1)
      case NeedMore => assert s.packets + [] == s.packets;
      case Malformed => assert s.packets + [] == s.packets;
      case Packet(raw, size) =>
        assert bs1[size..] == [];
        assert ParseStream([]) == Stream([], [], false);
    }
  }

  /** A shortage changes nothing, unless the byte behind the last boundary is 0. */
  lemma ParsedShort(bs: seq<byte>)
    requires var s := ParseStream(bs); s.malformed || s.rest == [] || s.rest[0] != 0
    ensures -4 <= Parsed(bs).count && Feed(Parsed(bs), Short) == Parsed(bs)
  {
    var s := ParseStream(bs);
    RestNeedsMore(bs);
    if s.rest != [] { ParseLengthBounds(s.rest[1..]); }
  }

  /** On a stream without zero commands the reader does what a one-shot parse of the bytes
      does, wherever the reads fell short. */
  lemma {:induction false} FollowsParser(items: seq<Item>)
    requires NoZero(BytesOf(items))
    ensures After(items) == Parsed(BytesOf(items))
  {
    if items == [] {
    } else {
      var (front, last) := (items[..|items| - 1], items[|items| - 1]);
      var bs := BytesOf(front);
      match last
      case Byte(b) =>
        NoZeroPrefix(bs, [b]);
        FollowsParser(front);
        ParsedNext(bs, b);
      case Short =>
        assert BytesOf(items) == bs;
        FollowsParser(front);
        NoZeroRest(bs);
        ParsedShort(bs);
    }
  }

  // ---------------------------------------------------------------- dependence on the reads

  /** Where the reader is when the call that read the last item is over. */
  function Result(items: seq<Item>): Progress {
    Feed(After(items), Short)
  }

  /** At no point of the stream does the result depend on where the reads fell short. */
  ghost predicate Determined(bs: seq<byte>) {
    forall n, i, j :: 0 <= n <= |bs| && BytesOf(i) == bs[..n] && BytesOf(j) == bs[..n] ==> Result(i) == Result(j)
  }

  /** A zero command with nothing read behind it does no harm yet. */
  lemma {:induction false} LastByteFree(items: seq<Item>, front: seq<byte>, b: byte)
    requires NoZero(front) && BytesOf(items) == front + [b]
    ensures -4 <= Parsed(front + [b]).count && Result(items) == Feed(Parsed(front + [b]), Short)
  {
    if items == [] {
      assert false;
    } else {
      var (before, last) := (items[..|items| - 1], items[|items| - 1]);
      if last.Byte? {
        assert (front + [b])[..|front|] == front && BytesOf(items)[..|front|] == BytesOf(before);
        FollowsParser(before);
        ParsedNext(front, b);
      } else {
        assert BytesOf(before) + [] == BytesOf(before);
        LastByteFree(before, front, b);
      }
    }
  }

  /** The boundary in front of the first zero command. */
  lemma {:induction false} FirstZero(bs: seq<byte>) returns (front: seq<byte>)
    requires !NoZero(bs)
    ensures |front| < |bs| && bs[..|front|] == front && bs[|front|] == 0
    ensures ParseStream(front).rest == [] && !ParseStream(front).malformed
    decreases |bs|
  {
    if bs[0] == 0 {
      front := [];
    } else {
      var size := ParseOne(bs).size;
      var rest := FirstZero(bs[size..]);
      front := bs[..size] + rest;
      assert front == bs[..|front|];
      OnePacket(bs, size, rest);
    }
  }

  lemma OnePacket(bs: seq<byte>, size: nat, rest: seq<byte>)
    requires ParseOne(bs).Packet? && size == ParseOne(bs).size
    requires ParseStream(rest).rest == [] && !ParseStream(rest).malformed
    ensures ParseStream(bs[..size] + rest).rest == [] && !ParseStream(bs[..size] + rest).malformed
  {
    var whole := bs[..size] + rest;
    ParseLengthBounds(bs[1..]);
    var u := ParseLength(bs[1..]).used;
    LengthCut(bs, size);
    MoreBody(bs[..size], rest);
    assert whole[1..] == (bs[..size] + rest)[1..] && whole[0] == bs[0];
    assert ParseOne(whole).Packet? && ParseOne(whole).size == size;
    assert whole[size..] == rest;
  }

  /** Cutting behind the digits leaves the length alone. */
  lemma LengthCut(bs: seq<byte>, size: nat)
    requires ParseOne(bs).Packet? && size == ParseOne(bs).size
    ensures ParseLength(bs[..size][1..]) == ParseLength(bs[1..])
  {
    var (v, u) := (ParseLength(bs[1..]).value, ParseLength(bs[1..]).used);
    ParseLengthBounds(bs[1..]);
    assert bs[..size][1..] + bs[size..] == bs[1..];
    LengthFromMore(bs[..size][1..], bs[size..], 0, 1, 0);
    if ParseLength(bs[..size][1..]).Incomplete? { CutIncomplete(bs[..size][1..], bs[size..]); }
  }

  /** Digits that are incomplete are all used by any length they grow into. */
  lemma CutIncomplete(digits: seq<byte>, more: seq<byte>)
    requires ParseLength(digits).Incomplete? && ParseLength(digits + more).Length?
    ensures ParseLength(digits + more).used > |digits|
  {
    IncompleteUses(digits, more, 0, 1, 0);
  }

  lemma {:induction false} IncompleteUses(digits: seq<byte>, more: seq<byte>, used: nat, mult: nat, value: nat)
    requires LengthFrom(digits, used, mult, value).Incomplete? && LengthFrom(digits + more, used, mult, value).Length?
    ensures LengthFrom(digits + more, used, mult, value).used > used + |digits|
    decreases |digits|
  {
    if digits == [] {
      UsesMore(digits + more, used, mult, value);
    } else {
      assert (digits + more)[1..] == digits[1..] + more;
      IncompleteUses(digits[1..], more, used + 1, mult * 128, value + digits[0] % 128 * mult);
    }
  }

  lemma {:induction false} UsesMore(bs: seq<byte>, used: nat, mult: nat, value: nat)
    requires LengthFrom(bs, used, mult, value).Length?
    ensures LengthFrom(bs, used, mult, value).used > used
    decreases |bs|
  {
    if bs[0] < 128 {
    } else {
      UsesMore(bs[1..], used + 1, mult * 128, value + bs[0] % 128 * mult);
    }
  }

  lemma {:induction false} AfterItems(bs: seq<byte>)
    ensures After(Items(bs)) == Parsed(bs) && BytesOf(Items(bs)) == bs
  {
    if bs == [] {
    } else {
      var (front, b) := (bs[..|bs| - 1], bs[|bs| - 1]);
      AfterItems(front);
      ItemsSnoc(bs);
      AfterSnoc(Items(front), Byte(b));
      BytesSnoc(Items(front), Byte(b));
      ParsedNext(front, b);
      assert front + [b] == bs;
    }
  }

  /** A stream read without a shortage, then a zero command and one byte more; and the same
      with a shortage between the two. */
  function Plain(front: seq<byte>, d: byte): seq<Item> {
    Items(front) + [Byte(0)] + [Byte(d)]
  }

  function Interrupted(front: seq<byte>, d: byte): seq<Item> {
    Items(front) + [Byte(0)] + [Short] + [Byte(d)]
  }

  lemma SameBytes(front: seq<byte>, d: byte)
    ensures BytesOf(Plain(front, d)) == BytesOf(Interrupted(front, d)) == front + [0] + [d]
  {
    var f := Items(front);
    AfterItems(front);
    BytesSnoc(f, Byte(0));
    BytesSnoc(f + [Byte(0)], Byte(d));
    BytesSnoc(f + [Byte(0)], Short);
    BytesSnoc(f + [Byte(0)] + [Short], Byte(d));
  }

  /** Behind a zero command, a shortage turns the next byte from a digit into a command. */
  lemma ShortageMatters(front: seq<byte>, d: byte)
    requires ParseStream(front).rest == [] && !ParseStream(front).malformed
    ensures Result(Plain(front, d)) != Result(Interrupted(front, d))
  {
    var (f, c) := (Items(front), Fresh(ParseStream(front).packets));
    assert After(f) == c by { AfterItems(front); }
    assert After(f + [Byte(0)]) == c.(asked := true) by { AfterSnoc(f, Byte(0)); }
    assert After(f + [Byte(0)] + [Short]) == c by { AfterSnoc(f + [Byte(0)], Short); }
    AfterSnoc(f + [Byte(0)], Byte(d));
    AfterSnoc(f + [Byte(0)] + [Short], Byte(d));
  }

  lemma {:induction false} AllDetermined(bs: seq<byte>, n: nat, i: seq<Item>, j: seq<Item>)
    requires n <= |bs| && BytesOf(i) == bs[..n] && BytesOf(j) == bs[..n]
    requires bs != [] ==> NoZero(bs[..|bs| - 1])
    ensures Result(i) == Result(j)
  {
    if n == |bs| && n > 0 {
      var (front, b) := (bs[..n - 1], bs[n - 1]);
      assert bs[..n] == front + [b];
      LastByteFree(i, front, b);
      LastByteFree(j, front, b);
    } else if n < |bs| {
      assert bs[..|bs| - 1] == bs[..n] + bs[n..|bs| - 1];
      NoZeroPrefix(bs[..n], bs[n..|bs| - 1]);
      FollowsParser(i);
      FollowsParser(j);
    } else {
      assert NoZero([]);
      FollowsParser(i);
      FollowsParser(j);
    }
  }

  /** The reads decide nothing exactly when no zero command has a byte behind it. */
  lemma DeterminedExactly(bs: seq<byte>)
    ensures Determined(bs) <==> bs == [] || NoZero(bs[..|bs| - 1])
  {
    if bs == [] || NoZero(bs[..|bs| - 1]) {
      forall n, i, j | 0 <= n <= |bs| && BytesOf(i) == bs[..n] && BytesOf(j) == bs[..n] ensures Result(i) == Result(j) {
        AllDetermined(bs, n, i, j);
      }
    } else {
      var front := FirstZero(bs[..|bs| - 1]);
      var n := |front| + 2;
      SameBytes(front, bs[n - 1]);
      ShortageMatters(front, bs[n - 1]);
      assert bs[..n] == front + [0] + [bs[n - 1]];
    }
  }

  lemma TwoItems(a: Item, b: Item)
    ensures After([a, b]) == Feed(Feed(Fresh([]), a), b)
    ensures BytesOf([a, b]) == BytesOf([a]) + if b.Byte? then [b.b] else []
    ensures BytesOf([a]) == if a.Byte? then [a.b] else []
  {
    assert [a, b] == [a] + [b] && [a] == [] + [a];
    AfterSnoc([a], b);
    AfterSnoc([], a);
    BytesSnoc([a], b);
    BytesSnoc([], a);
  }

  /** The shortest such stream: two zero bytes are a packet without a body, or two commands of
      which the first is forgotten. */
  lemma TwoZeros()
    ensures BytesOf([Byte(0), Byte(0)]) == [0, 0] == BytesOf([Byte(0), Short, Byte(0)])
    ensures After([Byte(0), Byte(0)]).handled == [Raw(0, [])] && After([Byte(0), Short, Byte(0)]).handled == []
  {
    TwoItems(Byte(0), Byte(0));
    TwoItems(Byte(0), Short);
    assert [Byte(0), Short] + [Byte(0)] == [Byte(0), Short, Byte(0)];
    AfterSnoc([Byte(0), Short], Byte(0));
    BytesSnoc([Byte(0), Short], Byte(0));
    assert Feed(Fresh([]), Byte(0)) == Fresh([]).(asked := true);
  }
}
