/** The bytes of MQTT control packets, as values: what the writers put on the wire and what
    the readers make of it. Bit operations on header bytes are written with / and %. */
module Codec {

  type byte = b: int | 0 <= b < 0x100
  type uint16 = w: int | 0 <= w < 0x1_0000
  type uint32 = w: int | 0 <= w < 0x1_0000_0000

  /** Four digits of seven bits: the largest remaining length. */
  const MAX_REMAINING: nat := 268435455

  datatype Option<+T> = None | Some(value: T)

  // ---------------------------------------------------------------- Remaining length

  function Pow128(k: nat): (p: nat)
    ensures p > 0
  {
    if k == 0 then 1 else 128 * Pow128(k - 1)
  }

  lemma Powers()
    ensures Pow128(1) == 128 && Pow128(2) == 16384 && Pow128(3) == 2097152
    ensures Pow128(4) == MAX_REMAINING + 1 && Pow128(5) == 0x8_0000_0000
  {
  }

  lemma {:induction false} PowMonotone(i: nat, j: nat)
    requires i <= j
    ensures Pow128(i) <= Pow128(j)
    decreases j
  {
    if i < j { PowMonotone(i, j - 1); }
  }

  /** Base 128, least significant digit first, top bit set on all digits but the last. */
  function EncodeLength(n: nat): (digits: seq<byte>)
    ensures |digits| >= 1
  {
    if n / 128 > 0 then [n % 128 + 128] + EncodeLength(n / 128) else [n % 128]
  }

  datatype LengthParse = Incomplete(partial: nat) | TooLong | Length(value: nat, used: nat)

  /** The reader's loop: `used` digits worth `value` are behind, the next weighs `mult`. A
      fifth digit is refused unseen. */
  function LengthFrom(bs: seq<byte>, used: nat, mult: nat, value: nat): LengthParse {
    if bs == [] then Incomplete(value)
    else if used >= 4 then TooLong
    else
      var v := value + bs[0] % 128 * mult;
      if bs[0] < 128 then Length(v, used + 1) else LengthFrom(bs[1..], used + 1, mult * 128, v)
  }

  function ParseLength(bs: seq<byte>): LengthParse {
    LengthFrom(bs, 0, 1, 0)
  }

  /** The size of the encoding: k digits reach up to 128^k - 1, and no smaller k does. */
  lemma {:induction false} EncodedSize(n: nat)
    ensures var k := |EncodeLength(n)|;
            n < Pow128(k) && (k > 1 ==> Pow128(k - 1) <= n)
  {
    if n / 128 > 0 {
      EncodedSize(n / 128);
    }
  }

  /** Encoding needs at most four digits exactly for lengths up to 268435455, and five are
      enough for any 32-bit number. */
  lemma FourDigits(n: nat)
    ensures |EncodeLength(n)| <= 4 <==> n <= MAX_REMAINING
    ensures n < 0x1_0000_0000 ==> |EncodeLength(n)| <= 5
  {
    EncodedSize(n);
    Powers();
    var k := |EncodeLength(n)|;
    if k > 4 { PowMonotone(4, k - 1); } else { PowMonotone(k, 4); }
    if k > 5 { PowMonotone(5, k - 1); }
  }

  lemma {:induction false} LengthFromEncoded(n: nat, rest: seq<byte>, used: nat, mult: nat, value: nat)
    requires used + |EncodeLength(n)| <= 4
    ensures LengthFrom(EncodeLength(n) + rest, used, mult, value)
         == Length(value + n * mult, used + |EncodeLength(n)|)
    decreases n
  {
    var bs := EncodeLength(n) + rest;
    if n / 128 > 0 {
      var (digit, high) := (n % 128, n / 128);
      LengthFromEncoded(high, rest, used + 1, mult * 128, value + digit * mult);
      assert bs[1..] == EncodeLength(high) + rest;
      assert bs[0] % 128 == digit;
      Distribute(digit, high, mult);
    }
  }

  lemma Distribute(a: int, b: int, m: int)
    ensures a * m + b * (m * 128) == (a + 128 * b) * m
  {
  }

  /** The reader gets back every length the writer can encode. */
  lemma LengthRoundTrip(n: nat, rest: seq<byte>)
    requires n <= MAX_REMAINING
    ensures ParseLength(EncodeLength(n) + rest) == Length(n, |EncodeLength(n)|)
  {
    FourDigits(n);
    LengthFromEncoded(n, rest, 0, 1, 0);
  }

  lemma LowestDigit(a: nat, high: nat)
    requires a < 128
    ensures EncodeLength(a + 128 * high) == if high == 0 then [a] else [128 + a] + EncodeLength(high)
  {
    assert (a + 128 * high) / 128 == high && (a + 128 * high) % 128 == a;
  }

  /** The digits, one by one: seven bits each from the lowest on, and 128 added to say that another
      follows. */
  lemma LengthDigits(a: nat, b: nat, c: nat, d: nat)
    requires a < 128 && b < 128 && c < 128 && d < 128
    ensures EncodeLength(a + 128 * (b + 128 * (c + 128 * d))) ==
            if b == c == d == 0 then [a]
            else if c == d == 0 then [128 + a, b]
            else if d == 0 then [128 + a, 128 + b, c]
            else [128 + a, 128 + b, 128 + c, d]
  {
    LowestDigit(a, b + 128 * (c + 128 * d));
    LowestDigit(b, c + 128 * d);
    LowestDigit(c, d);
    LowestDigit(d, 0);
  }

  lemma DigitFits(digit: nat, p: nat, value: nat)
    requires digit <= 127 && value < p
    ensures value + digit * p < 128 * p
  {
    assert digit * p <= 127 * p;
  }

  /** What any run of the reader's loop can say of the value it has. */
  lemma {:induction false} LengthFromBounds(bs: seq<byte>, used: nat, value: nat)
    requires used <= 4 && value < Pow128(used)
    ensures match LengthFrom(bs, used, Pow128(used), value)
            case Length(v, u) => used < u <= 4 && u <= used + |bs| && v < Pow128(u)
            case Incomplete(v) => used + |bs| <= 4 && v < Pow128(used + |bs|)
            case TooLong => used + |bs| > 4
    decreases |bs|
  {
    if bs != [] && used < 4 {
      var v := value + bs[0] % 128 * Pow128(used);
      DigitFits(bs[0] % 128, Pow128(used), value);
      if bs[0] >= 128 {
        LengthFromBounds(bs[1..], used + 1, v);
      }
    }
  }

  lemma ParseLengthBounds(bs: seq<byte>)
    ensures match ParseLength(bs)
            case Length(v, u) => 1 <= u <= 4 && u <= |bs| && v < Pow128(u) && v <= MAX_REMAINING
            case Incomplete(v) => |bs| <= 4 && v < Pow128(|bs|) && v <= MAX_REMAINING
            case TooLong => |bs| > 4
  {
    LengthFromBounds(bs, 0, 0);
    Powers();
    match ParseLength(bs)
    case Length(v, u) => PowMonotone(u, 4);
    case Incomplete(v) => PowMonotone(|bs|, 4);
    case TooLong =>
  }

  /** No other spelling of a length is shorter than the writer's. */
  lemma ShortestEncoding(bs: seq<byte>, n: nat, used: nat)
    requires ParseLength(bs) == Length(n, used)
    ensures |EncodeLength(n)| <= used
  {
    ParseLengthBounds(bs);
    EncodedSize(n);
    var k := |EncodeLength(n)|;
    if k > used { PowMonotone(used, k - 1); }
  }

  /** The verdict on a length field only depends on its own digits, and more bytes never
      change a verdict that has been reached. */
  lemma {:induction false} LengthFromMore(bs: seq<byte>, more: seq<byte>, used: nat, mult: nat, value: nat)
    ensures !LengthFrom(bs, used, mult, value).Incomplete? ==>
              LengthFrom(bs + more, used, mult, value) == LengthFrom(bs, used, mult, value)
    decreases |bs|
  {
    if bs != [] && used < 4 && bs[0] >= 128 {
      assert (bs + more)[1..] == bs[1..] + more;
      LengthFromMore(bs[1..], more, used + 1, mult * 128, value + bs[0] % 128 * mult);
    }
  }

  /** One more digit on an incomplete field. */
  lemma {:induction false} LengthFromSnoc(bs: seq<byte>, b: byte, used: nat, value: nat)
    requires LengthFrom(bs, used, Pow128(used), value).Incomplete?
    ensures used <= 4 ==> used + |bs| <= 4
    ensures var before := LengthFrom(bs, used, Pow128(used), value).partial;
            LengthFrom(bs + [b], used, Pow128(used), value) ==
            if used + |bs| >= 4 then TooLong
            else
              var v := before + b % 128 * Pow128(used + |bs|);
              if b < 128 then Length(v, used + |bs| + 1) else Incomplete(v)
    decreases |bs|
  {
    if bs == [] {
      assert (bs + [b])[1..] == [];
    } else {
      var (m, v) := (Pow128(used + 1), value + bs[0] % 128 * Pow128(used));
      assert (bs + [b])[1..] == bs[1..] + [b];
      assert LengthFrom(bs, used, Pow128(used), value) == LengthFrom(bs[1..], used + 1, m, v);
      assert LengthFrom(bs + [b], used, Pow128(used), value) == LengthFrom(bs[1..] + [b], used + 1, m, v);
      LengthFromSnoc(bs[1..], b, used + 1, v);
    }
  }

  // ---------------------------------------------------------------- Packets of a stream

  /** A control packet as the packet handler sees it: first byte and what follows the
      remaining length. */
  datatype Raw = Raw(command: byte, body: seq<byte>)

  function EncodeRaw(p: Raw): seq<byte> {
    [p.command] + EncodeLength(|p.body|) + p.body
  }

  datatype One = NeedMore | Malformed | Packet(raw: Raw, size: nat)

  /** The packet at the front of a stream, parsed at once. */
  function ParseOne(bs: seq<byte>): (one: One)
    ensures one.Packet? ==> 2 <= one.size <= |bs|
  {
    if bs == [] then NeedMore
    else
      match ParseLength(bs[1..])
      case Incomplete(_) => NeedMore
      case TooLong => Malformed
      case Length(v, u) =>
        ParseLengthBounds(bs[1..]);
        if |bs| < 1 + u + v then NeedMore
        else Packet(Raw(bs[0], bs[1 + u..1 + u + v]), 1 + u + v)
  }

  /** All complete packets of a stream, the bytes behind the last of them, and whether those
      bytes can never become a packet. */
  datatype Stream = Stream(packets: seq<Raw>, rest: seq<byte>, malformed: bool)

  function ParseStream(bs: seq<byte>): (s: Stream)
    ensures |s.rest| <= |bs|
    decreases |bs|
  {
    match ParseOne(bs)
    case NeedMore => Stream([], bs, false)
    case Malformed => Stream([], bs, true)
    case Packet(raw, size) =>
      var tail := ParseStream(bs[size..]);
      Stream([raw] + tail.packets, tail.rest, tail.malformed)
  }

  lemma ParseOneMore(bs: seq<byte>, more: seq<byte>)
    ensures !ParseOne(bs).NeedMore? ==> ParseOne(bs + more) == ParseOne(bs)
  {
    if !ParseOne(bs).NeedMore? {
      assert (bs + more)[1..] == bs[1..] + more;
      LengthFromMore(bs[1..], more, 0, 1, 0);
      if ParseOne(bs).Packet? {
        var used := ParseLength(bs[1..]).used;
        var end := ParseOne(bs).size;
        ParseLengthBounds(bs[1..]);
        assert (bs + more)[1 + used..end] == bs[1 + used..end];
      }
    }
  }

  /** `whole` is what comes of a stream whose front parsed to `s` when `more` follows. */
  predicate Continues(s: Stream, more: seq<byte>, whole: Stream) {
    if s.malformed then whole == Stream(s.packets, s.rest + more, true)
    else
      var tail := ParseStream(s.rest + more);
      whole == Stream(s.packets + tail.packets, tail.rest, tail.malformed)
  }

  lemma ContinuesCons(raw: Raw, s: Stream, more: seq<byte>, whole: Stream)
    requires Continues(s, more, whole)
    ensures Continues(s.(packets := [raw] + s.packets), more, whole.(packets := [raw] + whole.packets))
  {
    var tail := ParseStream(s.rest + more);
    assert [raw] + (s.packets + tail.packets) == ([raw] + s.packets) + tail.packets;
  }

  /** Parsing a stream in two pieces: the complete packets of the first piece, then those of
      what it left together with the second. */
  lemma {:induction false} ParseStreamSplit(bs: seq<byte>, more: seq<byte>)
    ensures Continues(ParseStream(bs), more, ParseStream(bs + more))
    decreases |bs|
  {
    ParseOneMore(bs, more);
    match ParseOne(bs)
    case NeedMore =>
      var tail := ParseStream(bs + more);
      assert [] + tail.packets == tail.packets;
    case Malformed =>
    case Packet(raw, size) =>
      assert (bs + more)[size..] == bs[size..] + more;
      ParseStreamSplit(bs[size..], more);
      ContinuesCons(raw, ParseStream(bs[size..]), more, ParseStream((bs + more)[size..]));
  }

  /** The stream of encoded packets parses to these packets and leaves nothing. */
  function EncodeAll(ps: seq<Raw>): seq<byte> {
    if ps == [] then [] else EncodeRaw(ps[0]) + EncodeAll(ps[1..])
  }

  lemma ParseOneEncoded(p: Raw, more: seq<byte>)
    requires |p.body| <= MAX_REMAINING
    ensures ParseOne(EncodeRaw(p) + more) == Packet(p, |EncodeRaw(p)|)
  {
    var bs := EncodeRaw(p) + more;
    var digits := EncodeLength(|p.body|);
    assert bs[1..] == digits + (p.body + more);
    LengthRoundTrip(|p.body|, p.body + more);
    assert bs[1 + |digits|..1 + |digits| + |p.body|] == p.body;
  }

  lemma {:induction false} ParseEncodeAll(ps: seq<Raw>)
    requires forall k :: 0 <= k < |ps| ==> |ps[k].body| <= MAX_REMAINING
    ensures ParseStream(EncodeAll(ps)) == Stream(ps, [], false)
    decreases |ps|
  {
    if ps == [] {
    } else {
      ParseOneEncoded(ps[0], EncodeAll(ps[1..]));
      assert EncodeAll(ps)[|EncodeRaw(ps[0])|..] == EncodeAll(ps[1..]);
      ParseEncodeAll(ps[1..]);
      assert ps == [ps[0]] + ps[1..];
    }
  }

  /** Any front part of such a stream parses to a front part of the packets, so nothing is
      delivered out of order, altered or early. */
  lemma ParsePrefix(ps: seq<Raw>, front: seq<byte>)
    requires forall k :: 0 <= k < |ps| ==> |ps[k].body| <= MAX_REMAINING
    requires front <= EncodeAll(ps)
    ensures ParseStream(front).packets <= ps && !ParseStream(front).malformed
  {
    ParseEncodeAll(ps);
    assert front + EncodeAll(ps)[|front|..] == EncodeAll(ps);
    ParseStreamSplit(front, EncodeAll(ps)[|front|..]);
  }
}
