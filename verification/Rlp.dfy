/**
 RLP, the encoding of nested byte strings (Appendix B of the Ethereum Yellow Paper) that datagrams use
 (p2p/discovery.py): the bytes, their number, and reading them back.
 */
module Rlp {
  import opened Collections
  import opened ByteStreams

  const SIZE_LIMIT := 0x1_0000_0000_0000_0000

  datatype Item = Str(bytes: Bytes) | List(items: seq<Item>)

  // -------------------------------------------------------------------------------------------
  // How many bytes an item takes
  // -------------------------------------------------------------------------------------------

  /** How many bytes it takes to write a length. */
  function LengthOfLength(n: nat): (k: nat)
  {
    if n == 0 then 0 else 1 + LengthOfLength(n / 256)
  }

  function PrefixSize(n: nat): (k: nat)
  {
    if n <= 55 then 1 else 1 + LengthOfLength(n)
  }

  function RlpSize(i: Item): nat
    decreases i, 0
  {
    match i
    case Str(b) => if |b| == 1 && b[0] < 0x80 then 1 else PrefixSize(|b|) + |b|
    case List(items) => PrefixSize(RlpSizes(items)) + RlpSizes(items)
  }

  function RlpSizes(items: seq<Item>): nat
    decreases items, 1
  {
    if items == [] then 0 else RlpSize(items[0]) + RlpSizes(items[1..])
  }

  lemma {:induction false} LengthOfLengthGrows(n: nat, m: nat)
    requires n <= m
    ensures LengthOfLength(n) <= LengthOfLength(m)
  {
    if n > 0 {
      LengthOfLengthGrows(n / 256, m / 256);
    }
  }

  lemma PrefixGrows(n: nat, m: nat)
    requires n <= m
    ensures PrefixSize(n) <= PrefixSize(m)
  {
    LengthOfLengthGrows(n, m);
  }

  // -------------------------------------------------------------------------------------------
  // The bytes
  // -------------------------------------------------------------------------------------------

  lemma {:induction false} BigEndianLength(n: nat)
    ensures |BigEndian(n)| == LengthOfLength(n) && FromBigEndian(BigEndian(n)) == n
    ensures n > 0 ==> BigEndian(n) != []
  {
    if n > 0 {
      BigEndianLength(n / 256);
      var init := BigEndian(n / 256);
      assert (init + [n % 256])[..|init|] == init;
    }
  }

  /** Lengths below the limit take at most eight bytes. */
  lemma LengthFits(n: nat)
    requires n < SIZE_LIMIT
    ensures LengthOfLength(n) <= 8
  {
    LengthWithin(n, 0x100_0000_0000_0000, 7);
    LengthWithin(n / 256, 0x1_0000_0000_0000, 6);
    LengthWithin(n / 256 / 256, 0x100_0000_0000, 5);
    LengthWithin(n / 256 / 256 / 256, 0x1_0000_0000, 4);
    LengthWithin(n / 256 / 256 / 256 / 256, 0x100_0000, 3);
    LengthWithin(n / 256 / 256 / 256 / 256 / 256, 0x1_0000, 2);
    LengthWithin(n / 256 / 256 / 256 / 256 / 256 / 256, 256, 1);
    LengthWithin(n / 256 / 256 / 256 / 256 / 256 / 256 / 256, 1, 0);
  }

  lemma LengthWithin(n: nat, limit: nat, k: nat)
    requires n < 256 * limit
    ensures n / 256 < limit && (LengthOfLength(n / 256) <= k ==> LengthOfLength(n) <= k + 1)
    ensures limit == 1 ==> LengthOfLength(n / 256) == 0
  {
  }

  /** The length of what follows: in the first byte if it is short, else in bytes of its own. */
  function Prefix(isList: bool, n: nat): (p: Bytes)
    requires n < SIZE_LIMIT
    ensures |p| == PrefixSize(n)
  {
    BigEndianLength(n);
    LengthFits(n);
    var offset := if isList then 0xc0 else 0x80;
    if n <= 55 then [offset + n] else [offset + 55 + |BigEndian(n)|] + BigEndian(n)
  }

  function Encode(i: Item): (b: Bytes)
    requires RlpSize(i) < SIZE_LIMIT
    ensures |b| == RlpSize(i)
    decreases i, 0
  {
    match i
    case Str(b) => if |b| == 1 && b[0] < 0x80 then b else Prefix(false, |b|) + b
    case List(items) => Prefix(true, RlpSizes(items)) + EncodeAll(items)
  }

  function EncodeAll(items: seq<Item>): (b: Bytes)
    requires RlpSizes(items) < SIZE_LIMIT
    ensures |b| == RlpSizes(items)
    decreases items, 1
  {
    if items == [] then [] else Encode(items[0]) + EncodeAll(items[1..])
  }

  // -------------------------------------------------------------------------------------------
  // Reading them back
  // -------------------------------------------------------------------------------------------

  /** What a prefix says: whether a list follows, where it starts, and how long it is. */
  datatype Head = Head(isList: bool, start: nat, length: nat)

  function ReadHead(s: Bytes): Option<Head>
  {
    if s == [] || s[0] < 0x80 then None
    else
      var isList := s[0] >= 0xc0;
      var n := s[0] as int - if isList then 0xc0 else 0x80;
      if n <= 55 then Some(Head(isList, 1, n))
      else
        var k := n - 55;
        if |s| < 1 + k then None else Some(Head(isList, 1 + k, FromBigEndian(s[1..1 + k])))
  }

  /** The first item of a byte string, and how many bytes it took. */
  function Decode(s: Bytes): Option<(Item, nat)>
    decreases |s|, 0
  {
    if s == [] then None
    else if s[0] < 0x80 then Some((Str([s[0]]), 1))
    else
      match ReadHead(s)
      case None => None
      case Some(h) =>
        var end := h.start + h.length;
        if end > |s| || h.start == 0 then None
        else if !h.isList then Some((Str(s[h.start..end]), end))
        else
          match DecodeAll(s[h.start..end])
          case None => None
          case Some(items) => Some((List(items), end))
  }

  function DecodeAll(s: Bytes): Option<seq<Item>>
    decreases |s|, 1
  {
    if s == [] then Some([])
    else
      match Decode(s)
      case None => None
      case Some((i, used)) =>
        if used == 0 || used > |s| then None
        else
          match DecodeAll(s[used..])
          case None => None
          case Some(items) => Some([i] + items)
  }

  lemma HeadRoundTrip(isList: bool, n: nat, rest: Bytes)
    requires n < SIZE_LIMIT
    ensures ReadHead(Prefix(isList, n) + rest) == Some(Head(isList, PrefixSize(n), n))
  {
    hide BigEndian, FromBigEndian, LengthOfLength;
    BigEndianLength(n);
    LengthFits(n);
    var digits, s := BigEndian(n), Prefix(isList, n) + rest;
    if n > 55 {
      assert s[1..1 + |digits|] == digits;
    }
  }

  lemma {:induction false} RoundTrip(i: Item, rest: Bytes)
    requires RlpSize(i) < SIZE_LIMIT
    ensures Decode(Encode(i) + rest) == Some((i, RlpSize(i)))
    decreases i, 0
  {
    hide Prefix, ReadHead, PrefixSize;
    var s := Encode(i) + rest;
    match i
    case Str(b) =>
      if |b| == 1 && b[0] < 0x80 {
        assert [s[0]] == b;
      } else {
        assert s == Prefix(false, |b|) + (b + rest);
        HeadRoundTrip(false, |b|, b + rest);
        FirstByte(false, |b|, b + rest);
        var n := PrefixSize(|b|);
        assert s[n..n + |b|] == b;
      }
    case List(items) =>
      var body := EncodeAll(items);
      assert s == Prefix(true, |body|) + (body + rest);
      HeadRoundTrip(true, |body|, body + rest);
      FirstByte(true, |body|, body + rest);
      var n := PrefixSize(|body|);
      assert s[n..n + |body|] == body;
      RoundTripAll(items);
  }

  lemma FirstByte(isList: bool, n: nat, rest: Bytes)
    requires n < SIZE_LIMIT
    ensures (Prefix(isList, n) + rest)[0] >= 0x80 && PrefixSize(n) > 0
  {
  }

  lemma {:induction false} RoundTripAll(items: seq<Item>)
    requires RlpSizes(items) < SIZE_LIMIT
    ensures DecodeAll(EncodeAll(items)) == Some(items)
    decreases items, 1
  {
    if items != [] {
      RoundTrip(items[0], EncodeAll(items[1..]));
      RoundTripAll(items[1..]);
      SomeBytes(items[0]);
      var first := Encode(items[0]);
      assert (first + EncodeAll(items[1..]))[|first|..] == EncodeAll(items[1..]);
      assert [items[0]] + items[1..] == items;
    }
  }

  lemma SomeBytes(i: Item)
    ensures RlpSize(i) > 0
  {
  }
}
