/** XDR items and the fixed-size blocks that hold them (RFC 4506, sections 4.1, 4.7 and 4.11;
    main/Core/CXdrOutputStream.cpp, filter2ascii/CXdrInputStream.cpp). */
module Xdr {
  import opened Options
  import opened Bytes
  import opened Sequences

  /** The bits of a double. */
  datatype Double = Double(high: word, low: word)

  datatype Item = IntItem(n: word) | DoubleItem(d: Double) | StringItem(s: seq<byte>)

  datatype Kind = AnInt | ADouble | AString

  function KindOf(item: Item): Kind {
    match item
    case IntItem(_) => AnInt
    case DoubleItem(_) => ADouble
    case StringItem(_) => AString
  }

  /** Strings are counted by a word and padded to a multiple of four bytes. */
  predicate Encodable(item: Item) {
    item.StringItem? ==> |item.s| < WORD_LIMIT - 3
  }

  function Padding(n: nat): (p: nat)
    ensures p < 4 && (n + p) % 4 == 0
  {
    (4 - n % 4) % 4
  }

  function Zeros(n: nat): (z: seq<byte>)
    ensures |z| == n
  {
    seq(n, _ => 0)
  }

  function Encode(item: Item): (e: seq<byte>)
    requires Encodable(item)
    ensures 4 <= |e| && |e| % 4 == 0 && |e| == Length(item)
  {
    match item
    case IntItem(n) => WordBytes(Big, n)
    case DoubleItem(d) => WordBytes(Big, d.high) + WordBytes(Big, d.low)
    case StringItem(s) => WordBytes(Big, |s|) + s + Zeros(Padding(|s|))
  }

  function Length(item: Item): (n: nat)
    ensures 4 <= n && n % 4 == 0
  {
    match item
    case IntItem(_) => 4
    case DoubleItem(_) => 8
    case StringItem(s) => 4 + |s| + Padding(|s|)
  }

  /** The item of a kind at the front of some bytes, if they are enough for one. */
  function Decode(kind: Kind, bs: seq<byte>): Option<Item> {
    match kind
    case AnInt => if 4 <= |bs| then Some(IntItem(WordAt(Big, bs))) else None
    case ADouble => if 8 <= |bs| then Some(DoubleItem(Double(WordAt(Big, bs), WordAt(Big, bs[4..])))) else None
    case AString =>
      if |bs| < 4 then None
      else
        var n := WordAt(Big, bs);
        if 4 + n + Padding(n) <= |bs| then Some(StringItem(bs[4..4 + n])) else None
  }

  lemma DecodeEncoded(item: Item, tail: seq<byte>)
    requires Encodable(item)
    ensures Decode(KindOf(item), Encode(item) + tail) == Some(item)
  {
    hide WordBytes, WordAt;
    match item
    case IntItem(n) => WordRoundTrip(Big, n, tail);
    case DoubleItem(d) => DecodeDouble(d, tail);
    case StringItem(s) => DecodeString(s, tail);
  }

  lemma DecodeDouble(d: Double, tail: seq<byte>)
    ensures Decode(ADouble, Encode(DoubleItem(d)) + tail) == Some(DoubleItem(d))
  {
    hide WordBytes, WordAt;
    var bs, second := Encode(DoubleItem(d)) + tail, WordBytes(Big, d.low) + tail;
    assert bs == WordBytes(Big, d.high) + second && bs[4..] == second;
    WordRoundTrip(Big, d.high, second);
    WordRoundTrip(Big, d.low, tail);
  }

  lemma DecodeString(s: seq<byte>, tail: seq<byte>)
    requires Encodable(StringItem(s))
    ensures Decode(AString, Encode(StringItem(s)) + tail) == Some(StringItem(s))
  {
    hide WordBytes, WordAt, Padding, Zeros;
    var bs, after := Encode(StringItem(s)) + tail, s + Zeros(Padding(|s|)) + tail;
    assert bs == WordBytes(Big, |s|) + after;
    WordRoundTrip(Big, |s|, after);
    assert bs[4..] == after && after[..|s|] == s;
    assert bs[4..4 + |s|] == s;
  }

  /** Integers and the two halves of a double have their highest byte first; a string comes
      behind its length and before zeros that fill up the last four bytes. */
  lemma XdrLayout(item: Item)
    requires Encodable(item)
    ensures var e := Encode(item);
            match item
            case IntItem(n) => |e| == 4 && HighFirst(e, n)
            case DoubleItem(d) => |e| == 8 && HighFirst(e[..4], d.high) && HighFirst(e[4..], d.low)
            case StringItem(s) =>
              && HighFirst(e[..4], |s|) && e[4..4 + |s|] == s
              && |s| + 4 <= |e| < |s| + 8 && |e| % 4 == 0
              && forall k :: 4 + |s| <= k < |e| ==> e[k] == 0
  {
  }

  predicate HighFirst(bs: seq<byte>, w: word) {
    |bs| == 4 && var b0: int, b1: int, b2: int, b3: int := bs[0], bs[1], bs[2], bs[3];
                 b0 * 0x100_0000 + b1 * 0x1_0000 + b2 * 0x100 + b3 == w
  }

  predicate AllEncodable(items: seq<Item>) {
    forall i :: 0 <= i < |items| ==> Encodable(items[i])
  }

  function EncodeAll(items: seq<Item>): seq<byte>
    requires AllEncodable(items)
  {
    if items == [] then [] else Encode(items[0]) + EncodeAll(items[1..])
  }

  lemma {:induction false} EncodeAllMore(items: seq<Item>, item: Item)
    requires AllEncodable(items) && Encodable(item)
    ensures EncodeAll(items + [item]) == EncodeAll(items) + Encode(item)
  {
    hide Encode, Encodable;
    if items == [] {
      assert EncodeAll([item]) == Encode(item) + EncodeAll([]);
    } else {
      assert (items + [item])[1..] == items[1..] + [item];
      EncodeAllMore(items[1..], item);
      assert EncodeAll(items + [item]) == Encode(items[0]) + (EncodeAll(items[1..]) + Encode(item));
    }
  }

  lemma EncodeAllEmpty(items: seq<Item>)
    requires AllEncodable(items)
    ensures EncodeAll(items) == [] <==> items == []
  {
  }

  // Blocks

  const HEADER := 4

  /** A block of a file: the offset where its items end, the items, then whatever was left in
      the buffer. */
  predicate BlockHolds(size: nat, block: seq<byte>, items: seq<Item>) {
    && AllEncodable(items)
    && |block| == size < WORD_LIMIT
    && HEADER + |EncodeAll(items)| <= size
    && block[..HEADER] == WordBytes(Big, HEADER + |EncodeAll(items)|)
    && block[HEADER..HEADER + |EncodeAll(items)|] == EncodeAll(items)
  }

  ghost predicate FileHolds(size: nat, file: seq<seq<byte>>, blocks: seq<seq<Item>>) {
    |file| == |blocks| && forall b :: 0 <= b < |file| ==> BlockHolds(size, file[b], blocks[b])
  }

  function Somes<T>(s: seq<T>): (r: seq<Option<T>>)
    ensures |r| == |s| && forall i :: 0 <= i < |s| ==> r[i] == Some(s[i])
  {
    seq(|s|, i requires 0 <= i < |s| => Some(s[i]))
  }

  /** What successive gets meet in a file: the items of each block, and one phantom item,
      None, for each block that holds none. */
  function Reads(blocks: seq<seq<Item>>): seq<Option<Item>> {
    if blocks == [] then []
    else (if blocks[0] == [] then [None] else Somes(blocks[0])) + Reads(blocks[1..])
  }

  /** Gets return exactly the items written if and only if no block is empty. */
  lemma {:induction false} ReadsFaithful(blocks: seq<seq<Item>>)
    ensures Reads(blocks) == Somes(Flatten(blocks)) <==> forall b :: 0 <= b < |blocks| ==> blocks[b] != []
  {
    if blocks != [] {
      var rest := blocks[1..];
      ReadsFaithful(rest);
      var here, later := Somes(blocks[0]), Somes(Flatten(rest));
      assert Somes(Flatten(blocks)) == here + later;
      if blocks[0] == [] {
        assert Reads(blocks)[0] == None;
      } else {
        assert Reads(blocks)[|here|..] == Reads(rest) && Somes(Flatten(blocks))[|here|..] == later;
        if forall b :: 0 <= b < |rest| ==> rest[b] != [] {
          forall b | 0 <= b < |blocks| ensures blocks[b] != [] {
            assert b > 0 ==> blocks[b] == rest[b - 1];
          }
        } else {
          var b :| 0 <= b < |rest| && rest[b] == [];
          assert blocks[b + 1] == [];
        }
      }
    }
  }

  /** An empty block at the end of a file adds a phantom item to what gets meet. */
  lemma {:induction false} ReadsTrailing(blocks: seq<seq<Item>>)
    ensures Reads(blocks + [[]]) == Reads(blocks) + [None]
  {
    var last: seq<seq<Item>> := [[]];
    if blocks == [] {
      assert blocks + last == last && last[1..] == [];
    } else {
      assert (blocks + [[]])[1..] == blocks[1..] + [[]];
      ReadsTrailing(blocks[1..]);
    }
  }
}
