/** The buffered XDR input stream (filter2ascii/CXdrInputStream.cpp). */
module XdrInputStreams {
  import opened Options
  import opened Bytes
  import opened Xdr

  class XdrInputStream {
    const bufferSize: nat
    const buffer: array<byte>
    var pos: nat
    var nSize: nat
    var isOpen: bool

    /** Blocks of the file not yet read. */
    var unread: seq<seq<byte>>

    /** The blocks of the file. */
    ghost const whole: seq<seq<byte>>

    /** The items left in the buffer, and those of the unread blocks. */
    ghost var current: seq<Item>
    ghost var later: seq<seq<Item>>

    constructor (bufferSize: nat, file: seq<seq<byte>>, ghost blocks: seq<seq<Item>>)
      requires HEADER <= bufferSize < WORD_LIMIT && FileHolds(bufferSize, file, blocks)
      ensures Valid() && !isOpen && fresh(buffer) && this.bufferSize == bufferSize
      ensures unread == file == whole && later == blocks
    {
      this.bufferSize, whole := bufferSize, file;
      buffer := new byte[bufferSize];
      pos, nSize, isOpen, unread, current, later := 0, 0, false, file, [], blocks;
    }

    ghost predicate Valid()
      reads this, buffer
    {
      && Readable()
      && (isOpen ==>
            && HEADER <= pos <= nSize <= bufferSize
            && AllEncodable(current)
            && buffer[pos..nSize] == EncodeAll(current)
            && (current == [] ==> pos == HEADER)
            && |unread| < |whole| && buffer[..] == whole[|whole| - |unread| - 1])
    }

    ghost predicate Readable()
      reads this, buffer
    {
      && HEADER <= buffer.Length == bufferSize < WORD_LIMIT && FileHolds(bufferSize, unread, later)
      && |unread| <= |whole| && unread == whole[|whole| - |unread|..]
    }

    /** Items that gets will still meet; None stands for the bytes behind an empty block. */
    ghost function Expect(): (e: seq<Option<Item>>)
      reads this
      ensures e != [] <==> isOpen
    {
      if !isOpen then []
      else (if current == [] then [None] else Somes(current)) + Reads(later)
    }

    method Connect()
      requires Valid() && !isOpen
      modifies this, buffer
      ensures Valid() && Expect() == Reads(old(later))
    {
      isOpen := true;
      DoRead();
    }

    method Load(block: seq<byte>)
      requires |block| == buffer.Length
      modifies buffer
      ensures buffer[..] == block
    {
      forall i | 0 <= i < buffer.Length {
        buffer[i] := block[i];
      }
    }

    /** Read the next block, or disconnect at the end of the file; then take the header of
        whatever the buffer holds. */
    method DoRead()
      requires Readable() && isOpen
      modifies this, buffer
      ensures Valid() && Expect() == Reads(old(later))
    {
      hide EncodeAll, Encodable, WordAt, WordBytes, Somes;
      if unread == [] {
        isOpen := false;
      } else {
        var block := unread[0];
        assert BlockHolds(bufferSize, block, later[0]);
        Load(block);
        BlockHeader(bufferSize, block, later[0]);
        assert buffer[..HEADER] == buffer[..][..HEADER];
        assert unread[1..] == whole[|whole| - |unread| + 1..];
        unread := unread[1..];
        current, later := later[0], later[1..];
        assert buffer[HEADER..HEADER + |EncodeAll(current)|] == buffer[..][HEADER..HEADER + |EncodeAll(current)|];
      }
      nSize := WordAt(Big, buffer[..HEADER]);
      pos := HEADER;
    }

    /** Convert the next item; the converter's status is not looked at. At the end of the
        block's items the next block is read. None stands for an unconverted item. */
    method Get(kind: Kind) returns (item: Option<Item>)
      requires Valid() && isOpen
      requires Expect()[0].Some? ==> KindOf(Expect()[0].value) == kind
      modifies this, buffer
      ensures Valid() && Expect() == old(Expect())[1..]
      ensures old(Expect()) == [None] ==> item == Decode(kind, whole[|whole| - 1][HEADER..])
      ensures old(Expect())[0].Some? ==> item == old(Expect())[0]
    {
      hide Decode, Length, EncodeAll, Reads, Somes, FileHolds, Encodable, Valid;
      OnlyPhantom(current, later);
      ExpectFirst(current, later);
      NextUp();
      ghost var bytes := buffer[pos..];
      item := Decode(kind, buffer[pos..]);
      Advance(item, bytes);
      ConditionalRead();
    }

    /** At the position is the next item or, in an empty last block, what the block holds
        behind its header. */
    lemma NextUp()
      requires Valid() && isOpen
      ensures pos <= nSize <= bufferSize == buffer.Length
      ensures current != [] ==>
                && Decode(KindOf(current[0]), buffer[pos..]) == Some(current[0])
                && pos + Length(current[0]) <= nSize
                && buffer[pos..][Length(current[0])..nSize - pos] == EncodeAll(current[1..])
      ensures current == [] && later == [] ==> whole != [] && HEADER <= |whole[|whole| - 1]|
      ensures current == [] && later == [] ==> buffer[pos..] == whole[|whole| - 1][HEADER..]
    {
      hide Decode, Length, EncodeAll, Encodable, Encode;
      assert buffer[..][HEADER..] == buffer[HEADER..];
      assert buffer[pos..nSize] == buffer[pos..][..nSize - pos];
      TakeFirst(current, buffer[pos..], nSize - pos);
    }

    /** Move past a converted item. */
    method Advance(item: Option<Item>, ghost bytes: seq<byte>)
      requires Valid() && isOpen && bytes == buffer[pos..]
      requires current != [] ==>
                 item == Some(current[0]) && pos + Length(current[0]) <= nSize
                 && bytes[Length(current[0])..nSize - pos] == EncodeAll(current[1..])
      modifies `pos, `current
      ensures Readable()
      ensures current == (if old(current) == [] then [] else old(current)[1..])
      ensures if current == [] then pos >= nSize else Valid() && pos < nSize
    {
      hide Length, Encode, EncodeAll, Encodable, FileHolds, Decode;
      EncodeAllEmpty(current);
      ghost var from := pos;
      pos := if item.Some? then pos + Length(item.value) else pos;
      if current != [] {
        assert buffer[pos..nSize] == bytes[pos - from..nSize - from];
        current := current[1..];
        EncodeAllEmpty(current);
      }
    }

    /** Read the next block once the position reaches the end of the items. */
    method ConditionalRead()
      requires Readable() && isOpen && (current == [] ==> pos >= nSize) && (current != [] ==> Valid() && pos < nSize)
      modifies this, buffer
      ensures Valid() && Expect() == old(Somes(current) + Reads(later))
    {
      if pos >= nSize {
        DoRead();
      }
    }
  }

  lemma OnlyPhantom(current: seq<Item>, later: seq<seq<Item>>)
    ensures (if current == [] then [None] else Somes(current)) + Reads(later) == [None]
       <==> current == [] && later == []
  {
    var e := (if current == [] then [None] else Somes(current)) + Reads(later);
    if current != [] {
      assert e[0] == Some(current[0]);
    } else {
      assert |e| == 1 + |Reads(later)|;
    }
  }

  lemma ExpectFirst(current: seq<Item>, later: seq<seq<Item>>)
    ensures var e := (if current == [] then [None] else Somes(current)) + Reads(later);
            && e[1..] == Somes(if current == [] then [] else current[1..]) + Reads(later)
            && e[0] == if current == [] then None else Some(current[0])
  {
    hide Reads;
    var now, after := if current == [] then [None] else Somes(current), Reads(later);
    assert (now + after)[1..] == now[1..] + after;
    if current == [] {
      assert now[1..] == [] == Somes([]);
    } else {
      assert now[1..] == Somes(current[1..]);
    }
  }

  lemma BlockHeader(size: nat, block: seq<byte>, items: seq<Item>)
    requires HEADER <= size && BlockHolds(size, block, items)
    ensures WordAt(Big, block[..HEADER]) == HEADER + |EncodeAll(items)|
  {
    var end: word := HEADER + |EncodeAll(items)|;
    WordRoundTrip(Big, end, []);
    assert WordBytes(Big, end) + [] == WordBytes(Big, end);
  }

  /** The first item converts to itself and takes up its own bytes. */
  lemma TakeFirst(items: seq<Item>, bs: seq<byte>, n: nat)
    requires AllEncodable(items) && n <= |bs| && bs[..n] == EncodeAll(items)
    ensures items == [] <==> n == 0
    ensures items != [] ==>
              Decode(KindOf(items[0]), bs) == Some(items[0]) && Length(items[0]) <= n
              && bs[Length(items[0])..n] == EncodeAll(items[1..])
  {
    hide Encode, Decode, Encodable, Length;
    EncodeAllEmpty(items);
    if items != [] {
      var e := Encode(items[0]);
      assert bs == bs[..n] + bs[n..];
      assert bs == e + bs[|e|..];
      DecodeEncoded(items[0], bs[|e|..]);
    }
  }
}
