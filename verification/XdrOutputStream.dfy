/** The buffered XDR output stream (main/Core/CXdrOutputStream.cpp). */
module XdrOutputStreams {
  import opened Options
  import opened Bytes
  import opened Sequences
  import opened Xdr

  predicate NoneEmpty(blocks: seq<seq<Item>>) {
    forall b :: 0 <= b < |blocks| ==> blocks[b] != []
  }

  lemma NoneEmptyMore(blocks: seq<seq<Item>>, last: seq<Item>)
    ensures NoneEmpty(blocks + [last]) <==> NoneEmpty(blocks) && last != []
  {
    var all := blocks + [last];
    if NoneEmpty(all) {
      assert all[|blocks|] == last;
      forall b | 0 <= b < |blocks| ensures blocks[b] != [] {
        assert all[b] == blocks[b];
      }
    }
  }

  /** The position after an item of some length, which a full buffer resets. */
  function NextPos(bufferSize: nat, pos: nat, length: nat): nat {
    if pos + length + 2 < bufferSize then pos + length else HEADER
  }

  /** Does twice the number of bytes fit behind the position? */
  predicate Fits(bufferSize: nat, pos: nat, nBytes: nat) {
    pos + nBytes * 2 < bufferSize
  }

  /** The position after asking for room. */
  function RequirePos(bufferSize: nat, pos: nat, nBytes: nat): nat {
    if Fits(bufferSize, pos, nBytes) then pos else HEADER
  }

  /** The item that a buffer starts with, or the last block if nothing is pending. */
  ghost predicate LedBy(blocks: seq<seq<Item>>, pending: seq<Item>, s: seq<byte>) {
    var last := if pending == [] && blocks != [] then blocks[|blocks| - 1] else pending;
    last != [] && last[0] == StringItem(s)
  }

  /** The bytes behind a block's header spell its first item. */
  lemma LeftBehind(size: nat, block: seq<byte>, items: seq<Item>)
    requires BlockHolds(size, block, items) && items != [] && HEADER <= size
    ensures Decode(KindOf(items[0]), block[HEADER..]) == Some(items[0])
  {
    hide Encode, Decode;
    var e, all := Encode(items[0]), EncodeAll(items);
    assert block[HEADER..][..|all|] == all == e + EncodeAll(items[1..]);
    assert block[HEADER..] == e + block[HEADER + |e|..];
    DecodeEncoded(items[0], block[HEADER + |e|..]);
  }

  class XdrOutputStream {
    const bufferSize: nat
    const buffer: array<byte>
    var pos: nat
    var isOpen: bool

    /** The blocks written to the file. */
    var file: seq<seq<byte>>

    /** The items in the written blocks, and those in the buffer. */
    ghost var blocks: seq<seq<Item>>
    ghost var pending: seq<Item>

    constructor (bufferSize: nat)
      requires HEADER <= bufferSize < WORD_LIMIT
      ensures Valid() && fresh(buffer) && this.bufferSize == bufferSize
      ensures isOpen && pos == HEADER && file == [] && blocks == [] && pending == []
    {
      this.bufferSize := bufferSize;
      buffer := new byte[bufferSize];
      pos, isOpen, file, blocks, pending := HEADER, true, [], [], [];
      new;
      assert buffer[HEADER..HEADER] == [];
    }

    ghost predicate Valid()
      reads this, buffer
    {
      && HEADER <= pos <= buffer.Length == bufferSize < WORD_LIMIT
      && AllEncodable(pending) && pos % 4 == 0 && (pos == HEADER <==> pending == [])
      && buffer[HEADER..pos] == EncodeAll(pending)
      && FileHolds(bufferSize, file, blocks)
      && (pos == HEADER && file != [] ==> buffer[HEADER..] == file[|file| - 1][HEADER..])
    }

    /** Everything put so far, in order. */
    ghost function Stream(): seq<Item>
      reads this
    {
      Flatten(blocks) + pending
    }

    predicate Test(nBytes: nat)
      reads this
    {
      Fits(bufferSize, pos, nBytes)
    }

    /** Write the buffer as a block whose header is the offset of its end. */
    method Flush()
      requires Valid()
      modifies this, buffer
      ensures Valid() && isOpen == old(isOpen)
      ensures blocks == old(blocks) + [old(pending)] && pending == [] && pos == HEADER
      ensures |file| == |old(file)| + 1 && |file[|file| - 1]| == bufferSize
      ensures file[|file| - 1][HEADER..] == old(buffer[HEADER..])
    {
      hide WordBytes, EncodeAll, Encodable;
      EncodeAllEmpty([]);
      var header := WordBytes(Big, pos);
      forall i | 0 <= i < HEADER {
        buffer[i] := header[i];
      }
      assert buffer[HEADER..pos] == old(buffer[HEADER..pos]);
      assert buffer[..][HEADER..pos] == buffer[HEADER..pos] && buffer[..][..HEADER] == header;
      assert BlockHolds(bufferSize, buffer[..], pending);
      file := file + [buffer[..]];
      blocks := blocks + [pending];
      pos, pending := HEADER, [];
      assert buffer[HEADER..HEADER] == [];
    }

    /** Have room for (twice) the bytes, flushing if there is not. */
    method Require(nBytes: nat) returns (fits: bool)
      requires Valid()
      modifies this, buffer
      ensures Valid() && isOpen == old(isOpen)
      ensures fits == old(Test(nBytes))
      ensures if fits then blocks == old(blocks) && pending == old(pending) && pos == old(pos)
              else blocks == old(blocks) + [old(pending)] && pending == [] && pos == HEADER
    {
      fits := Test(nBytes);
      if !fits {
        Flush();
      }
    }

    /** Copy the bytes of a converted item to the position. */
    method Append(bytes: seq<byte>, ghost item: Item)
      requires Valid() && Encodable(item) && bytes == Encode(item) && pos + |bytes| <= bufferSize
      modifies `pos, `pending, buffer
      ensures Valid() && pos == old(pos) + |bytes| && pending == old(pending) + [item]
    {
      hide Encode, EncodeAll;
      forall i | 0 <= i < |bytes| {
        buffer[pos + i] := bytes[i];
      }
      EncodeAllMore(pending, item);
      assert buffer[HEADER..pos + |bytes|] == old(buffer[HEADER..pos]) + bytes;
      pos := pos + |bytes|;
      pending := pending + [item];
      assert pending != [];
    }

    /** Convert an item into the buffer; the converter fails when it does not fit. */
    method Put(item: Item) returns (ok: bool)
      requires Valid() && Encodable(item)
      modifies this, buffer
      ensures ok == (old(pos) + Length(item) <= bufferSize)
      ensures ok ==> Valid() && isOpen == old(isOpen)
      ensures ok ==> if old(pos) + Length(item) + 2 < bufferSize
                     then blocks == old(blocks) && pending == old(pending) + [item] && pos == old(pos) + Length(item)
                     else blocks == old(blocks) + [old(pending) + [item]] && pending == [] && pos == HEADER
      ensures ok ==> Stream() == old(Stream()) + [item]
    {
      hide Encode, EncodeAll, Length;
      var bytes := Encode(item);
      if bufferSize < pos + |bytes| {
        return false;
      }
      Append(bytes, item);
      FlattenMore(blocks, pending);
      var _ := Require(1);
      ok := true;
    }

    /** A string first asks for room for its characters. */
    method PutString(s: seq<byte>) returns (ok: bool)
      requires Valid() && Encodable(StringItem(s))
      modifies this, buffer
      ensures var p := RequirePos(bufferSize, old(pos), |s| + 1);
              && ok == (p + Length(StringItem(s)) <= bufferSize)
              && (ok ==> pos == NextPos(bufferSize, p, Length(StringItem(s))))
      ensures ok ==> Valid() && isOpen == old(isOpen) && Stream() == old(Stream()) + [StringItem(s)]
      ensures ok ==> (NoneEmpty(blocks) <==> NoneEmpty(old(blocks)) && (old(Test(|s| + 1)) || old(pending) != []))
      ensures ok && old(Test(|s| + 1)) && old(pos) + Length(StringItem(s)) + 2 < bufferSize ==>
                blocks == old(blocks) && pending == old(pending) + [StringItem(s)]
      ensures ok && pos != HEADER ==>
                && pending != []
                && pending[0] == if RequirePos(bufferSize, old(pos), |s| + 1) == HEADER then StringItem(s)
                                 else old(pending)[0]
    {
      hide Length, EncodeAll, Encodable, FileHolds, Flatten, NoneEmpty;
      FlattenMore(blocks, pending);
      NoneEmptyMore(blocks, pending);
      var _ := Require(|s| + 1);
      NoneEmptyMore(blocks, pending + [StringItem(s)]);
      ok := Put(StringItem(s));
    }

    lemma StaleString()
      requires Valid()
      ensures forall s :: pending == [] && LedBy(blocks, [], s) ==>
                            Decode(AString, buffer[HEADER..]) == Some(StringItem(s))
    {
      hide Decode, EncodeAll, Encodable;
      if pending == [] && blocks != [] && blocks[|blocks| - 1] != [] {
        LeftBehind(bufferSize, file[|file| - 1], blocks[|blocks| - 1]);
      }
    }

    /** Closing flushes whatever the buffer holds. If that is nothing, the block it writes
        holds the bytes of the block before behind its header, and a reader takes the first
        of them for a string. */
    method Close()
      requires Valid() && isOpen
      modifies this, buffer
      ensures Valid() && !isOpen
      ensures blocks == old(blocks) + [old(pending)] && Flatten(blocks) == old(Stream())
      ensures |file| == |blocks| && HEADER <= |file[|file| - 1]|
      ensures forall s :: old(pending) == [] && LedBy(old(blocks), [], s) ==>
                            Decode(AString, file[|file| - 1][HEADER..]) == Some(StringItem(s))
    {
      hide Decode, BlockHolds, EncodeAll, Encodable, Flatten;
      FlattenMore(blocks, pending);
      StaleString();
      Flush();
      isOpen := false;
    }
  }
}
