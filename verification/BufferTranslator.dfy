/** Byte-order translators (main/Core/BufferTranslator.h and .cpp). */
module BufferTranslators {
  import opened Bytes

  /** The two concrete translator classes. */
  datatype Kind = Swapping | NonSwapping

  /** What reading the bytes of a host word back through a translator yields. */
  function Translate(kind: Kind, host: ByteOrder, value: word): word {
    var bs := WordBytes(host, value);
    WordAt(host, if kind.Swapping? then Reverse(bs) else bs)
  }

  /** The byte-order test of createTranslator: any bit in the top half of the raw type. */
  function Detect(host: ByteOrder, rawType: word): Kind {
    if 0x1_0000 <= rawType then Swapping else NonSwapping
  }

  /** A translator in use: its class and the machine it runs on. */
  datatype Translator = Translator(kind: Kind, host: ByteOrder)

  lemma ReversedOrder(o: ByteOrder, bs: seq<byte>)
    requires |bs| == 4
    ensures WordAt(o, Reverse(bs)) == WordAt(if o.Little? then Big else Little, bs)
  {
  }

  /** The byte order that a translator reads. */
  function OrderRead(t: Translator): ByteOrder {
    if t.kind.NonSwapping? then t.host else if t.host.Little? then Big else Little
  }

  /** Reading a host word and translating it is reading the bytes in the source's order. */
  lemma TranslateReads(t: Translator, bs: seq<byte>)
    requires 4 <= |bs|
    ensures Translate(t.kind, t.host, WordAt(t.host, bs)) == WordAt(OrderRead(t), bs)
  {
    assert WordAt(t.host, bs) == WordAt(t.host, bs[..4]);
    WordBytesOfWordAt(t.host, bs[..4]);
    ReversedOrder(t.host, bs[..4]);
  }

  lemma WordBytesOfWordAt(o: ByteOrder, bs: seq<byte>)
    requires |bs| == 4
    ensures WordBytes(o, WordAt(o, bs)) == bs
  {
    var b0: int, b1: int, b2: int, b3: int := bs[0], bs[1], bs[2], bs[3];
    if o == Big {
      b0, b1, b2, b3 := b3, b2, b1, b0;
    }
    var w2 := b2 + 0x100 * b3;
    var w1 := b1 + 0x100 * w2;
    var w := b0 + 0x100 * w1;
    assert w % 0x100 == b0 && w / 0x100 == w1;
    assert w1 % 0x100 == b1 && w1 / 0x100 == w2;
    assert w2 % 0x100 == b2 && w2 / 0x100 == b3;
  }

  /** A legal type reads as itself in its own byte order, and with a bit in the top half in
      the other. */
  lemma RawType(host: ByteOrder, source: ByteOrder, itemType: word)
    requires 1 <= itemType < 0x1_0000
    ensures source == host ==> WordAt(host, WordBytes(source, itemType)) == itemType
    ensures source != host ==> WordAt(host, WordBytes(source, itemType)) >= 0x1_0000
  {
    if source == host {
      WordRoundTrip(host, itemType, []);
      assert WordBytes(host, itemType) + [] == WordBytes(host, itemType);
    } else {
      var w1 := itemType / 0x100;
      assert w1 / 0x100 == 0 && (itemType % 0x100 > 0 || w1 % 0x100 > 0);
    }
  }

  /** For a legal item type the test picks the translator that recovers every word the
      source machine wrote, whichever byte orders source and host have. */
  lemma DetectRecovers(host: ByteOrder, source: ByteOrder, itemType: word, value: word)
    requires 1 <= itemType < 0x1_0000
    ensures var kind := Detect(host, WordAt(host, WordBytes(source, itemType)));
            && (kind == Swapping <==> source != host)
            && Translate(kind, host, WordAt(host, WordBytes(source, itemType))) == itemType
            && Translate(kind, host, WordAt(host, WordBytes(source, value))) == value
  {
    hide WordAt, WordBytes, Reverse;
    var rawType := WordAt(host, WordBytes(source, itemType));
    RawType(host, source, itemType);
    if source == host {
      WordRoundTrip(host, itemType, []);
      WordRoundTrip(host, value, []);
      assert WordBytes(host, itemType) + [] == WordBytes(host, itemType);
      assert WordBytes(host, value) + [] == WordBytes(host, value);
    } else {
      WordBytesOfWordAt(host, WordBytes(source, itemType));
      WordBytesOfWordAt(host, WordBytes(source, value));
      ReversedOrder(host, WordBytes(source, itemType));
      ReversedOrder(host, WordBytes(source, value));
      WordRoundTrip(source, itemType, []);
      WordRoundTrip(source, value, []);
      assert WordBytes(source, itemType) + [] == WordBytes(source, itemType);
      assert WordBytes(source, value) + [] == WordBytes(source, value);
    }
  }

  /** Type 0 defeats the test: a swapped source is taken for a native one. */
  lemma TypeZeroIsNotDetected(host: ByteOrder, source: ByteOrder)
    ensures Detect(host, WordAt(host, WordBytes(source, 0))) == NonSwapping
  {
  }

  /** So for types of 16 bits the test is right about the byte orders if and only if the type
      is not zero or the orders are the same. */
  lemma DetectsIff(host: ByteOrder, source: ByteOrder, itemType: word)
    requires itemType < 0x1_0000
    ensures (Detect(host, WordAt(host, WordBytes(source, itemType))) == Swapping <==> source != host)
       <==> itemType != 0 || source == host
  {
    if itemType == 0 {
      TypeZeroIsNotDetected(host, source);
    } else {
      DetectRecovers(host, source, itemType, 0);
    }
  }

  lemma TranslateTwice(kind: Kind, host: ByteOrder, value: word)
    ensures Translate(kind, host, Translate(kind, host, value)) == value
  {
    var bs := WordBytes(host, value);
    WordRoundTrip(host, value, []);
    assert bs + [] == bs;
    WordBytesOfWordAt(host, Reverse(bs));
    assert Reverse(Reverse(bs)) == bs;
  }

  /** The eight bytes of a host quadword: low word first on a little-endian machine. */
  function QuadBytes(host: ByteOrder, low: word, high: word): (bs: seq<byte>)
    ensures |bs| == 8
  {
    match host
    case Little => WordBytes(Little, low) + WordBytes(Little, high)
    case Big => WordBytes(Big, high) + WordBytes(Big, low)
  }

  type quad = q: int | 0 <= q < WORD_LIMIT * WORD_LIMIT

  /** Reading eight bytes back as a quadword, and the part that a 32-bit variable keeps. */
  function LowWordAt(host: ByteOrder, bs: seq<byte>): word
    requires |bs| == 8
  {
    match host
    case Little => WordAt(Little, bs[..4])
    case Big => WordAt(Big, bs[4..])
  }

  /** TranslateLong where Long_t, declared as long, is eight bytes wide: the argument is
      widened, all eight bytes go through the translator, and the caller keeps 32 bits. */
  function TranslateWide(kind: Kind, host: ByteOrder, value: word): word {
    var bs := QuadBytes(host, value, 0);
    LowWordAt(host, if kind.Swapping? then Reverse(bs) else bs)
  }

  /** With a four-byte Long_t the result is Translate's. With an eight-byte one a swapping
      translator yields zero whatever the value, so the two agree only without swapping or
      on zero. */
  lemma WideSwapLosesValue(kind: Kind, host: ByteOrder, value: word)
    ensures kind.Swapping? ==> TranslateWide(kind, host, value) == 0
    ensures kind.NonSwapping? ==> TranslateWide(kind, host, value) == value
    ensures TranslateWide(kind, host, value) == Translate(kind, host, value) <==> kind.NonSwapping? || value == 0
  {
    var bs := QuadBytes(host, value, 0);
    WordRoundTrip(host, value, []);
    assert WordBytes(host, value) + [] == WordBytes(host, value);
    if kind.NonSwapping? {
      assert bs[if host.Little? then 0 else 4..][..4] == WordBytes(host, value);
    } else {
      TranslateTwice(kind, host, value);
      assert WordBytes(host, 0) == [0, 0, 0, 0];
      if host.Little? {
        assert bs[4] == 0 && bs[5] == 0 && bs[6] == 0 && bs[7] == 0;
      } else {
        assert bs[0] == 0 && bs[1] == 0 && bs[2] == 0 && bs[3] == 0;
      }
      assert Translate(kind, host, 0) == 0;
    }
  }

  class BufferTranslator {
    const kind: Kind
    const host: ByteOrder
    var buffer: array<byte>

    constructor (kind: Kind, host: ByteOrder, buffer: array<byte>)
      ensures this.kind == kind && this.host == host && this.buffer == buffer
    {
      this.kind := kind;
      this.host := host;
      this.buffer := buffer;
    }

    /** Copy `size` bytes from offset `iOffset`; a swapping translator then reverses them
        in place. */
    method GetBlock(item: array<byte>, size: nat, iOffset: nat)
      requires size <= item.Length && iOffset + size <= buffer.Length
      requires item != buffer
      modifies item
      ensures item[..size] == (if kind.Swapping? then Reverse(buffer[iOffset..iOffset + size])
                               else buffer[iOffset..iOffset + size])
      ensures item[size..] == old(item[size..])
    {
      var i := 0;
      while i < size
        invariant 0 <= i <= size
        invariant item[..i] == buffer[iOffset..iOffset + i]
        invariant item[size..] == old(item[size..])
      {
        item[i] := buffer[iOffset + i];
        i := i + 1;
      }
      if kind.Swapping? {
        ReverseInPlace(item, size);
      }
    }

    method ReverseInPlace(item: array<byte>, size: nat)
      requires size <= item.Length
      modifies item
      ensures item[..size] == Reverse(old(item[..size])) && item[size..] == old(item[size..])
    {
      ghost var copied := item[..size];
      var i := 0;
      while i < size / 2
        invariant 0 <= i <= size / 2
        invariant forall k :: 0 <= k < i ==> item[k] == copied[size - 1 - k] && item[size - 1 - k] == copied[k]
        invariant forall k :: i <= k < size - i ==> item[k] == copied[k]
        invariant item[size..] == old(item[size..])
      {
        item[i], item[size - 1 - i] := item[size - 1 - i], item[i];
        i := i + 1;
      }
      assert item[..size] == Reverse(copied);
    }

    method GetLongword(iOffset: nat) returns (longword: word)
      requires iOffset + 4 <= buffer.Length
      ensures longword == WordAt(host, if kind.Swapping? then Reverse(buffer[iOffset..iOffset + 4])
                                       else buffer[iOffset..iOffset + 4])
    {
      var item := new byte[4];
      GetBlock(item, 4, iOffset);
      assert item[..] == item[..4];
      longword := WordAt(host, item[..]);
    }

    /** Points the translator at the argument's own bytes, reads, and points it back. */
    method TranslateLong(value: word) returns (answer: word)
      modifies this
      ensures answer == Translate(kind, host, value)
      ensures buffer == old(buffer)
    {
      var saved := buffer;
      var bs := WordBytes(host, value);
      buffer := new byte[4](i requires 0 <= i < 4 => bs[i]);
      assert buffer[0..4] == bs;
      answer := GetLongword(0);
      buffer := saved;
    }

    /** Swap the two halves after translating each. */
    method GetQuad(value: quad) returns (result: quad)
      modifies this
      ensures buffer == old(buffer)
      ensures QuadBytes(host, result % WORD_LIMIT, result / WORD_LIMIT)
              == if kind.Swapping? then Reverse(QuadBytes(host, value % WORD_LIMIT, value / WORD_LIMIT))
                 else QuadBytes(host, value % WORD_LIMIT, value / WORD_LIMIT)
    {
      if kind.NonSwapping? {
        result := value;
        return;
      }
      var low: word := value / WORD_LIMIT;
      var high: word := value % WORD_LIMIT;
      var lowBytes, highBytes := WordBytes(host, low), WordBytes(host, high);
      low := TranslateLong(low);
      high := TranslateLong(high);
      result := high * WORD_LIMIT + low;
      WordBytesOfWordAt(host, Reverse(lowBytes));
      WordBytesOfWordAt(host, Reverse(highBytes));
      assert QuadBytes(host, low, high) == Reverse(QuadBytes(host, value % WORD_LIMIT, value / WORD_LIMIT));
      assert result % WORD_LIMIT == low && result / WORD_LIMIT == high;
    }
  }
}
