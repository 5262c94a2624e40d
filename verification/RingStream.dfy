/** The ring-item byte stream: one greedy parse, and the reassembly of a stream that
    arrives in buffers cut anywhere (main/Core/CRingBufferDecoder.cpp:618-749). */
module RingStream {
  import opened Bytes
  import opened Sequences
  import opened BufferTranslators

  const HEADER_SIZE := 8

  /** An item as dispatched: the translated type and the bytes that its size covers. */
  datatype Item = Item(itemType: word, bytes: seq<byte>)

  /** Items taken off the front of the stream, the bytes left, and whether a header of
      size zero stopped the program. */
  datatype Outcome = Outcome(items: seq<Item>, rest: seq<byte>, failed: bool)

  function SizeOf(t: Translator, s: seq<byte>): word
    requires HEADER_SIZE <= |s|
  {
    WordAt(OrderRead(t), s)
  }

  function TypeOf(t: Translator, s: seq<byte>): word
    requires HEADER_SIZE <= |s|
  {
    WordAt(OrderRead(t), s[4..])
  }

  function DetectAt(host: ByteOrder, s: seq<byte>): Translator
    requires HEADER_SIZE <= |s|
  {
    Translator(Detect(host, WordAt(host, s[4..])), host)
  }

  function Prepend(items: seq<Item>, o: Outcome): Outcome {
    o.(items := items + o.items)
  }

  lemma PrependTwice(xs: seq<Item>, ys: seq<Item>, o: Outcome)
    ensures Prepend(xs, Prepend(ys, o)) == Prepend(xs + ys, o)
  {
    assert xs + (ys + o.items) == (xs + ys) + o.items;
  }

  /** Take items while more than a header is left and the whole item is there. */
  function Parse(t: Translator, s: seq<byte>): Outcome
    decreases |s|
  {
    if |s| <= HEADER_SIZE then Outcome([], s, false)
    else if SizeOf(t, s) == 0 then Outcome([], s, true)
    else if SizeOf(t, s) > |s| then Outcome([], s, false)
    else Prepend([Item(TypeOf(t, s), s[..SizeOf(t, s)])], Parse(t, s[SizeOf(t, s)..]))
  }

  function BytesOf(items: seq<Item>): seq<byte> {
    if items == [] then [] else items[0].bytes + BytesOf(items[1..])
  }

  /** Nothing that can be dispatched is pending: at most a header, or a header whose item
      is longer than the bytes held. */
  predicate Resting(t: Translator, s: seq<byte>) {
    |s| <= HEADER_SIZE || |s| < SizeOf(t, s)
  }

  lemma BytesOfFirst(item: Item, items: seq<Item>)
    ensures BytesOf([item] + items) == item.bytes + BytesOf(items)
  {
    assert ([item] + items)[1..] == items;
  }

  /** No byte is lost or invented, and parsing stops only where nothing more can be taken. */
  lemma {:induction false} ParseConserves(t: Translator, s: seq<byte>)
    ensures BytesOf(Parse(t, s).items) + Parse(t, s).rest == s
    ensures !Parse(t, s).failed ==> Resting(t, Parse(t, s).rest)
    ensures Parse(t, s).failed ==> HEADER_SIZE < |Parse(t, s).rest| && SizeOf(t, Parse(t, s).rest) == 0
    decreases |s|
  {
    hide SizeOf, TypeOf, Parse, BytesOf;
    if HEADER_SIZE < |s| && 0 < SizeOf(t, s) <= |s| {
      var size := SizeOf(t, s);
      var item, p := Item(TypeOf(t, s), s[..size]), Parse(t, s[size..]);
      ParseWhole(t, s, size);
      ParseConserves(t, s[size..]);
      BytesOfFirst(item, p.items);
      assert s == s[..size] + (BytesOf(p.items) + p.rest);
    } else {
      NothingTaken(t, s);
    }
  }

  lemma NothingTaken(t: Translator, s: seq<byte>)
    requires !(HEADER_SIZE < |s| && 0 < SizeOf(t, s) <= |s|)
    ensures Parse(t, s) == Outcome([], s, HEADER_SIZE < |s| && SizeOf(t, s) == 0) && BytesOf([]) == []
  {
  }

  lemma ParseWhole(t: Translator, s: seq<byte>, size: nat)
    requires HEADER_SIZE < |s| && 0 < size <= |s| && SizeOf(t, s) == size
    ensures Parse(t, s) == Prepend([Item(TypeOf(t, s), s[..size])], Parse(t, s[size..]))
  {
  }

  lemma ParseOneMore(t: Translator, start: seq<byte>, items: seq<Item>, left: seq<byte>, size: nat)
    requires HEADER_SIZE < |left| && 0 < size <= |left| && SizeOf(t, left) == size
    requires Parse(t, start) == Prepend(items, Parse(t, left))
    ensures Parse(t, start) == Prepend(items + [Item(TypeOf(t, left), left[..size])], Parse(t, left[size..]))
  {
    ParseWhole(t, left, size);
    PrependTwice(items, [Item(TypeOf(t, left), left[..size])], Parse(t, left[size..]));
  }

  lemma ParseResting(t: Translator, s: seq<byte>)
    requires Resting(t, s)
    ensures Parse(t, s) == Outcome([], s, false)
  {
  }

  lemma ParseStops(t: Translator, s: seq<byte>)
    requires HEADER_SIZE < |s| && SizeOf(t, s) == 0
    ensures Parse(t, s) == Outcome([], s, true)
  {
  }

  lemma PrefixReads(t: Translator, a: seq<byte>, b: seq<byte>)
    requires HEADER_SIZE <= |a|
    ensures SizeOf(t, a + b) == SizeOf(t, a)
    ensures TypeOf(t, a + b) == TypeOf(t, a)
    ensures DetectAt(t.host, a + b) == DetectAt(t.host, a)
  {
    assert (a + b)[4..][..4] == a[4..][..4];
  }

  /** A completed item is the first of the parse of everything. */
  lemma ParseCompleted(t: Translator, whole: seq<byte>, left: seq<byte>)
    requires HEADER_SIZE < |whole| && SizeOf(t, whole) == |whole|
    ensures Parse(t, whole + left) == Prepend([Item(TypeOf(t, whole), whole)], Parse(t, left))
  {
    hide Parse;
    PrefixReads(t, whole, left);
    ParseWhole(t, whole + left, |whole|);
    assert (whole + left)[..|whole|] == whole && (whole + left)[|whole|..] == left;
  }

  /** More bytes never undo a dispatch: parse what came first, then what was left followed
      by the rest. */
  lemma {:induction false} ParseAppend(t: Translator, a: seq<byte>, b: seq<byte>)
    ensures var p := Parse(t, a);
            Parse(t, a + b) == if p.failed then p.(rest := p.rest + b)
                               else Prepend(p.items, Parse(t, p.rest + b))
    decreases |a|
  {
    hide SizeOf, TypeOf, Parse, DetectAt;
    if Resting(t, a) {
      ParseResting(t, a);
      assert Prepend([], Parse(t, a + b)) == Parse(t, a + b);
    } else {
      PrefixReads(t, a, b);
      var size := SizeOf(t, a);
      if size == 0 {
        ParseStops(t, a);
        ParseStops(t, a + b);
      } else {
        var first, p := [Item(TypeOf(t, a), a[..size])], Parse(t, a[size..]);
        assert (a + b)[..size] == a[..size];
        assert (a + b)[size..] == a[size..] + b;
        ParseWhole(t, a, size);
        ParseWhole(t, a + b, size);
        ParseAppend(t, a[size..], b);
        PrependTwice(first, p.items, Parse(t, p.rest + b));
      }
    }
  }

  // Deliveries

  /** What the decoder keeps between buffers. */
  datatype Carried = Carried(translator: Translator, carry: seq<byte>)

  /** A buffer that starts at an item boundary must hold a header, since the translator is
      chosen from its type. */
  predicate CanDeliver(carry: seq<byte>, chunk: seq<byte>) {
    carry == [] ==> HEADER_SIZE <= |chunk|
  }

  function TranslatorFor(st: Carried, chunk: seq<byte>): Translator
    requires CanDeliver(st.carry, chunk)
  {
    if st.carry == [] then DetectAt(st.translator.host, chunk) else st.translator
  }

  /** The effect of delivering one buffer. */
  function Deliver(st: Carried, chunk: seq<byte>): Outcome
    requires CanDeliver(st.carry, chunk)
  {
    Parse(TranslatorFor(st, chunk), st.carry + chunk)
  }

  ghost predicate AllDeliverable(st: Carried, chunks: seq<seq<byte>>)
    decreases |chunks|
  {
    chunks == [] ||
    (CanDeliver(st.carry, chunks[0]) &&
     var o := Deliver(st, chunks[0]);
     o.failed || AllDeliverable(Carried(TranslatorFor(st, chunks[0]), o.rest), chunks[1..]))
  }

  /** Deliver buffers until they run out or the program stops. */
  function Run(st: Carried, chunks: seq<seq<byte>>): Outcome
    requires AllDeliverable(st, chunks)
    decreases |chunks|
  {
    if chunks == [] then Outcome([], st.carry, false)
    else
      var o := Deliver(st, chunks[0]);
      if o.failed then o
      else Prepend(o.items, Run(Carried(TranslatorFor(st, chunks[0]), o.rest), chunks[1..]))
  }

  /** Every item of the stream passes the byte-order test for the same translator. */
  predicate UniformOrder(t: Translator, s: seq<byte>)
    decreases |s|
  {
    HEADER_SIZE <= |s| ==>
      && DetectAt(t.host, s) == t
      && (HEADER_SIZE < |s| && 0 < SizeOf(t, s) <= |s| ==> UniformOrder(t, s[SizeOf(t, s)..]))
  }

  lemma {:induction false} UniformAfterParse(t: Translator, a: seq<byte>, b: seq<byte>)
    requires UniformOrder(t, a + b) && !Parse(t, a).failed
    ensures UniformOrder(t, Parse(t, a).rest + b)
    decreases |a|
  {
    if HEADER_SIZE < |a| {
      PrefixReads(t, a, b);
      var size := SizeOf(t, a);
      if size <= |a| {
        assert (a + b)[size..] == a[size..] + b;
        UniformAfterParse(t, a[size..], b);
      }
    }
  }

  /** One delivery out of a stream of uniform order: the translator is the stream's, and
      what is left to parse is what is carried followed by what is still to come. */
  lemma DeliverFirst(t: Translator, st: Carried, chunk: seq<byte>, later: seq<seq<byte>>)
    requires st.translator.host == t.host && (st.carry != [] ==> st.translator == t)
    requires CanDeliver(st.carry, chunk)
    requires UniformOrder(t, st.carry + chunk + Flatten(later))
    ensures TranslatorFor(st, chunk) == t
    ensures var o, whole := Deliver(st, chunk), Parse(t, st.carry + chunk + Flatten(later));
            && (!o.failed ==> Resting(t, o.rest))
            && (if o.failed then whole.failed && whole.items == o.items
                else whole == Prepend(o.items, Parse(t, o.rest + Flatten(later)))
                     && UniformOrder(t, o.rest + Flatten(later)))
  {
    var soFar := st.carry + chunk;
    if st.carry == [] {
      assert soFar + Flatten(later) == chunk + Flatten(later);
      PrefixReads(t, chunk, Flatten(later));
    }
    ParseAppend(t, soFar, Flatten(later));
    ParseConserves(t, soFar);
    if !Parse(t, soFar).failed {
      UniformAfterParse(t, soFar, Flatten(later));
    }
  }

  lemma DeliverNext(t: Translator, whole: Outcome, done: seq<Item>, st: Carried, chunks: seq<seq<byte>>)
    requires chunks != [] && CanDeliver(st.carry, chunks[0])
    requires st.translator.host == t.host && (st.carry != [] ==> st.translator == t)
    requires UniformOrder(t, st.carry + Flatten(chunks))
    requires whole == Prepend(done, Parse(t, st.carry + Flatten(chunks)))
    ensures TranslatorFor(st, chunks[0]) == t
    ensures var o := Deliver(st, chunks[0]);
            if o.failed then whole.failed && whole.items == done + o.items
            else Resting(t, o.rest) && UniformOrder(t, o.rest + Flatten(chunks[1..]))
                 && whole == Prepend(done + o.items, Parse(t, o.rest + Flatten(chunks[1..])))
  {
    hide WordAt, Parse;
    assert st.carry + Flatten(chunks) == st.carry + chunks[0] + Flatten(chunks[1..]);
    DeliverFirst(t, st, chunks[0], chunks[1..]);
    var o := Deliver(st, chunks[0]);
    PrependTwice(done, o.items, Parse(t, o.rest + Flatten(chunks[1..])));
  }

  lemma NothingMore(t: Translator, carry: seq<byte>, chunks: seq<seq<byte>>, done: seq<Item>)
    requires chunks == [] && Resting(t, carry)
    ensures Prepend(done, Parse(t, carry + Flatten(chunks))) == Outcome(done, carry, false)
  {
    ParseResting(t, carry);
    assert carry + Flatten(chunks) == carry && done + [] == done;
  }

  lemma {:induction false} RunIsParse(t: Translator, st: Carried, chunks: seq<seq<byte>>)
    requires AllDeliverable(st, chunks)
    requires st.translator.host == t.host && (st.carry != [] ==> st.translator == t)
    requires Resting(t, st.carry) && UniformOrder(t, st.carry + Flatten(chunks))
    ensures var run, whole := Run(st, chunks), Parse(t, st.carry + Flatten(chunks));
            run.items == whole.items && run.failed == whole.failed && (!whole.failed ==> run.rest == whole.rest)
    decreases |chunks|
  {
    hide WordAt, Parse;
    if chunks == [] {
      ParseResting(t, st.carry);
      assert st.carry + Flatten(chunks) == st.carry;
    } else {
      assert st.carry + Flatten(chunks) == st.carry + chunks[0] + Flatten(chunks[1..]);
      DeliverFirst(t, st, chunks[0], chunks[1..]);
      var o := Deliver(st, chunks[0]);
      if !o.failed {
        RunIsParse(t, Carried(t, o.rest), chunks[1..]);
      }
    }
  }

  /** Chunking never matters: a fresh decoder that gets the stream in any deliverable
      pieces dispatches what one parse of the whole stream yields. */
  lemma ChunkingIndependence(before: Translator, t: Translator, chunks: seq<seq<byte>>)
    requires before.host == t.host
    requires AllDeliverable(Carried(before, []), chunks)
    requires UniformOrder(t, Flatten(chunks))
    ensures var run, whole := Run(Carried(before, []), chunks), Parse(t, Flatten(chunks));
            && run.items == whole.items
            && run.failed == whole.failed
            && (!whole.failed ==> run.rest == whole.rest && BytesOf(run.items) + run.rest == Flatten(chunks))
  {
    ParseConserves(t, Flatten(chunks));
    assert [] + Flatten(chunks) == Flatten(chunks);
    RunIsParse(t, Carried(before, []), chunks);
  }

  /** Two ways of cutting one stream give the same items and leave the same bytes. */
  lemma CuttingsAgree(t: Translator, cut1: seq<seq<byte>>, cut2: seq<seq<byte>>)
    requires Flatten(cut1) == Flatten(cut2) && UniformOrder(t, Flatten(cut1))
    requires AllDeliverable(Carried(t, []), cut1) && AllDeliverable(Carried(t, []), cut2)
    ensures Run(Carried(t, []), cut1).items == Run(Carried(t, []), cut2).items
    ensures Run(Carried(t, []), cut1).failed == Run(Carried(t, []), cut2).failed
    ensures !Run(Carried(t, []), cut1).failed ==> Run(Carried(t, []), cut1).rest == Run(Carried(t, []), cut2).rest
  {
    ChunkingIndependence(t, t, cut1);
    ChunkingIndependence(t, t, cut2);
  }

  /** Bytes left by one source change what the next one's bytes are parsed to: the outcome is
      the second stream's own if and only if there are none. */
  lemma OwnParseIffNothingLeft(t: Translator, left: seq<byte>, stream: seq<byte>)
    ensures Parse(t, left + stream) == Parse(t, stream) <==> left == []
  {
    ParseConserves(t, left + stream);
    ParseConserves(t, stream);
    if left == [] {
      assert left + stream == stream;
    } else {
      assert |left + stream| != |stream|;
    }
  }

  /** A whole item that was held back for being only a header arrives with the next source's
      first bytes, and the second stream is then parsed as its own. */
  lemma HeldBackArrivesLate(t: Translator, left: seq<byte>, stream: seq<byte>)
    requires |left| == HEADER_SIZE == SizeOf(t, left) && stream != []
    ensures Parse(t, left + stream) == Prepend([Item(TypeOf(t, left), left)], Parse(t, stream))
  {
    PrefixReads(t, left, stream);
    assert (left + stream)[..HEADER_SIZE] == left && (left + stream)[HEADER_SIZE..] == stream;
    ParseWhole(t, left + stream, HEADER_SIZE);
  }

  // A physics item of twelve bytes, cut behind the ninth, and another one
  const CUT_ITEM: seq<byte> := [12, 0, 0, 0, 30, 0, 0, 0, 1]
  const NEXT_ITEM: seq<byte> := [12, 0, 0, 0, 30, 0, 0, 0, 5, 5, 5, 5]

  /** The second source's item is swallowed: its first three bytes complete the first source's,
      and what is left of it waits for thousands of bytes more. */
  lemma CutItemSwallowsNext()
    ensures var t := Translator(NonSwapping, Little);
            && Parse(t, CUT_ITEM) == Outcome([], CUT_ITEM, false)
            && Parse(t, NEXT_ITEM) == Outcome([Item(30, NEXT_ITEM)], [], false)
            && Parse(t, CUT_ITEM + NEXT_ITEM)
               == Outcome([Item(30, CUT_ITEM + NEXT_ITEM[..3])], NEXT_ITEM[3..], false)
  {
    hide Parse;
    var t := Translator(NonSwapping, Little);
    var both := CUT_ITEM + NEXT_ITEM;
    ParseResting(t, CUT_ITEM);
    ParseWhole(t, NEXT_ITEM, 12);
    assert NEXT_ITEM[..12] == NEXT_ITEM && NEXT_ITEM[12..] == [];
    ParseResting(t, []);
    ParseWhole(t, both, 12);
    assert both[..12] == CUT_ITEM + NEXT_ITEM[..3] && both[12..] == NEXT_ITEM[3..];
    ParseResting(t, NEXT_ITEM[3..]);
  }

  // Streams that a data source writes

  /** An item as a data source writes it. */
  datatype SourceItem = SourceItem(itemType: word, body: seq<byte>)

  predicate Legal(item: SourceItem) {
    1 <= item.itemType < 0x1_0000 && HEADER_SIZE + |item.body| < WORD_LIMIT
  }

  function Encode(source: ByteOrder, item: SourceItem): seq<byte>
    requires Legal(item)
  {
    WordBytes(source, HEADER_SIZE + |item.body|) + WordBytes(source, item.itemType) + item.body
  }

  function EncodeAll(source: ByteOrder, items: seq<SourceItem>): seq<byte>
    requires forall i :: 0 <= i < |items| ==> Legal(items[i])
  {
    if items == [] then [] else Encode(source, items[0]) + EncodeAll(source, items[1..])
  }

  function Dispatched(source: ByteOrder, items: seq<SourceItem>): seq<Item>
    requires forall i :: 0 <= i < |items| ==> Legal(items[i])
  {
    seq(|items|, i requires 0 <= i < |items| => Item(items[i].itemType, Encode(source, items[i])))
  }

  /** The test at line 672 is strict, so an item that is only a header waits when it is the
      last thing delivered. */
  predicate LastHeldBack(items: seq<SourceItem>) {
    items != [] && items[|items| - 1].body == []
  }

  function SourceTranslator(host: ByteOrder, source: ByteOrder): Translator {
    Translator(if source == host then NonSwapping else Swapping, host)
  }

  lemma FirstFour(o: ByteOrder, bs: seq<byte>, tail: seq<byte>)
    requires |bs| == 4
    ensures WordAt(o, bs + tail) == WordAt(o, bs)
  {
  }

  lemma ReadEncoded(host: ByteOrder, source: ByteOrder, item: SourceItem, tail: seq<byte>)
    requires Legal(item)
    ensures var t, s := SourceTranslator(host, source), Encode(source, item) + tail;
            && SizeOf(t, s) == HEADER_SIZE + |item.body|
            && TypeOf(t, s) == item.itemType
            && DetectAt(host, s) == t
  {
    var s := Encode(source, item) + tail;
    var size: word := HEADER_SIZE + |item.body|;
    var afterType, afterSize := item.body + tail, WordBytes(source, item.itemType) + item.body + tail;
    assert s == WordBytes(source, size) + afterSize;
    assert s[4..] == WordBytes(source, item.itemType) + afterType;
    DetectRecovers(host, source, item.itemType, size);
    WordRoundTrip(source, size, afterSize);
    WordRoundTrip(source, item.itemType, afterType);
    FirstFour(host, WordBytes(source, item.itemType), afterType);
  }

  /** Taking the first encoded item off a stream. */
  lemma ParseFirstEncoded(host: ByteOrder, source: ByteOrder, item: SourceItem, tail: seq<byte>)
    requires Legal(item) && HEADER_SIZE < |Encode(source, item) + tail|
    ensures var t, e := SourceTranslator(host, source), Encode(source, item);
            && Parse(t, e + tail) == Prepend([Item(item.itemType, e)], Parse(t, tail))
            && (UniformOrder(t, e + tail) <==> UniformOrder(t, tail))
  {
    var e := Encode(source, item);
    ReadEncoded(host, source, item, tail);
    assert (e + tail)[..|e|] == e && (e + tail)[|e|..] == tail;
  }

  /** What one parse makes of an encoded stream. */
  function EncodedOutcome(source: ByteOrder, items: seq<SourceItem>): Outcome
    requires forall i :: 0 <= i < |items| ==> Legal(items[i])
  {
    if LastHeldBack(items)
    then Outcome(Dispatched(source, items[..|items| - 1]), Encode(source, items[|items| - 1]), false)
    else Outcome(Dispatched(source, items), [], false)
  }

  lemma OutcomeFirst(source: ByteOrder, items: seq<SourceItem>)
    requires forall i :: 0 <= i < |items| ==> Legal(items[i])
    requires 1 < |items| || (|items| == 1 && items[0].body != [])
    ensures EncodedOutcome(source, items)
         == Prepend([Item(items[0].itemType, Encode(source, items[0]))], EncodedOutcome(source, items[1..]))
  {
    if LastHeldBack(items) {
      assert items[..|items| - 1][1..] == items[1..][..|items| - 2];
      DispatchedFirst(source, items[..|items| - 1]);
    } else {
      DispatchedFirst(source, items);
    }
  }

  /** For every list of legal items and both byte orders, the stream has one order, the
      parse never stops the program, and it dispatches exactly the items written, but for a
      last item with an empty body. */
  lemma {:induction false} ParseOfEncoded(host: ByteOrder, source: ByteOrder, items: seq<SourceItem>)
    requires forall i :: 0 <= i < |items| ==> Legal(items[i])
    ensures UniformOrder(SourceTranslator(host, source), EncodeAll(source, items))
    ensures Parse(SourceTranslator(host, source), EncodeAll(source, items)) == EncodedOutcome(source, items)
  {
    var n := |items|;
    if n == 1 && items[0].body == [] {
      assert EncodeAll(source, items) == Encode(source, items[0]) + [];
      ReadEncoded(host, source, items[0], []);
      assert items[..0] == [];
    } else if n != 0 {
      var tail := EncodeAll(source, items[1..]);
      LongerThanHeader(source, items);
      ParseFirstEncoded(host, source, items[0], tail);
      ParseOfEncoded(host, source, items[1..]);
      OutcomeFirst(source, items);
    }
  }

  lemma LongerThanHeader(source: ByteOrder, items: seq<SourceItem>)
    requires forall i :: 0 <= i < |items| ==> Legal(items[i])
    requires 1 < |items| || (|items| == 1 && items[0].body != [])
    ensures HEADER_SIZE < |EncodeAll(source, items)|
  {
    if 1 < |items| {
      assert EncodeAll(source, items[1..]) == Encode(source, items[1]) + EncodeAll(source, items[1..][1..]);
    }
  }

  lemma DispatchedFirst(source: ByteOrder, items: seq<SourceItem>)
    requires items != [] && forall i :: 0 <= i < |items| ==> Legal(items[i])
    ensures Dispatched(source, items)
         == [Item(items[0].itemType, Encode(source, items[0]))] + Dispatched(source, items[1..])
  {
  }

  /** End to end: whatever the cutting, a fresh decoder sees every item the source wrote,
      in order and byte for byte, exactly when the last body is not empty. */
  lemma AllItemsArrive(host: ByteOrder, source: ByteOrder, items: seq<SourceItem>, chunks: seq<seq<byte>>)
    requires forall i :: 0 <= i < |items| ==> Legal(items[i])
    requires Flatten(chunks) == EncodeAll(source, items)
    requires AllDeliverable(Carried(Translator(NonSwapping, host), []), chunks)
    ensures var run := Run(Carried(Translator(NonSwapping, host), []), chunks);
            && !run.failed
            && (run.items == Dispatched(source, items) <==> !LastHeldBack(items))
            && (LastHeldBack(items) ==> run.items == Dispatched(source, items[..|items| - 1])
                                        && run.rest == Encode(source, items[|items| - 1]))
  {
    ParseOfEncoded(host, source, items);
    ChunkingIndependence(Translator(NonSwapping, host), SourceTranslator(host, source), chunks);
  }
}
