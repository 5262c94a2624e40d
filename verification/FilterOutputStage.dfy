/** The XDR filter output stage: filtered events out to a file
    (main/Core/CXdrFilterOutputStage.cpp). */
module FilterOutputStages {
  import opened Options
  import opened Bytes
  import opened Sequences
  import opened Xdr
  import opened XdrOutputStreams
  import opened FilterHeaders
  import opened FilterRecords

  /** An event by parameter id. */
  type Event = seq<Option<Double>>

  function ValueIn(event: Event, id: nat): Option<Double> {
    if id < |event| then event[id] else None
  }

  /** The values of the described parameters. */
  function ValuesOf(ids: seq<nat>, event: Event): (values: Values)
    ensures |values| == |ids|
  {
    seq(|ids|, i requires 0 <= i < |ids| => ValueIn(event, ids[i]))
  }

  /** XDR bytes of a run of items. */
  function TotalLength(items: seq<Item>): nat {
    if items == [] then 0 else Length(items[0]) + TotalLength(items[1..])
  }

  /** The size that the stage computes for an event record. */
  function EventBytes(values: Values): nat {
    MaskWords(|values|) * 4 + CountValid(values) * 8 + Length(StringItem(EVENT_TAG))
  }

  lemma {:induction false} TotalLengthAppend(a: seq<Item>, b: seq<Item>)
    ensures TotalLength(a + b) == TotalLength(a) + TotalLength(b)
    decreases |a|
  {
    if a == [] {
      assert a + b == b;
    } else {
      assert (a + b)[1..] == a[1..] + b;
      TotalLengthAppend(a[1..], b);
    }
  }

  lemma {:induction false} ValueItemsLength(values: Values)
    ensures TotalLength(ValueItems(values)) == CountValid(values) * 8
    ensures AllEncodable(ValueItems(values))
  {
    if values != [] {
      ValueItemsLength(values[1..]);
      if values[0].Some? {
        assert ValueItems(values)[1..] == ValueItems(values[1..]);
      } else {
        assert ValueItems(values) == ValueItems(values[1..]);
      }
    }
  }

  lemma {:induction false} IntItemsLength(items: seq<Item>)
    requires forall i :: 0 <= i < |items| ==> items[i].IntItem?
    ensures TotalLength(items) == |items| * 4
  {
    if items != [] {
      IntItemsLength(items[1..]);
    }
  }

  /** Taking one more parameter of an event. */
  lemma NextValue(values: Values, i: nat, done: seq<Item>)
    requires i < |values|
    ensures var now, later := values[i..], values[i + 1..];
            if values[i].Some? then
              var item := DoubleItem(values[i].value);
              && CountValid(now) == 1 + CountValid(later)
              && done + ValueItems(now) == done + [item] + ValueItems(later)
              && TotalLength(done + [item]) == TotalLength(done) + 8
              && (CountValid(later) == 0 ==> done + ValueItems(now) == done + [item])
            else CountValid(now) == CountValid(later) && ValueItems(now) == ValueItems(later)
  {
    assert values[i..][1..] == values[i + 1..];
    OneDoublePerBit(values[i + 1..]);
    if values[i].Some? {
      var item := DoubleItem(values[i].value);
      TotalLengthAppend(done, [item]);
      assert TotalLength([item]) == Length(item) + TotalLength([]);
      assert ValueItems(values[i..]) == [item] + ValueItems(values[i + 1..]);
    } else {
      assert ValueItems(values[i..]) == ValueItems(values[i + 1..]);
    }
  }

  lemma NoValuesLeft(values: Values)
    ensures CountValid(values[|values|..]) == 0
  {
  }

  /** The computed size is exactly what the record takes up. */
  lemma EventBytesExact(values: Values)
    ensures TotalLength(RecordItems(EventRecord(values))) == EventBytes(values)
    ensures AllEncodable(RecordItems(EventRecord(values)))
  {
    var tag, masks, doubles := [StringItem(EVENT_TAG)], MaskItems(values), ValueItems(values);
    ValueItemsLength(values);
    IntItemsLength(masks);
    TotalLengthAppend(tag, masks);
    TotalLengthAppend(tag + masks, doubles);
    assert TotalLength(tag) == Length(tag[0]) + TotalLength([]);
  }

  /** How a write of one record went. */
  datatype Written = Kept | Skipped | TooLarge | Overflow

  /** What becomes of an event: nothing to write, larger than a buffer, too large for what a
      buffer can hold behind its header (the program exits), or kept. */
  function Fate(bufferSize: nat, values: Values): Written {
    if CountValid(values) == 0 then Skipped
    else if bufferSize < EventBytes(values) then TooLarge
    else if bufferSize < HEADER + EventBytes(values) then Overflow
    else Kept
  }

  /** The position after an event is kept: behind its record, unless that filled the buffer. */
  function PosAfter(bufferSize: nat, pos: nat, values: Values): nat {
    NextPos(bufferSize, RequirePos(bufferSize, pos, EventBytes(values)), EventBytes(values))
  }

  // Building the masks

  /** The values with those from parameter i on taken away. */
  function Truncated(values: Values, i: nat): (t: Values)
    ensures |t| == |values|
  {
    seq(|values|, k requires 0 <= k < |values| => if k < i then values[k] else None)
  }

  lemma NoneSet(values: Values, w: nat)
    requires w < MaskWords(|values|)
    ensures MaskWord(Truncated(values, 0), w) == 0
  {
    AllClear(Presence(Truncated(values, 0), w));
  }

  lemma {:induction false} AllClear(p: seq<bool>)
    requires forall j :: 0 <= j < |p| ==> !p[j]
    ensures MaskOf(p) == 0
  {
    if p != [] {
      AllClear(p[1..]);
    }
  }

  /** Taking in one more parameter sets its bit, or changes nothing if it is not valid. */
  lemma TruncatedStep(values: Values, i: nat, w: nat)
    requires i < |values| && w < MaskWords(|values|)
    ensures MaskWord(Truncated(values, i + 1), w) ==
              if w == i / WORD_BITS && values[i].Some? then SetBit(MaskWord(Truncated(values, i), w), i % WORD_BITS)
              else MaskWord(Truncated(values, i), w)
  {
    var p, p' := Presence(Truncated(values, i), w), Presence(Truncated(values, i + 1), w);
    if w == i / WORD_BITS && values[i].Some? {
      assert p' == p[i % WORD_BITS := true];
      SetBitOfMask(p, i % WORD_BITS);
    } else {
      forall j | 0 <= j < |p| ensures p'[j] == p[j] {
        if WORD_BITS * w + j == i {
          assert i / WORD_BITS == w;
        }
      }
      assert p' == p;
    }
  }

  lemma {:induction false} CountMore(values: Values, i: nat)
    requires i < |values|
    ensures CountValid(values[..i + 1]) == CountValid(values[..i]) + if values[i].Some? then 1 else 0
  {
    if i == 0 {
      assert values[..1] == [values[0]] && values[..0] == [];
      assert [values[0]][1..] == [];
    } else {
      assert values[..i + 1][1..] == values[1..][..i] && values[..i][1..] == values[1..][..i - 1];
      CountMore(values[1..], i - 1);
    }
  }

  /** The next header record of some names. */
  lemma GroupsFirst(bufferSize: nat, names: seq<Name>)
    requires names != [] && AllFit(bufferSize, names) && ShortGroups(Groups(bufferSize, names))
    ensures var n := FitCount(bufferSize, names, START_BYTES);
            var groups, group, later := Groups(bufferSize, names), names[..n], Groups(bufferSize, names[n..]);
            && n > 0 && |group| < 0x8000_0000 && ShortGroups(later) && groups == [group] + later
            && FileItems(HeaderRecords(groups)) == RecordItems(HeaderRecord(group)) + FileItems(HeaderRecords(later))
            && (HeadersEndPending(bufferSize, groups) <==>
                  EndPos(bufferSize, NAMES_START, group) != HEADER && HeadersEndPending(bufferSize, later))
  {
    hide EndPos, RecordItems, FitCount, LeadAfter;
    assert NameFits(bufferSize, names[0]);
    var n := FitCount(bufferSize, names, START_BYTES);
    FitCountFirst(bufferSize, names, START_BYTES);
    var group, later := names[..n], Groups(bufferSize, names[n..]);
    var groups := [group] + later;
    assert Groups(bufferSize, names) == groups;
    assert groups[0] == group && groups[1..] == later;
    assert HeaderRecords(groups)[1..] == HeaderRecords(later);
    forall g | 0 <= g < |later| ensures groups[g + 1] == later[g] {
    }
    if HeadersEndPending(bufferSize, groups) {
      forall g | 0 <= g < |later| ensures EndPos(bufferSize, NAMES_START, later[g]) != HEADER {
        assert groups[g + 1] == later[g];
      }
    }
  }

  lemma GroupsNone(bufferSize: nat)
    ensures FileItems(HeaderRecords(Groups(bufferSize, []))) == []
    ensures HeadersEndPending(bufferSize, Groups(bufferSize, []))
  {
  }

  class XdrFilterOutputStage {
    const stream: XdrOutputStream
    var parameterIds: seq<nat>

    constructor (bufferSize: nat)
      requires HEADER <= bufferSize < WORD_LIMIT
      ensures stream.Valid() && stream.isOpen && fresh(stream) && fresh(stream.buffer)
      ensures stream.bufferSize == bufferSize && stream.pos == HEADER && stream.blocks == [] && stream.pending == []
    {
      stream := new XdrOutputStream(bufferSize);
      parameterIds := [];
    }

    /** How many names from some offset on go into the next header record. */
    method FitNames(names: seq<Name>, offset: nat) returns (idx: nat, nFit: nat)
      requires offset < |names| && stream.pos == HEADER && Fits(stream.bufferSize, HEADER, START_BYTES)
      ensures nFit == FitCount(stream.bufferSize, names[offset..], START_BYTES) && idx == offset + nFit
    {
      var nBytes: int := 4 + |HEADER_TAG|;
      idx, nFit := offset, 0;
      while stream.Test(nBytes) && idx < |names|
        invariant offset <= idx <= |names| && nFit == idx - offset
        invariant START_BYTES <= nBytes
        invariant !stream.Test(nBytes) ==>
                    nFit > 0 && FitCount(stream.bufferSize, names[offset..], START_BYTES) == nFit - 1
        invariant stream.Test(nBytes) ==>
                    FitCount(stream.bufferSize, names[offset..], START_BYTES)
                    == nFit + FitCount(stream.bufferSize, names[idx..], nBytes)
        decreases |names| - idx
      {
        assert names[idx..][1..] == names[idx + 1..];
        nBytes := nBytes + |names[idx]|;
        idx := idx + 1;
        nFit := nFit + 1;
      }
      if !stream.Test(nBytes) {
        idx := idx - 1;
        nFit := nFit - 1;
        nBytes := nBytes - |names[idx]|;
      }
    }

    /** Put a header record of some of the names and flush it. */
    method PutHeader(names: seq<Name>, offset: nat, idx: nat, nFit: nat)
      requires stream.Valid() && stream.isOpen && stream.pos == HEADER && stream.bufferSize % 4 == 0
      requires offset < idx == offset + nFit <= |names| < 0x8000_0000 && AllFit(stream.bufferSize, names)
      modifies stream, stream.buffer
      ensures stream.Valid() && stream.isOpen && stream.pos == HEADER
      ensures stream.Stream() == old(stream.Stream()) + RecordItems(HeaderRecord(names[offset..idx]))
      ensures NoneEmpty(stream.blocks) <==>
                NoneEmpty(old(stream.blocks)) && EndPos(stream.bufferSize, NAMES_START, names[offset..idx]) != HEADER
      ensures EndPos(stream.bufferSize, NAMES_START, names[offset..idx]) != HEADER ==>
                LedBy(stream.blocks, [], LeadAfter(stream.bufferSize, NAMES_START, HEADER_TAG, names[offset..idx]))
    {
      hide Length, NoneEmpty, Flatten, EndPos, LeadAfter, NameItems, NextPos, FileHolds, EncodeAll;
      ghost var group := names[offset..idx];
      ghost var before, lead := stream.Stream(), [StringItem(HEADER_TAG), IntItem(nFit)];
      NameRoom(stream.bufferSize, HEADER, names[offset]);
      PutHeaderStart(nFit);
      PutNames(names, offset, idx, HEADER_TAG);
      assert before + lead + NameItems(group) == before + RecordItems(HeaderRecord(group));
      FlattenMore(stream.blocks, stream.pending);
      NoneEmptyMore(stream.blocks, stream.pending);
      stream.Flush();
      assert stream.Stream() == Flatten(stream.blocks);
    }

    /** Put the names one by one. The block in the buffer, which `lead` started, ends up
        started by it still or by the first name behind the last flush. */
    method PutNames(names: seq<Name>, offset: nat, idx: nat, ghost lead: Name)
      requires stream.Valid() && stream.isOpen && stream.bufferSize % 4 == 0
      requires stream.pos != HEADER ==> stream.pending[0] == StringItem(lead)
      requires offset <= idx <= |names| && AllFit(stream.bufferSize, names)
      modifies stream, stream.buffer
      ensures stream.Valid() && stream.isOpen
      ensures stream.pos == EndPos(stream.bufferSize, old(stream.pos), names[offset..idx])
      ensures stream.Stream() == old(stream.Stream()) + NameItems(names[offset..idx])
      ensures NoneEmpty(stream.blocks) <==> NoneEmpty(old(stream.blocks))
      ensures stream.pos != HEADER ==>
                stream.pending != []
                && stream.pending[0]
                   == StringItem(LeadAfter(stream.bufferSize, old(stream.pos), lead, names[offset..idx]))
    {
      hide Length, NoneEmpty, Flatten, EndPos, LeadAfter, NextPos, FileHolds, EncodeAll, NameItems,
           XdrOutputStream.Stream;
      ghost var group, b, first := names[offset..idx], stream.bufferSize, lead;
      NoNames();
      assert group[..0] == [] && group[0..] == group && stream.Stream() + [] == stream.Stream();
      for i := offset to idx
        invariant stream.Valid() && stream.isOpen
        invariant stream.Stream() == old(stream.Stream()) + NameItems(group[..i - offset])
        invariant NoneEmpty(stream.blocks) <==> NoneEmpty(old(stream.blocks))
        invariant EndPos(b, old(stream.pos), group) == EndPos(b, stream.pos, group[i - offset..])
        invariant stream.pos != HEADER ==> stream.pending[0] == StringItem(first)
        invariant LeadAfter(b, old(stream.pos), lead, group) == LeadAfter(b, stream.pos, first, group[i - offset..])
      {
        ghost var k := i - offset;
        assert names[i] == group[k] && group[k..][0] == group[k] && group[k..][1..] == group[k + 1..];
        EndPosFirst(b, stream.pos, group[k..]);
        LeadAfterFirst(b, stream.pos, first, group[k..]);
        NameRoom(b, stream.pos, names[i]);
        NameItemsMore(group, k);
        if RequirePos(b, stream.pos, |names[i]| + 1) == HEADER {
          first := names[i];
        }
        var _ := stream.PutString(names[i]);
      }
      assert group[|group|..] == [] && group[..|group|] == group;
      EndPosNone(b, stream.pos);
      LeadAfterNone(b, stream.pos, first);
    }

    lemma NoNames()
      ensures NameItems([]) == []
    {
    }

    lemma NameItemsMore(group: seq<Name>, k: nat)
      requires k < |group|
      ensures NameItems(group[..k + 1]) == NameItems(group[..k]) + [StringItem(group[k])]
    {
    }

    lemma LeadAfterNone(bufferSize: nat, pos: nat, lead: Name)
      ensures LeadAfter(bufferSize, pos, lead, []) == lead
    {
    }

    lemma EndPosNone(bufferSize: nat, pos: nat)
      ensures EndPos(bufferSize, pos, []) == pos
    {
    }

    method PutHeaderStart(nFit: word)
      requires stream.Valid() && stream.isOpen && stream.pos == HEADER
      requires stream.bufferSize % 4 == 0 && Fits(stream.bufferSize, HEADER, START_BYTES)
      modifies stream, stream.buffer
      ensures stream.Valid() && stream.isOpen && stream.pos == NAMES_START && stream.blocks == old(stream.blocks)
      ensures stream.Stream() == old(stream.Stream()) + [StringItem(HEADER_TAG), IntItem(nFit)]
      ensures stream.pending != [] && stream.pending[0] == StringItem(HEADER_TAG)
    {
      hide Length, FileHolds, EncodeAll, Flatten, NoneEmpty;
      HeaderLengths(nFit);
      assert stream.Stream() + [StringItem(HEADER_TAG)] + [IntItem(nFit)]
          == stream.Stream() + [StringItem(HEADER_TAG), IntItem(nFit)];
      var _ := stream.PutString(HEADER_TAG);
      var _ := stream.Put(IntItem(nFit));
    }

    lemma HeaderLengths(nFit: word)
      ensures Length(StringItem(HEADER_TAG)) == 12 && Length(IntItem(nFit)) == 4
    {
    }

    /** Describe the parameters in as many header records as it takes, a flush behind each. */
    method DescribeEvent(names: seq<Name>, ids: seq<nat>)
      requires stream.Valid() && stream.isOpen && stream.pos == HEADER && stream.bufferSize % 4 == 0
      requires |names| < 0x8000_0000 && AllFit(stream.bufferSize, names)
      modifies `parameterIds, stream, stream.buffer
      ensures parameterIds == ids
      ensures stream.Valid() && stream.isOpen && stream.pos == HEADER
      ensures var groups := Groups(stream.bufferSize, names);
              && ShortGroups(groups)
              && stream.Stream() == old(stream.Stream()) + FileItems(HeaderRecords(groups))
              && (NoneEmpty(stream.blocks) <==>
                    NoneEmpty(old(stream.blocks)) && HeadersEndPending(stream.bufferSize, groups))
              && (names != [] && HeadersEndPending(stream.bufferSize, groups) ==>
                    LedBy(stream.blocks, [], LastLead(stream.bufferSize, names)))
    {
      hide LeadAfter, LedBy, NoneEmpty, Flatten, EndPos, FileItems, FitCount, Groups, HeadersEndPending, RecordItems,
           FileHolds, XdrOutputStream.Valid, XdrOutputStream.Stream;
      parameterIds := ids;
      var totalParameterCount := |names|;
      var parameterCount := totalParameterCount;
      var offset, idx := 0, 0;
      ghost var b := stream.bufferSize;
      ghost var groups := Groups(b, names);
      GroupsShort(b, names);
      assert names[0..] == names;
      while parameterCount != 0
        invariant 0 <= offset == idx <= |names| && parameterCount == |names| - offset
        invariant stream.Valid() && stream.isOpen && stream.pos == HEADER && parameterIds == ids
        invariant ShortGroups(Groups(b, names[offset..]))
        invariant stream.Stream() + FileItems(HeaderRecords(Groups(b, names[offset..])))
               == old(stream.Stream()) + FileItems(HeaderRecords(groups))
        invariant NoneEmpty(stream.blocks) && HeadersEndPending(b, Groups(b, names[offset..])) <==>
                  NoneEmpty(old(stream.blocks)) && HeadersEndPending(b, groups)
        invariant HeadersEndPending(b, groups) ==> HeadersEndPending(b, Groups(b, names[offset..]))
        invariant offset < |names| ==>
                    var left := Groups(b, names[offset..]); left[|left| - 1] == groups[|groups| - 1]
        invariant offset == |names| > 0 && HeadersEndPending(b, groups) ==> LedBy(stream.blocks, [], LastLead(b, names))
        decreases parameterCount
      {
        var nFit;
        GroupsFirst(b, names[offset..]);
        assert NameFits(b, names[offset]);
        ghost var n := FitCount(b, names[offset..], START_BYTES);
        assert names[offset..][..n] == names[offset..offset + n] && names[offset..][n..] == names[offset + n..];
        ghost var before := stream.Stream();
        idx, nFit := FitNames(names, offset);
        if nFit != 0 {
          PutHeader(names, offset, idx, nFit);
        }
        offset := idx;
        parameterCount := parameterCount - nFit;
      }
      GroupsNone(b);
      assert names[|names|..] == [];
    }

    /** Fill in the bit masks and count the valid parameters. */
    method BuildMask(values: Values) returns (bitmask: seq<word>, nValid: nat)
      ensures nValid == CountValid(values) && |bitmask| == MaskWords(|values|)
      ensures forall i :: 0 <= i < |bitmask| ==> bitmask[i] == MaskWord(values, i)
    {
      hide MaskWord, SetBit;
      var n := |values|;
      var words := (n + WORD_BITS - 1) / WORD_BITS;
      bitmask := seq(words, _ => 0);
      nValid := 0;
      assert values[..0] == [];
      forall w | 0 <= w < words ensures MaskWord(Truncated(values, 0), w) == 0 {
        NoneSet(values, w);
      }
      for i := 0 to n
        invariant |bitmask| == words && nValid == CountValid(values[..i])
        invariant forall w :: 0 <= w < words ==> bitmask[w] == MaskWord(Truncated(values, i), w)
      {
        CountMore(values, i);
        forall w | 0 <= w < words
          ensures MaskWord(Truncated(values, i + 1), w) ==
            if w == i / WORD_BITS && values[i].Some? then SetBit(MaskWord(Truncated(values, i), w), i % WORD_BITS)
            else MaskWord(Truncated(values, i), w)
        {
          TruncatedStep(values, i, w);
        }
        if values[i].Some? {
          var element := i / WORD_BITS;
          bitmask := bitmask[element := SetBit(bitmask[element], i % WORD_BITS)];
          nValid := nValid + 1;
        }
      }
      assert values[..n] == values && Truncated(values, n) == values;
    }

    /** Since `start` was pending, exactly the items `done` have been put, with no flush. */
    ghost predicate Underway(base: seq<seq<Item>>, start: seq<Item>, done: seq<Item>, from: nat)
      reads this, stream, stream.buffer
    {
      && stream.Valid() && stream.isOpen
      && stream.blocks == base && stream.pending == start + done && stream.pos == from + TotalLength(done)
    }

    /** All of a record has been put; the last item may have filled the buffer. */
    ghost predicate AllPut(base: seq<seq<Item>>, start: seq<Item>, all: seq<Item>, from: nat)
      reads this, stream, stream.buffer
    {
      && stream.Valid() && stream.isOpen && stream.pos == NextPos(stream.bufferSize, from, TotalLength(all))
      && ((stream.blocks == base && stream.pending == start + all)
          || (stream.blocks == base + [start + all] && stream.pending == []))
    }

    /** Put an item. If it fits, and room for more is left, nothing is flushed. */
    method PutItem(item: Item, ghost base: seq<seq<Item>>, ghost start: seq<Item>, ghost done: seq<Item>,
                   ghost from: nat)
      returns (ok: bool)
      requires Underway(base, start, done, from) && Encodable(item)
      modifies stream, stream.buffer
      ensures ok == (old(stream.pos) + Length(item) <= stream.bufferSize)
      ensures ok ==> AllPut(base, start, done + [item], from)
      ensures old(stream.pos) + Length(item) + 2 < stream.bufferSize ==> Underway(base, start, done + [item], from)
    {
      TotalLengthAppend(done, [item]);
      assert TotalLength([item]) == Length(item) + TotalLength([]);
      assert start + done + [item] == start + (done + [item]);
      ok := stream.Put(item);
    }

    method PutTag(tag: seq<byte>, ghost base: seq<seq<Item>>, ghost start: seq<Item>, ghost from: nat)
      requires Underway(base, start, [], from) && Encodable(StringItem(tag)) && stream.Test(|tag| + 1)
      requires from + Length(StringItem(tag)) + 2 < stream.bufferSize
      modifies stream, stream.buffer
      ensures Underway(base, start, [StringItem(tag)], from)
    {
      assert TotalLength([StringItem(tag)]) == Length(StringItem(tag)) + TotalLength([]);
      assert start + [] == start;
      var _ := stream.PutString(tag);
    }

    method PutMasks(bitmask: seq<word>, ghost values: Values, ghost base: seq<seq<Item>>, ghost start: seq<Item>,
                    ghost from: nat)
      requires |bitmask| == MaskWords(|values|)
      requires forall i :: 0 <= i < |bitmask| ==> bitmask[i] == MaskWord(values, i)
      requires Underway(base, start, [StringItem(EVENT_TAG)], from)
      requires from + Length(StringItem(EVENT_TAG)) + 4 * |bitmask| + 2 < stream.bufferSize
      modifies stream, stream.buffer
      ensures Underway(base, start, [StringItem(EVENT_TAG)] + MaskItems(values), from)
    {
      hide MaskWord, TotalLength, MaskItems, FileHolds, EncodeAll;
      ghost var tag, masks := [StringItem(EVENT_TAG)], MaskItems(values);
      assert tag + masks[..0] == tag;
      for i := 0 to |bitmask|
        invariant Underway(base, start, tag + masks[..i], from)
      {
        MasksLength(values, i);
        var _ := PutItem(IntItem(bitmask[i]), base, start, tag + masks[..i], from);
        assert tag + masks[..i] + [IntItem(bitmask[i])] == tag + masks[..i + 1];
      }
      assert masks[..|bitmask|] == masks;
    }

    lemma MasksLength(values: Values, i: nat)
      requires i < MaskWords(|values|)
      ensures MaskItems(values)[i] == IntItem(MaskWord(values, i))
      ensures TotalLength([StringItem(EVENT_TAG)] + MaskItems(values)[..i]) == Length(StringItem(EVENT_TAG)) + 4 * i
    {
      hide MaskWord;
      var tag, masks := [StringItem(EVENT_TAG)], MaskItems(values)[..i];
      IntItemsLength(masks);
      TotalLengthAppend(tag, masks);
      assert TotalLength(tag) == Length(tag[0]) + TotalLength([]);
    }

    /** The valid values; the last may fill the buffer, or fail to fit by one word. */
    method PutValues(values: Values, ghost before: seq<Item>, ghost base: seq<seq<Item>>, ghost start: seq<Item>,
                     ghost from: nat)
      returns (ok: bool)
      requires Underway(base, start, before, from) && 0 < CountValid(values)
      requires from + TotalLength(before) + 8 * CountValid(values) <= stream.bufferSize + 4
      modifies stream, stream.buffer
      ensures ok == (from + TotalLength(before) + 8 * CountValid(values) <= stream.bufferSize)
      ensures ok ==> AllPut(base, start, before + ValueItems(values), from)
    {
      hide ValueItems, CountValid, TotalLength;
      ghost var done, all := before, before + ValueItems(values);
      assert values[0..] == values;
      ok := true;
      for i := 0 to |values|
        invariant ok
        invariant CountValid(values[i..]) > 0 ==>
                    && Underway(base, start, done, from) && done + ValueItems(values[i..]) == all
                    && TotalLength(done) + 8 * CountValid(values[i..]) == TotalLength(before) + 8 * CountValid(values)
        invariant CountValid(values[i..]) == 0 ==>
                    && AllPut(base, start, all, from)
                    && from + TotalLength(before) + 8 * CountValid(values) <= stream.bufferSize
      {
        NextValue(values, i, done);
        if values[i].Some? {
          var item := DoubleItem(values[i].value);
          ok := PutItem(item, base, start, done, from);
          done := done + [item];
          if !ok {
            return;
          }
        }
      }
      NoValuesLeft(values);
    }

    /** Write an event's record. It goes into one block, after a flush if the buffer has not
        twice its size left; that flush writes an empty block when nothing is pending. */
    method WriteEvent(event: Event) returns (fate: Written)
      requires stream.Valid() && stream.isOpen
      modifies stream, stream.buffer
      ensures fate == Fate(stream.bufferSize, ValuesOf(parameterIds, event))
      ensures fate == Skipped || fate == TooLarge ==>
                && stream.Valid() && stream.isOpen && stream.pos == old(stream.pos)
                && stream.blocks == old(stream.blocks) && stream.pending == old(stream.pending)
      ensures fate == Kept ==>
                var values := ValuesOf(parameterIds, event);
                && stream.Valid() && stream.isOpen && stream.pos == PosAfter(stream.bufferSize, old(stream.pos), values)
                && stream.Stream() == old(stream.Stream()) + RecordItems(EventRecord(values))
                && (NoneEmpty(stream.blocks) <==>
                      NoneEmpty(old(stream.blocks))
                      && (old(stream.Test(EventBytes(values))) || old(stream.pending) != []))
                && (old(stream.pending) == [] || old(stream.pending)[0] == StringItem(EVENT_TAG) ==>
                      LedBy(stream.blocks, stream.pending, EVENT_TAG))
    {
      hide LedBy, MaskWord, MaskItems, ValueItems, CountValid, NoneEmpty, Flatten, RecordItems, ValuesOf,
           FileHolds, EncodeAll;
      var values := ValuesOf(parameterIds, event);
      var bitmask, nValid := BuildMask(values);
      if nValid == 0 {
        return Skipped;
      }
      var bytesRequired := |bitmask| * 4 + nValid * 8 + Length(StringItem(EVENT_TAG));
      if bytesRequired > stream.bufferSize {
        return TooLarge;
      }
      FlattenMore(stream.blocks, stream.pending);
      NoneEmptyMore(stream.blocks, stream.pending);
      var _ := stream.Require(bytesRequired);
      fate := PutEvent(values, bitmask);
    }

    /** Put the items of a record that fits. */
    method PutEvent(values: Values, bitmask: seq<word>) returns (fate: Written)
      requires stream.Valid() && stream.isOpen && 0 < CountValid(values)
      requires |bitmask| == MaskWords(|values|)
      requires forall i :: 0 <= i < |bitmask| ==> bitmask[i] == MaskWord(values, i)
      requires EventBytes(values) <= stream.bufferSize
      requires stream.Test(EventBytes(values)) || stream.pos == HEADER
      modifies stream, stream.buffer
      ensures fate == if HEADER + EventBytes(values) <= stream.bufferSize then Kept else Overflow
      ensures fate == Kept ==>
                && stream.Valid() && stream.isOpen
                && stream.pos == NextPos(stream.bufferSize, old(stream.pos), EventBytes(values))
                && stream.Stream() == old(stream.Stream()) + RecordItems(EventRecord(values))
                && (NoneEmpty(stream.blocks) <==> NoneEmpty(old(stream.blocks)))
                && (old(stream.pending) == [] || old(stream.pending)[0] == StringItem(EVENT_TAG) ==>
                      LedBy(stream.blocks, stream.pending, EVENT_TAG))
    {
      hide MaskWord, MaskItems, ValueItems, CountValid, NoneEmpty, Flatten;
      ghost var base, start, from := stream.blocks, stream.pending, stream.pos;
      ghost var before := [StringItem(EVENT_TAG)] + MaskItems(values);
      assert start + [] == start && TotalLength([]) == 0;
      PutTag(EVENT_TAG, base, start, from);
      PutMasks(bitmask, values, base, start, from);
      BeforeValues(values);
      EventBytesExact(values);
      var ok := PutValues(values, before, base, start, from);
      fate := if ok then Kept else Overflow;
      AllPutStream(base, start, before + ValueItems(values), from);
    }

    lemma BeforeValues(values: Values)
      ensures TotalLength([StringItem(EVENT_TAG)] + MaskItems(values)) + 8 * CountValid(values) == EventBytes(values)
    {
      IntItemsLength(MaskItems(values));
      TotalLengthAppend([StringItem(EVENT_TAG)], MaskItems(values));
      assert TotalLength([StringItem(EVENT_TAG)]) == Length(StringItem(EVENT_TAG)) + TotalLength([]);
    }

    lemma AllPutStream(base: seq<seq<Item>>, start: seq<Item>, all: seq<Item>, from: nat)
      requires all != []
      ensures AllPut(base, start, all, from) ==>
                && stream.Stream() == Flatten(base) + start + all && (NoneEmpty(stream.blocks) <==> NoneEmpty(base))
                && (all[0] == StringItem(EVENT_TAG) && (start == [] || start[0] == all[0]) ==>
                      LedBy(stream.blocks, stream.pending, EVENT_TAG))
    {
      FlattenMore(base, start + all);
      NoneEmptyMore(base, start + all);
      assert Flatten(base) + (start + all) == Flatten(base) + start + all;
      assert Flatten(base + [start + all]) + [] == Flatten(base + [start + all]);
    }
  }
}
