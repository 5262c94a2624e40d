/** The filter2ascii program: a filter file in, a table out (filter2ascii/filter2ascii.cpp). */
module FilterToAscii {
  import opened Options
  import opened Bytes
  import opened Sequences
  import opened Xdr
  import opened XdrInputStreams
  import opened FilterRecords

  /** The last of some blocks spells a string behind its header. */
  predicate EndsStale(file: seq<seq<byte>>, s: seq<byte>) {
    && file != [] && HEADER <= |file[|file| - 1]|
    && Decode(AString, file[|file| - 1][HEADER..]) == Some(StringItem(s))
  }

  class Translation {
    const input: XdrInputStream
    var nParameters: nat
    var eventsStarted: bool
    var output: seq<Token>

    /** The string to be met in an empty last block, if there is one. */
    ghost const stale: Option<seq<byte>>

    constructor (input: XdrInputStream, ghost stale: Option<seq<byte>>)
      ensures this.input == input && this.stale == stale
      ensures nParameters == 0 && !eventsStarted && output == []
    {
      this.input, this.stale := input, stale;
      nParameters, eventsStarted, output := 0, false, [];
    }

    /** The stream holds exactly these items from here on, and then the empty block. */
    ghost predicate Ahead(items: seq<Item>)
      reads input, input.buffer
    {
      && input.Valid() && input.Expect() == Somes(items) + (if stale.Some? then [None] else [])
      && (stale.Some? ==> EndsStale(input.whole, stale.value))
    }

    method Print(token: Token)
      modifies `output
      ensures output == old(output) + [token]
    {
      output := output + [token];
    }

    /** Get an item that the stream holds next, at last the string of the empty block. */
    method Next(kind: Kind, ghost items: seq<Item>) returns (item: Item)
      requires Ahead(items) && (if items == [] then stale.Some? && kind == AString else KindOf(items[0]) == kind)
      modifies input, input.buffer
      ensures items != [] ==> item == items[0] && Ahead(items[1..])
      ensures items == [] ==> item == StringItem(stale.value) && !input.isOpen
    {
      hide XdrInputStream.Valid, XdrInputStream.Expect, Decode, Somes;
      ghost var end: seq<Option<Item>> := if stale.Some? then [None] else [];
      NextAhead(items, end);
      var got := input.Get(kind);
      item := got.value;
    }

    lemma NextAhead(items: seq<Item>, end: seq<Option<Item>>)
      ensures items != [] ==> var e := Somes(items) + end; e[0] == Some(items[0]) && e[1..] == Somes(items[1..]) + end
      ensures items == [] ==> Somes(items) + end == end
      ensures end == [None] ==> end[1..] == []
    {
    }

    method ReadMasks(ghost values: Values, ghost rest: seq<Item>) returns (bitMasks: seq<word>)
      requires |values| == nParameters
      requires Ahead(MaskItems(values) + rest)
      modifies input, input.buffer
      ensures Ahead(rest)
      ensures |bitMasks| == MaskWords(nParameters)
      ensures forall i :: 0 <= i < |bitMasks| ==> bitMasks[i] == MaskWord(values, i)
    {
      hide Ahead, MaskWord;
      var nBitmasks := (nParameters + 31) / 32;
      bitMasks := [];
      assert MaskItems(values)[0..] + rest == MaskItems(values) + rest;
      for i := 0 to nBitmasks
        invariant |bitMasks| == i && nBitmasks == MaskWords(|values|)
        invariant Ahead(MaskItems(values)[i..] + rest)
        invariant forall k :: 0 <= k < i ==> bitMasks[k] == MaskWord(values, k)
      {
        assert (MaskItems(values)[i..] + rest)[1..] == MaskItems(values)[i + 1..] + rest;
        var b := Next(AnInt, MaskItems(values)[i..] + rest);
        bitMasks := bitMasks + [b.n];
      }
      assert MaskItems(values)[nBitmasks..] + rest == rest;
    }

    /** One column of an event: the next double if the bit is set, a gap otherwise. */
    method TranslateColumn(present: bool, parno: nat, ghost values: Values, ghost rest: seq<Item>)
      requires parno < |values| && (present <==> values[parno].Some?)
      requires Ahead(ValueItems(values[parno..]) + rest)
      modifies `output, input, input.buffer
      ensures Ahead(ValueItems(values[parno + 1..]) + rest)
      ensures output == old(output) + [Cell(values[parno])]
    {
      hide Ahead;
      assert values[parno..][1..] == values[parno + 1..];
      if present {
        assert (ValueItems(values[parno..]) + rest)[1..] == ValueItems(values[parno + 1..]) + rest;
        var value := Next(ADouble, ValueItems(values[parno..]) + rest);
        Print(ValueCell(value.d));
      } else {
        assert ValueItems(values[parno..]) == ValueItems(values[parno + 1..]);
        Print(GapCell);
      }
    }

    method TranslateEvent(ghost values: Values, ghost rest: seq<Item>) returns (ok: bool)
      requires 0 < nParameters
      requires input.isOpen ==> |values| == nParameters && Ahead(MaskItems(values) + ValueItems(values) + rest)
      modifies `output, input, input.buffer
      ensures ok == old(input.isOpen)
      ensures ok ==> Ahead(rest) && output == old(output) + Row(values) + [LineEnd]
      ensures !ok ==> output == old(output)
    {
      hide Ahead, MaskWord, Bit, ValueItems;
      if !input.isOpen {
        return false;
      }
      ok := true;
      assert MaskItems(values) + ValueItems(values) + rest == MaskItems(values) + (ValueItems(values) + rest);
      var bitMasks := ReadMasks(values, ValueItems(values) + rest);
      var parno := 0;
      assert values[0..] == values;
      var i := 0;
      while i < |bitMasks|
        invariant 0 <= i <= |bitMasks|
        invariant parno == if WORD_BITS * i < |values| then WORD_BITS * i else |values|
        invariant Ahead(ValueItems(values[parno..]) + rest)
        invariant output == old(output) + Row(values)[..parno]
      {
        var j := 0;
        while j < 32 && parno < nParameters
          invariant 0 <= j <= 32 && i < |bitMasks| && parno == WORD_BITS * i + j <= |values|
          invariant Ahead(ValueItems(values[parno..]) + rest)
          invariant output == old(output) + Row(values)[..parno]
          decreases 32 - j
        {
          BitOfMaskWord(values, i, j);
          TranslateColumn(Bit(bitMasks[i], j), parno, values, rest);
          parno := parno + 1;
          j := j + 1;
        }
        i := i + 1;
      }
      NoMoreValues(values, rest);
      Print(LineEnd);
    }

    lemma NoMoreValues(values: Values, rest: seq<Item>)
      ensures ValueItems(values[|values|..]) + rest == rest && Row(values)[..|values|] == Row(values)
    {
    }

    method TranslateNames(count: nat, ghost names: seq<Name>, ghost rest: seq<Item>)
      requires count == |names|
      requires Ahead(NameItems(names) + rest)
      modifies `output, input, input.buffer
      ensures Ahead(rest)
      ensures output == old(output) + NameCells(names)
    {
      hide Ahead;
      assert NameItems(names)[0..] + rest == NameItems(names) + rest;
      for i := 0 to count
        invariant Ahead(NameItems(names)[i..] + rest)
        invariant output == old(output) + NameCells(names)[..i]
      {
        assert (NameItems(names)[i..] + rest)[1..] == NameItems(names)[i + 1..] + rest;
        var name := Next(AString, NameItems(names)[i..] + rest);
        Print(NameCell(name.s));
      }
      assert NameItems(names)[count..] + rest == rest && NameCells(names)[..count] == NameCells(names);
    }

    /** The rest of a header record: a count and that many names. A get from a closed stream
        is an exception, which false stands for. */
    method TranslateHeader(ghost names: seq<Name>, ghost rest: seq<Item>) returns (ok: bool)
      requires input.isOpen ==> |names| < 0x8000_0000 && Ahead([IntItem(|names|)] + NameItems(names) + rest)
      modifies `output, `nParameters, input, input.buffer
      ensures ok == old(input.isOpen)
      ensures ok ==> Ahead(rest) && nParameters == old(nParameters) + |names|
      ensures ok ==> output == old(output) + NameCells(names)
      ensures !ok ==> output == old(output)
    {
      hide Ahead, NameItems, NameCells;
      if !input.isOpen {
        return false;
      }
      ok := true;
      ghost var items := [IntItem(|names|)] + NameItems(names) + rest;
      assert items[1..] == NameItems(names) + rest;
      var count := Next(AnInt, items);
      nParameters := nParameters + count.n;
      TranslateNames(count.n, names, rest);
    }

    /** What every other record starts with: end the line of names. */
    method StartEvents()
      modifies `output, `eventsStarted
      ensures eventsStarted && output == old(output) + if old(eventsStarted) then [] else [LineEnd]
    {
      if !eventsStarted {
        Print(LineEnd);
        eventsStarted := true;
      }
    }

    /** Translate one record; false when the file is given up. */
    method TranslateRecord(ghost records: seq<Record>) returns (ok: bool)
      requires records != [] || stale.Some?
      requires AllWritable(records) && Consistent(records, nParameters)
      requires Ahead(FileItems(records))
      modifies this, input, input.buffer
      ensures ok ==> records != [] && Consistent(records[1..], nParameters) && Ahead(FileItems(records[1..]))
      ensures output + (if ok then Table(records[1..], nParameters, eventsStarted, stale) else [])
           == old(output) + Table(records, old(nParameters), old(eventsStarted), stale)
    {
      hide Ahead, MaskItems, ValueItems, NameItems, Row, NameCells, Table, RecordItems;
      ghost var names, values, rest := [], [], [];
      ghost var n, started := nParameters, eventsStarted;
      if records != [] {
        rest := FileItems(records[1..]);
        names := if records[0].HeaderRecord? then records[0].names else [];
        values := if records[0].EventRecord? then records[0].values else [];
        RecordFirst(records[0], rest);
        TableFirst(records, n, started, stale, output);
      } else {
        TableEnd(n, started, stale);
      }
      var tag := Next(AString, FileItems(records));
      if |FileItems(records)| > 1 {
        StillOpen(FileItems(records)[1..]);
      }
      assert output + [] == output;
      if tag.s == HEADER_TAG {
        ok := TranslateHeader(names, rest);
        return;
      }
      StartEvents();
      if nParameters == 0 {
        return false;
      }
      if tag.s != EVENT_TAG {
        return false;
      }
      ok := TranslateEvent(values, rest);
    }

    lemma StillOpen(items: seq<Item>)
      requires Ahead(items) && items != []
      ensures input.isOpen
    {
    }

    lemma Begin(items: seq<Item>)
      requires input.Valid() && input.Expect() == Somes(items) + (if stale.Some? then [None] else [])
      requires stale.Some? ==> EndsStale(input.whole, stale.value)
      ensures Ahead(items)
    {
    }

    lemma StillAhead(records: seq<Record>)
      requires AllWritable(records) && Ahead(FileItems(records)) && input.isOpen
      ensures records != [] || stale.Some?
    {
    }

    lemma NothingAhead(records: seq<Record>)
      requires AllWritable(records) && Ahead(FileItems(records)) && !input.isOpen
      ensures Table(records, nParameters, eventsStarted, stale) == []
    {
      assert records == [] && stale.None?;
    }

    lemma TableEnd(n: nat, started: bool, stale: Option<seq<byte>>)
      ensures Table([], n, started, stale) == StaleEnd(stale, started)
    {
    }

    lemma RecordFirst(r: Record, rest: seq<Item>)
      requires Writable(r)
      ensures var items := RecordItems(r) + rest;
              && items[0].StringItem?
              && (r.HeaderRecord? <==> items[0].s == HEADER_TAG) && (r.EventRecord? <==> items[0].s == EVENT_TAG)
              && (r.HeaderRecord? ==> items[1..] == [IntItem(|r.names|)] + NameItems(r.names) + rest)
              && (r.EventRecord? ==> items[1..] == MaskItems(r.values) + ValueItems(r.values) + rest)
    {
      hide MaskItems, ValueItems, NameItems;
      var all, items := RecordItems(r), RecordItems(r) + rest;
      assert items[1..] == all[1..] + rest;
      match r
      case HeaderRecord(names) => assert all[1..] == [IntItem(|names|)] + NameItems(names);
      case EventRecord(values) => assert all[1..] == MaskItems(values) + ValueItems(values);
      case Unknown(_) =>
    }

    lemma TableFirst(records: seq<Record>, n: nat, started: bool, stale: Option<seq<byte>>, before: seq<Token>)
      requires records != [] && AllWritable(records)
      ensures var lead: seq<Token> := if started then [] else [LineEnd];
              before + Table(records, n, started, stale) ==
                match records[0]
                case HeaderRecord(names) => before + NameCells(names) + Table(records[1..], n + |names|, started, stale)
                case EventRecord(values) =>
                  if n == 0 then before + lead
                  else before + lead + Row(values) + [LineEnd] + Table(records[1..], n, true, stale)
                case Unknown(_) => before + lead
    {
      hide Row, NameCells;
      var lead: seq<Token> := if started then [] else [LineEnd];
      match records[0]
      case HeaderRecord(names) =>
        var cells, later := NameCells(names), Table(records[1..], n + |names|, started, stale);
        assert Table(records, n, started, stale) == cells + later;
        assert before + (cells + later) == before + cells + later;
      case EventRecord(values) =>
        if n > 0 {
          var row, later := Row(values), Table(records[1..], n, true, stale);
          assert Table(records, n, started, stale) == lead + row + [LineEnd] + later;
          assert before + (lead + row + [LineEnd] + later) == before + lead + row + [LineEnd] + later;
        }
      case Unknown(_) =>
    }
  }

  /** The file's items are in its blocks, none of them empty but perhaps the last, which then
      spells a stale string. */
  ghost predicate Tidy(file: seq<seq<byte>>, blocks: seq<seq<Item>>, stale: Option<seq<byte>>) {
    && (forall b :: 0 <= b < |blocks| - (if stale.Some? then 1 else 0) ==> blocks[b] != [])
    && (stale.Some? ==> blocks != [] && blocks[|blocks| - 1] == [] && EndsStale(file, stale.value))
  }

  lemma TidyReads(file: seq<seq<byte>>, blocks: seq<seq<Item>>, stale: Option<seq<byte>>)
    requires Tidy(file, blocks, stale)
    ensures Reads(blocks) == Somes(Flatten(blocks)) + (if stale.Some? then [None] else [])
  {
    hide Reads, Flatten, Somes, EndsStale;
    if stale.Some? {
      var full := blocks[..|blocks| - 1];
      assert blocks == full + [[]];
      ReadsTrailing(full);
      ReadsFaithful(full);
      FlattenMore(full, []);
      assert Flatten(full) + [] == Flatten(full);
    } else {
      ReadsFaithful(blocks);
      assert Somes(Flatten(blocks)) + [] == Somes(Flatten(blocks));
    }
  }

  /** Translate a whole file: if none of its blocks but perhaps the last is empty, the output
      is its table. */
  method TranslateFilter(input: XdrInputStream, ghost blocks: seq<seq<Item>>, ghost records: seq<Record>,
                         ghost stale: Option<seq<byte>>)
    returns (output: seq<Token>)
    requires input.Valid() && !input.isOpen && input.later == blocks && Tidy(input.whole, blocks, stale)
    requires AllWritable(records) && Consistent(records, 0) && Flatten(blocks) == FileItems(records)
    modifies input, input.buffer
    ensures output == Table(records, 0, false, stale)
  {
    hide EndsStale, Flatten, Table, Consistent, FileItems, Reads, Translation.Ahead, XdrInputStream.Valid,
         XdrInputStream.Expect;
    TidyReads(input.whole, blocks, stale);
    input.Connect();
    var t := new Translation(input, stale);
    t.Begin(FileItems(records));
    ghost var left := records;
    while input.isOpen
      invariant t.input == input && t.stale == stale && AllWritable(left) && Consistent(left, t.nParameters)
      invariant t.Ahead(FileItems(left))
      invariant t.output + Table(left, t.nParameters, t.eventsStarted, stale) == Table(records, 0, false, stale)
      decreases |left|
    {
      t.StillAhead(left);
      var ok := t.TranslateRecord(left);
      if !ok {
        assert t.output == t.output + [] == Table(records, 0, false, stale);
        return t.output;
      }
      left := left[1..];
    }
    t.NothingAhead(left);
    assert t.output == t.output + [] == Table(records, 0, false, stale);
    output := t.output;
  }
}
