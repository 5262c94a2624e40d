/** A filter file from end to end: parameters described, events written, the file closed and
    translated (main/Core/CXdrFilterOutputStage.cpp:122-285, filter2ascii/filter2ascii.cpp:82-180). */
module FilterFiles {
  import opened Options
  import opened Bytes
  import opened Sequences
  import opened Xdr
  import opened XdrOutputStreams
  import opened XdrInputStreams
  import opened FilterRecords
  import opened FilterHeaders
  import opened FilterOutputStages
  import opened FilterToAscii

  /** The events that are kept, as values of the described parameters. */
  function KeptOf(bufferSize: nat, ids: seq<nat>, events: seq<Event>): seq<Values> {
    if events == [] then []
    else
      var values := ValuesOf(ids, events[0]);
      (if Fate(bufferSize, values) == Kept then [values] else []) + KeptOf(bufferSize, ids, events[1..])
  }

  /** Some event fits no block behind the header of the block. */
  predicate Overflows(bufferSize: nat, ids: seq<nat>, events: seq<Event>) {
    exists i :: 0 <= i < |events| && Fate(bufferSize, ValuesOf(ids, events[i])) == Overflow
  }

  function EventRecords(kept: seq<Values>): (records: seq<Record>)
    ensures |records| == |kept| && AllWritable(records)
  {
    seq(|kept|, i requires 0 <= i < |kept| => EventRecord(kept[i]))
  }

  /** No event finds an empty buffer too small for twice its record. */
  predicate EventsFit(bufferSize: nat, pos: nat, kept: seq<Values>)
    decreases |kept|
  {
    kept == [] ||
    (&& (Fits(bufferSize, pos, EventBytes(kept[0])) || pos != HEADER)
     && EventsFit(bufferSize, PosAfter(bufferSize, pos, kept[0]), kept[1..]))
  }

  /** The position after the events. */
  function EventsEnd(bufferSize: nat, pos: nat, kept: seq<Values>): nat
    decreases |kept|
  {
    if kept == [] then pos else EventsEnd(bufferSize, PosAfter(bufferSize, pos, kept[0]), kept[1..])
  }

  /** No empty block is written before the file is closed. */
  predicate FileFull(bufferSize: nat, names: seq<Name>, ids: seq<nat>, events: seq<Event>)
    requires AllFit(bufferSize, names)
  {
    && HeadersEndPending(bufferSize, Groups(bufferSize, names))
    && EventsFit(bufferSize, HEADER, KeptOf(bufferSize, ids, events))
  }

  /** Nothing is pending when the file is closed. */
  predicate EndsFlushed(bufferSize: nat, ids: seq<nat>, events: seq<Event>) {
    EventsEnd(bufferSize, HEADER, KeptOf(bufferSize, ids, events)) == HEADER
  }

  /** No empty block is written. */
  predicate FileClean(bufferSize: nat, names: seq<Name>, ids: seq<nat>, events: seq<Event>)
    requires AllFit(bufferSize, names)
  {
    FileFull(bufferSize, names, ids, events) && !EndsFlushed(bufferSize, ids, events)
  }

  /** The string behind the header of an empty last block. */
  function StaleTag(bufferSize: nat, names: seq<Name>, ids: seq<nat>, events: seq<Event>): seq<byte>
    requires AllFit(bufferSize, names) && names != []
  {
    if KeptOf(bufferSize, ids, events) == [] then LastLead(bufferSize, names) else EVENT_TAG
  }

  function FileRecords(bufferSize: nat, names: seq<Name>, ids: seq<nat>, events: seq<Event>): (records: seq<Record>)
    requires AllFit(bufferSize, names) && |names| < 0x8000_0000
    ensures AllWritable(records)
  {
    GroupsShort(bufferSize, names);
    HeaderRecords(Groups(bufferSize, names)) + EventRecords(KeptOf(bufferSize, ids, events))
  }

  lemma {:induction false} FileItemsAppend(a: seq<Record>, b: seq<Record>)
    requires AllWritable(a) && AllWritable(b)
    ensures AllWritable(a + b) && FileItems(a + b) == FileItems(a) + FileItems(b)
    decreases |a|
  {
    hide RecordItems;
    if a == [] {
      assert a + b == b;
    } else {
      assert (a + b)[1..] == a[1..] + b;
      FileItemsAppend(a[1..], b);
    }
  }

  /** The first of some events: kept, its record comes first; otherwise it leaves no trace. */
  lemma KeptFirst(bufferSize: nat, pos: nat, ids: seq<nat>, events: seq<Event>)
    requires events != []
    ensures var values := ValuesOf(ids, events[0]);
            var kept, later := KeptOf(bufferSize, ids, events), KeptOf(bufferSize, ids, events[1..]);
            if Fate(bufferSize, values) == Kept then
              && FileItems(EventRecords(kept)) == RecordItems(EventRecord(values)) + FileItems(EventRecords(later))
              && kept == [values] + later
              && (EventsFit(bufferSize, pos, kept) <==>
                    (Fits(bufferSize, pos, EventBytes(values)) || pos != HEADER)
                    && EventsFit(bufferSize, PosAfter(bufferSize, pos, values), later))
              && EventsEnd(bufferSize, pos, kept) == EventsEnd(bufferSize, PosAfter(bufferSize, pos, values), later)
            else kept == later
    ensures Overflows(bufferSize, ids, events) <==>
              Fate(bufferSize, ValuesOf(ids, events[0])) == Overflow || Overflows(bufferSize, ids, events[1..])
  {
    hide RecordItems, EventBytes, Fate, PosAfter, ValuesOf;
    var values, later := ValuesOf(ids, events[0]), KeptOf(bufferSize, ids, events[1..]);
    var kept := KeptOf(bufferSize, ids, events);
    if Fate(bufferSize, values) == Kept {
      assert kept == [values] + later && kept[1..] == later;
      assert EventRecords(kept)[1..] == EventRecords(later);
    }
    OverflowsFirst(bufferSize, ids, events);
  }

  lemma OverflowsFirst(bufferSize: nat, ids: seq<nat>, events: seq<Event>)
    requires events != []
    ensures Overflows(bufferSize, ids, events) <==>
              Fate(bufferSize, ValuesOf(ids, events[0])) == Overflow || Overflows(bufferSize, ids, events[1..])
  {
    hide Fate, ValuesOf;
    var rest := events[1..];
    if Overflows(bufferSize, ids, rest) {
      var i :| 0 <= i < |rest| && Fate(bufferSize, ValuesOf(ids, rest[i])) == Overflow;
      assert events[i + 1] == rest[i];
    }
    if Overflows(bufferSize, ids, events) {
      var i :| 0 <= i < |events| && Fate(bufferSize, ValuesOf(ids, events[i])) == Overflow;
      assert i > 0 ==> rest[i - 1] == events[i];
    }
  }

  lemma PosOfPending(stream: XdrOutputStream)
    requires stream.Valid()
    ensures stream.pos == HEADER <==> stream.pending == []
  {
  }

  /** Write the first of some events. */
  method WriteNext(stage: XdrFilterOutputStage, event: Event, ghost events: seq<Event>) returns (ok: bool)
    requires stage.stream.Valid() && stage.stream.isOpen && events != [] && event == events[0]
    modifies stage.stream, stage.stream.buffer
    ensures !ok ==> Overflows(stage.stream.bufferSize, stage.parameterIds, events)
    ensures ok ==>
              var stream, b, ids := stage.stream, stage.stream.bufferSize, stage.parameterIds;
              var kept, later := KeptOf(b, ids, events), KeptOf(b, ids, events[1..]);
              && stream.Valid() && stream.isOpen
              && (Overflows(b, ids, events) <==> Overflows(b, ids, events[1..]))
              && stream.Stream() + FileItems(EventRecords(later))
                 == old(stream.Stream()) + FileItems(EventRecords(kept))
              && (NoneEmpty(stream.blocks) && EventsFit(b, stream.pos, later) <==>
                    NoneEmpty(old(stream.blocks)) && EventsFit(b, old(stream.pos), kept))
              && EventsEnd(b, stream.pos, later) == EventsEnd(b, old(stream.pos), kept)
              && |later| <= |kept|
              && (|later| == |kept| ==> stream.blocks == old(stream.blocks) && stream.pending == old(stream.pending))
              && (|later| < |kept| && (old(stream.pending) == [] || old(stream.pending)[0] == StringItem(EVENT_TAG)) ==>
                    LedBy(stream.blocks, stream.pending, EVENT_TAG))
  {
    hide FileItems, RecordItems, NoneEmpty, Flatten, EventsFit, EventsEnd, KeptOf, EventBytes, PosAfter, ValuesOf,
         Overflows, FileHolds, EventRecords, Fits, XdrOutputStream.Valid, Fate, LedBy;
    ghost var b, ids := stage.stream.bufferSize, stage.parameterIds;
    ghost var before, later := stage.stream.Stream(), FileItems(EventRecords(KeptOf(b, ids, events[1..])));
    KeptFirst(b, stage.stream.pos, ids, events);
    PosOfPending(stage.stream);
    var fate := stage.WriteEvent(event);
    if fate == Kept {
      ghost var record := RecordItems(EventRecord(ValuesOf(ids, event)));
      assert (before + record) + later == before + (record + later);
    }
    ok := fate != Overflow;
  }

  method WriteEvents(stage: XdrFilterOutputStage, events: seq<Event>) returns (ok: bool)
    requires stage.stream.Valid() && stage.stream.isOpen && stage.stream.pending == []
    modifies stage.stream, stage.stream.buffer
    ensures ok <==> !Overflows(stage.stream.bufferSize, stage.parameterIds, events)
    ensures ok ==>
              var stream, b := stage.stream, stage.stream.bufferSize;
              var kept := KeptOf(b, stage.parameterIds, events);
              && stream.Valid() && stream.isOpen
              && stream.Stream() == old(stream.Stream()) + FileItems(EventRecords(kept))
              && (NoneEmpty(stream.blocks) <==> NoneEmpty(old(stream.blocks)) && EventsFit(b, old(stream.pos), kept))
              && stream.pos == EventsEnd(b, old(stream.pos), kept)
              && if kept == [] then stream.blocks == old(stream.blocks)
                 else LedBy(stream.blocks, stream.pending, EVENT_TAG)
  {
    hide FileItems, RecordItems, NoneEmpty, Flatten, EventsFit, EventsEnd, KeptOf, Overflows, FileHolds, EventRecords,
         Fits, XdrOutputStream.Stream, XdrOutputStream.Valid;
    var stream := stage.stream;
    ghost var b, ids := stream.bufferSize, stage.parameterIds;
    ghost var kept := KeptOf(b, ids, events);
    assert events[0..] == events;
    for i := 0 to |events|
      invariant stream.Valid() && stream.isOpen
      invariant Overflows(b, ids, events) <==> Overflows(b, ids, events[i..])
      invariant stream.Stream() + FileItems(EventRecords(KeptOf(b, ids, events[i..])))
             == old(stream.Stream()) + FileItems(EventRecords(kept))
      invariant NoneEmpty(stream.blocks) && EventsFit(b, stream.pos, KeptOf(b, ids, events[i..]))
           <==> NoneEmpty(old(stream.blocks)) && EventsFit(b, old(stream.pos), kept)
      invariant EventsEnd(b, stream.pos, KeptOf(b, ids, events[i..])) == EventsEnd(b, old(stream.pos), kept)
      invariant |KeptOf(b, ids, events[i..])| <= |kept|
      invariant if |KeptOf(b, ids, events[i..])| == |kept|
                then stream.blocks == old(stream.blocks) && stream.pending == []
                else LedBy(stream.blocks, stream.pending, EVENT_TAG)
    {
      assert events[i..][1..] == events[i + 1..];
      ok := WriteNext(stage, events[i], events[i..]);
      if !ok {
        return;
      }
    }
    assert events[|events|..] == [];
    NoEvents(b, stream.pos, ids);
    ok := true;
  }

  /** Write a whole file. None when an event makes the program exit. No block is empty exactly
      when the file is clean; when it is not, but full until it is closed, only the last one
      is empty, and what it holds spells the stale tag. */
  method WriteFile(bufferSize: nat, names: seq<Name>, ids: seq<nat>, events: seq<Event>)
    returns (file: Option<seq<seq<byte>>>, ghost blocks: seq<seq<Item>>)
    requires HEADER <= bufferSize < WORD_LIMIT && bufferSize % 4 == 0
    requires |names| < 0x8000_0000 && AllFit(bufferSize, names)
    ensures file.None? <==> Overflows(bufferSize, ids, events)
    ensures file.Some? ==>
              && FileHolds(bufferSize, file.value, blocks)
              && Flatten(blocks) == FileItems(FileRecords(bufferSize, names, ids, events))
              && (NoneEmpty(blocks) <==> FileClean(bufferSize, names, ids, events))
              && blocks != []
              && (NoneEmpty(blocks[..|blocks| - 1]) <==> FileFull(bufferSize, names, ids, events))
              && (blocks[|blocks| - 1] == [] <==> EndsFlushed(bufferSize, ids, events))
    ensures file.Some? && names != [] && FileFull(bufferSize, names, ids, events)
            && EndsFlushed(bufferSize, ids, events) ==>
              EndsStale(file.value, StaleTag(bufferSize, names, ids, events))
  {
    hide FileItems, RecordItems, NoneEmpty, Flatten, EventsFit, EventsEnd, KeptOf, EventBytes, Fate, PosAfter, ValuesOf,
         Overflows, HeadersEndPending, Groups, FileHolds, LastLead;
    var stage := new XdrFilterOutputStage(bufferSize);
    var stream := stage.stream;
    NothingYet();
    assert stream.Stream() == [];
    stage.DescribeEvent(names, ids);
    ghost var headers := HeaderRecords(Groups(bufferSize, names));
    ghost var before := stream.Stream();
    assert before == FileItems(headers);
    var ok := WriteEvents(stage, events);
    if !ok {
      return None, [];
    }
    NoneEmptyMore(stream.blocks, stream.pending);
    FileItemsAppend(headers, EventRecords(KeptOf(bufferSize, ids, events)));
    ghost var full := stream.blocks;
    if names != [] && FileFull(bufferSize, names, ids, events) && EndsFlushed(bufferSize, ids, events) {
      assert LedBy(full, [], StaleTag(bufferSize, names, ids, events));
    }
    stream.Close();
    assert stream.blocks[..|full|] == full;
    file, blocks := Some(stream.file), stream.blocks;
  }

  lemma NothingYet()
    ensures Flatten<Item>([]) == [] && NoneEmpty([])
  {
  }

  lemma NoEvents(bufferSize: nat, pos: nat, ids: seq<nat>)
    ensures FileItems(EventRecords(KeptOf(bufferSize, ids, []))) == []
    ensures KeptOf(bufferSize, ids, []) == [] && EventsFit(bufferSize, pos, []) && EventsEnd(bufferSize, pos, []) == pos
    ensures !Overflows(bufferSize, ids, [])
  {
  }

  // What comes out at the other end

  /** A line for each event. */
  function Rows(kept: seq<Values>): seq<Token> {
    if kept == [] then [] else Row(kept[0]) + [LineEnd] + Rows(kept[1..])
  }

  lemma {:induction false} EventsTable(kept: seq<Values>, n: nat, stale: Option<seq<byte>>)
    requires n > 0 && forall i :: 0 <= i < |kept| ==> |kept[i]| == n
    ensures AllWritable(EventRecords(kept)) && Consistent(EventRecords(kept), n)
    ensures Table(EventRecords(kept), n, true, stale) == Rows(kept)
    ensures kept != [] ==> Table(EventRecords(kept), n, false, stale) == [LineEnd] + Rows(kept)
    decreases |kept|
  {
    hide Row;
    if kept != [] {
      assert EventRecords(kept)[1..] == EventRecords(kept[1..]);
      EventsTable(kept[1..], n, stale);
      assert [LineEnd] + Row(kept[0]) + [LineEnd] + Rows(kept[1..]) == [LineEnd] + Rows(kept);
    }
  }

  /** Several header records amount to one with all the names. */
  lemma {:induction false} HeadersTable(groups: seq<seq<Name>>, rest: seq<Record>, n: nat, stale: Option<seq<byte>>)
    ensures Table(HeaderRecords(groups) + rest, n, false, stale) ==
              NameCells(Flatten(groups)) + Table(rest, n + |Flatten(groups)|, false, stale)
    ensures Consistent(HeaderRecords(groups) + rest, n) <==> Consistent(rest, n + |Flatten(groups)|)
    decreases |groups|
  {
    hide NameCells, HeaderRecords, Table, Consistent;
    HeadersFirst(groups, rest);
    if groups == [] {
      assert Flatten(groups) == [];
      NameCellsAppend([], []);
    } else {
      hide Flatten;
      FlattenFirst(groups);
      HeaderFirst(HeaderRecords(groups) + rest, n, stale);
      var later, names := Flatten(groups[1..]), n + |groups[0]|;
      HeadersTable(groups[1..], rest, names, stale);
      NameCellsAppend(groups[0], later);
      var tail := Table(rest, names + |later|, false, stale);
      assert NameCells(groups[0]) + (NameCells(later) + tail) == NameCells(groups[0]) + NameCells(later) + tail;
    }
  }

  lemma FlattenFirst(groups: seq<seq<Name>>)
    requires groups != []
    ensures Flatten(groups) == groups[0] + Flatten(groups[1..])
  {
  }

  lemma HeaderFirst(records: seq<Record>, n: nat, stale: Option<seq<byte>>)
    requires records != [] && records[0].HeaderRecord?
    ensures var names, later := records[0].names, records[1..];
            && Table(records, n, false, stale) == NameCells(names) + Table(later, n + |names|, false, stale)
            && (Consistent(records, n) <==> Consistent(later, n + |names|))
  {
  }

  lemma HeadersFirst(groups: seq<seq<Name>>, rest: seq<Record>)
    ensures var records := HeaderRecords(groups) + rest;
            if groups == [] then records == rest
            else && records != [] && records[0] == HeaderRecord(groups[0])
                 && records[1..] == HeaderRecords(groups[1..]) + rest
  {
  }

  lemma NameCellsAppend(a: seq<Name>, b: seq<Name>)
    ensures NameCells(a + b) == NameCells(a) + NameCells(b) && NameCells([]) == []
  {
  }

  lemma {:induction false} KeptHaveAllColumns(bufferSize: nat, ids: seq<nat>, events: seq<Event>)
    ensures forall i :: 0 <= i < |KeptOf(bufferSize, ids, events)| ==> |KeptOf(bufferSize, ids, events)[i]| == |ids|
    ensures ids == [] ==> KeptOf(bufferSize, ids, events) == []
  {
    if events != [] {
      KeptHaveAllColumns(bufferSize, ids, events[1..]);
    }
  }

  /** The names and, below them, a line for each kept event. If there is none, a stale name
      still ends the line of names. */
  function Printed(names: seq<Name>, kept: seq<Values>, stale: Option<seq<byte>>): seq<Token> {
    NameCells(names) + if kept == [] then StaleEnd(stale, false) else [LineEnd] + Rows(kept)
  }

  lemma TableOfFile(bufferSize: nat, names: seq<Name>, ids: seq<nat>, events: seq<Event>, stale: Option<seq<byte>>)
    requires |names| == |ids| < 0x8000_0000 && AllFit(bufferSize, names)
    ensures var records := FileRecords(bufferSize, names, ids, events);
            && Consistent(records, 0)
            && Table(records, 0, false, stale) == Printed(names, KeptOf(bufferSize, ids, events), stale)
  {
    hide NameCells, Rows, KeptOf;
    var kept := KeptOf(bufferSize, ids, events);
    GroupsKeepNames(bufferSize, names);
    KeptHaveAllColumns(bufferSize, ids, events);
    if kept != [] {
      EventsTable(kept, |ids|, stale);
    }
    HeadersTable(Groups(bufferSize, names), EventRecords(kept), 0, stale);
  }

  // The table, by event and parameter

  predicate Present(event: Event, id: nat) {
    id < |event| && event[id].Some?
  }

  /** How many of the described parameters an event has. */
  function CountPresent(ids: seq<nat>, event: Event): nat {
    if ids == [] then 0 else (if Present(event, ids[0]) then 1 else 0) + CountPresent(ids[1..], event)
  }

  /** A mask word for every 32 parameters, a double for each one present, and the tag. */
  function RecordSize(ids: seq<nat>, event: Event): nat {
    4 * ((|ids| + 31) / 32) + 8 * CountPresent(ids, event) + 12
  }

  /** An event with something to write that fits a buffer behind its header. */
  predicate IsKept(bufferSize: nat, ids: seq<nat>, event: Event) {
    0 < CountPresent(ids, event) && 4 + RecordSize(ids, event) <= bufferSize
  }

  /** An event that fits the buffer, but not behind the header. */
  predicate IsFatal(bufferSize: nat, ids: seq<nat>, event: Event) {
    0 < CountPresent(ids, event) && RecordSize(ids, event) <= bufferSize < 4 + RecordSize(ids, event)
  }

  lemma {:induction false} CountOfPresent(ids: seq<nat>, event: Event)
    ensures CountValid(ValuesOf(ids, event)) == CountPresent(ids, event)
  {
    if ids != [] {
      assert ValuesOf(ids, event)[1..] == ValuesOf(ids[1..], event);
      CountOfPresent(ids[1..], event);
    }
  }

  /** What becomes of an event, by the parameters that it has. */
  lemma FateOfEvent(bufferSize: nat, ids: seq<nat>, event: Event)
    ensures Fate(bufferSize, ValuesOf(ids, event)) == Kept <==> IsKept(bufferSize, ids, event)
    ensures Fate(bufferSize, ValuesOf(ids, event)) == Overflow <==> IsFatal(bufferSize, ids, event)
  {
    hide ValuesOf, CountValid, CountPresent;
    CountOfPresent(ids, event);
  }

  function KeptTest(bufferSize: nat, ids: seq<nat>, events: seq<Event>): nat -> bool {
    (k: nat) => k < |events| && IsKept(bufferSize, ids, events[k])
  }

  lemma {:induction false} KeptOfAppend(bufferSize: nat, ids: seq<nat>, a: seq<Event>, b: seq<Event>)
    ensures KeptOf(bufferSize, ids, a + b) == KeptOf(bufferSize, ids, a) + KeptOf(bufferSize, ids, b)
    decreases |a|
  {
    hide Fate, ValuesOf;
    if a == [] {
      assert a + b == b;
    } else {
      var values := ValuesOf(ids, a[0]);
      var first: seq<Values> := if Fate(bufferSize, values) == Kept then [values] else [];
      assert (a + b)[1..] == a[1..] + b;
      KeptOfAppend(bufferSize, ids, a[1..], b);
      assert first + (KeptOf(bufferSize, ids, a[1..]) + KeptOf(bufferSize, ids, b))
          == first + KeptOf(bufferSize, ids, a[1..]) + KeptOf(bufferSize, ids, b);
    }
  }

  lemma KeptOfOne(bufferSize: nat, ids: seq<nat>, event: Event)
    ensures KeptOf(bufferSize, ids, [event]) == if IsKept(bufferSize, ids, event) then [ValuesOf(ids, event)] else []
  {
    hide Fate, ValuesOf, IsKept;
    FateOfEvent(bufferSize, ids, event);
    assert [event][1..] == [];
  }

  ghost predicate ValuesAt(kept: seq<Values>, ids: seq<nat>, events: seq<Event>, at: seq<nat>) {
    |kept| == |at| && forall r :: 0 <= r < |at| ==> at[r] < |events| && kept[r] == ValuesOf(ids, events[at[r]])
  }

  lemma ValuesMore(kept: seq<Values>, ids: seq<nat>, events: seq<Event>, at: seq<nat>)
    requires events != [] && ValuesAt(kept, ids, events[..|events| - 1], at)
    ensures ValuesAt(kept, ids, events, at)
    ensures var n := |events| - 1; ValuesAt(kept + [ValuesOf(ids, events[n])], ids, events, at + [n])
  {
    hide ValuesOf;
    forall r | 0 <= r < |at| ensures at[r] < |events| - 1 && events[..|events| - 1][at[r]] == events[at[r]] {
    }
  }

  /** The kept events are those at these places. */
  ghost predicate KeptAt(bufferSize: nat, ids: seq<nat>, events: seq<Event>, at: seq<nat>) {
    Selects(at, |events|, KeptTest(bufferSize, ids, events)) && forall r :: 0 <= r < |at| ==> at[r] < |events|
  }

  lemma {:induction false} KeptPlaces(bufferSize: nat, ids: seq<nat>, events: seq<Event>) returns (at: seq<nat>)
    ensures Selects(at, |events|, KeptTest(bufferSize, ids, events))
    ensures ValuesAt(KeptOf(bufferSize, ids, events), ids, events, at)
  {
    hide KeptOf, IsKept, ValuesOf, Selects, ValuesAt, KeptTest;
    at := [];
    if events == [] {
      NoneKept(bufferSize, ids);
    } else {
      var n := |events| - 1;
      var init, test := events[..n], KeptTest(bufferSize, ids, events);
      at := KeptPlaces(bufferSize, ids, init);
      assert events == init + [events[n]];
      KeptOfAppend(bufferSize, ids, init, [events[n]]);
      KeptOfOne(bufferSize, ids, events[n]);
      forall k: nat | k < n ensures KeptTest(bufferSize, ids, init)(k) == test(k) {
        TestedSame(bufferSize, ids, events, n, k);
      }
      SelectsSame(at, n, KeptTest(bufferSize, ids, init), test);
      SelectsMore(at, n, test);
      ValuesMore(KeptOf(bufferSize, ids, init), ids, events, at);
      assert KeptOf(bufferSize, ids, init) + [] == KeptOf(bufferSize, ids, init);
      TestedLast(bufferSize, ids, events);
      if test(n) {
        at := at + [n];
      }
    }
  }

  lemma NoneKept(bufferSize: nat, ids: seq<nat>)
    ensures KeptOf(bufferSize, ids, []) == [] && ValuesAt([], ids, [], [])
    ensures Selects([], 0, KeptTest(bufferSize, ids, []))
  {
  }

  lemma TestedSame(bufferSize: nat, ids: seq<nat>, events: seq<Event>, n: nat, k: nat)
    requires k < n <= |events|
    ensures KeptTest(bufferSize, ids, events[..n])(k) == KeptTest(bufferSize, ids, events)(k)
  {
    hide IsKept;
  }

  lemma TestedLast(bufferSize: nat, ids: seq<nat>, events: seq<Event>)
    requires events != []
    ensures var n := |events| - 1; KeptTest(bufferSize, ids, events)(n) == IsKept(bufferSize, ids, events[n])
  {
    hide IsKept;
  }

  /** Where a line of n cells and an end begins. */
  function LineStart(n: nat, line: nat): nat {
    if line == 0 then 0 else LineStart(n, line - 1) + n + 1
  }

  lemma {:induction false} RowsAt(kept: seq<Values>, n: nat, r: nat, i: nat)
    requires r < |kept| && i <= n && forall k :: 0 <= k < |kept| ==> |kept[k]| == n
    ensures |Rows(kept)| == LineStart(n, |kept|) && LineStart(n, r) + i < |Rows(kept)|
    ensures Rows(kept)[LineStart(n, r) + i] == if i < n then Cell(kept[r][i]) else LineEnd
    decreases |kept|
  {
    hide Row;
    RowCells(kept[0]);
    if |kept| == 1 {
      assert Rows(kept[1..]) == [];
    } else {
      RowsAt(kept[1..], n, if r == 0 then 0 else r - 1, i);
    }
  }

  lemma RowCells(values: Values)
    ensures |Row(values)| == |values| && forall i :: 0 <= i < |values| ==> Row(values)[i] == Cell(values[i])
  {
  }

  function CellFor(event: Event, id: nat): Token {
    if id < |event| && event[id].Some? then ValueCell(event[id].value) else GapCell
  }

  /** From some place on, the output is an event's line. */
  predicate LineIs(output: seq<Token>, from: nat, ids: seq<nat>, event: Event) {
    && from + |ids| < |output| && output[from + |ids|] == LineEnd
    && forall i :: 0 <= i < |ids| ==> output[from + i] == CellFor(event, ids[i])
  }

  /** The output for some kept events: the line of names, and below it a line for each event,
      with the value of each parameter, or a gap, under the parameter's name. Without an event
      the line of names may lack its end. */
  ghost predicate IsTable(names: seq<Name>, ids: seq<nat>, events: seq<Event>, at: seq<nat>, output: seq<Token>)
    requires |names| == |ids| && forall r :: 0 <= r < |at| ==> at[r] < |events|
  {
    var n := |ids|;
    && n <= |output| && (forall i :: 0 <= i < n ==> output[i] == NameCell(names[i]))
    && (if at == [] then output[n..] == [] || output[n..] == [LineEnd]
        else |output| == LineStart(n, |at| + 1) > n && output[n] == LineEnd)
    && forall r :: 0 <= r < |at| ==> LineIs(output, LineStart(n, r + 1), ids, events[at[r]])
  }

  lemma PrintedIsTable(bufferSize: nat, names: seq<Name>, ids: seq<nat>, events: seq<Event>, stale: Option<seq<byte>>)
      returns (at: seq<nat>)
    requires |names| == |ids|
    ensures KeptAt(bufferSize, ids, events, at)
    ensures IsTable(names, ids, events, at, Printed(names, KeptOf(bufferSize, ids, events), stale))
  {
    hide KeptOf, Rows, IsKept, Selects, NameCells, StaleEnd, LineIs, ValuesOf;
    at := KeptPlaces(bufferSize, ids, events);
    var kept, n := KeptOf(bufferSize, ids, events), |ids|;
    var output := Printed(names, kept, stale);
    NameCellsAt(names);
    StaleEnds(stale);
    forall r | 0 <= r < |at| ensures LineIs(output, LineStart(n, r + 1), ids, events[at[r]]) {
      LineBelow(n, r, |at|);
      assert output[n + 1..] == Rows(kept);
      RowIsLine(kept, ids, events[at[r]], r);
      LineBehind(output, n + 1, LineStart(n, r), ids, events[at[r]]);
    }
    if at != [] {
      RowsAt(kept, n, 0, 0);
      LineBelow(n, 0, |at|);
    } else {
      assert output[n..] == StaleEnd(stale, false);
    }
    assert forall i :: 0 <= i < n ==> output[i] == NameCells(names)[i];
  }

  lemma RowIsLine(kept: seq<Values>, ids: seq<nat>, event: Event, r: nat)
    requires r < |kept| && kept[r] == ValuesOf(ids, event)
    requires forall k :: 0 <= k < |kept| ==> |kept[k]| == |ids|
    ensures LineIs(Rows(kept), LineStart(|ids|, r), ids, event)
  {
    hide Rows, LineStart, ValuesOf, Cell, CellFor;
    RowsAt(kept, |ids|, r, |ids|);
    forall i | 0 <= i < |ids| ensures Rows(kept)[LineStart(|ids|, r) + i] == CellFor(event, ids[i]) {
      RowsAt(kept, |ids|, r, i);
      CellOfValue(ids, event, i);
    }
  }

  lemma CellOfValue(ids: seq<nat>, event: Event, i: nat)
    requires i < |ids|
    ensures Cell(ValuesOf(ids, event)[i]) == CellFor(event, ids[i])
  {
  }

  lemma LineBehind(output: seq<Token>, skipped: nat, from: nat, ids: seq<nat>, event: Event)
    requires skipped <= |output| && LineIs(output[skipped..], from, ids, event)
    ensures LineIs(output, skipped + from, ids, event)
  {
    assert output[skipped..][from + |ids|] == output[skipped + from + |ids|];
    forall i | 0 <= i < |ids| ensures output[skipped + from + i] == CellFor(event, ids[i]) {
      assert output[skipped..][from + i] == output[skipped + from + i];
    }
  }

  lemma {:induction false} LineBelow(n: nat, a: nat, b: nat)
    ensures LineStart(n, a + 1) == n + 1 + LineStart(n, a) && LineStart(n, b + 1) == n + 1 + LineStart(n, b)
  {
  }

  lemma NameCellsAt(names: seq<Name>)
    ensures forall i :: 0 <= i < |names| ==> NameCells(names)[i] == NameCell(names[i])
  {
  }

  lemma StaleEnds(stale: Option<seq<byte>>)
    ensures StaleEnd(stale, false) == [] || StaleEnd(stale, false) == [LineEnd]
  {
  }

  /** A file in which no block but perhaps the last is empty comes back as its names and, below
      them, one line for each kept event with a value or a gap in each column. */
  method WriteAndTranslate(bufferSize: nat, names: seq<Name>, ids: seq<nat>, events: seq<Event>)
    returns (output: Option<seq<Token>>, ghost at: seq<nat>)
    requires HEADER <= bufferSize < WORD_LIMIT && bufferSize % 4 == 0
    requires 0 < |names| == |ids| < 0x8000_0000 && AllFit(bufferSize, names)
    requires FileFull(bufferSize, names, ids, events)
    ensures output.None? <==> exists k :: 0 <= k < |events| && IsFatal(bufferSize, ids, events[k])
    ensures output.Some? ==> KeptAt(bufferSize, ids, events, at) && IsTable(names, ids, events, at, output.value)
    ensures output.Some? ==>
              output.value == Printed(names, KeptOf(bufferSize, ids, events), StaleOf(bufferSize, names, ids, events))
  {
    hide NameCells, Rows, Table, Consistent, Overflows, FileRecords, Flatten, FileHolds, FileFull, EndsFlushed,
         StaleTag, EndsStale, AllFit, Printed, KeptOf, AllWritable, FileItems, IsTable, KeptAt, IsFatal;
    var file, blocks := WriteFile(bufferSize, names, ids, events);
    FatalEvents(bufferSize, ids, events);
    if file.None? {
      return None, [];
    }
    ghost var stale := StaleOf(bufferSize, names, ids, events);
    TableOfFile(bufferSize, names, ids, events, stale);
    var input := new XdrInputStream(bufferSize, file.value, blocks);
    assert stale.None? ==> forall b :: 0 <= b < |blocks| ==> blocks[b] != [] by {
      assert FileClean(bufferSize, names, ids, events) <==>
             FileFull(bufferSize, names, ids, events) && !EndsFlushed(bufferSize, ids, events);
    }
    var table := TranslateFilter(input, blocks, FileRecords(bufferSize, names, ids, events), stale);
    output := Some(table);
    at := PrintedIsTable(bufferSize, names, ids, events, stale);
  }

  lemma FatalEvents(bufferSize: nat, ids: seq<nat>, events: seq<Event>)
    ensures Overflows(bufferSize, ids, events) <==>
              exists k :: 0 <= k < |events| && IsFatal(bufferSize, ids, events[k])
  {
    hide Fate, ValuesOf, IsFatal;
    forall k | 0 <= k < |events|
      ensures Fate(bufferSize, ValuesOf(ids, events[k])) == Overflow <==> IsFatal(bufferSize, ids, events[k])
    {
      FateOfEvent(bufferSize, ids, events[k]);
    }
  }

  function StaleOf(bufferSize: nat, names: seq<Name>, ids: seq<nat>, events: seq<Event>): Option<seq<byte>>
    requires AllFit(bufferSize, names) && names != []
  {
    if EndsFlushed(bufferSize, ids, events) then Some(StaleTag(bufferSize, names, ids, events)) else None
  }

  /** What the gets of a reader meet in a written file are the items of its records if and only
      if no block is empty. */
  method WriteAndRead(bufferSize: nat, names: seq<Name>, ids: seq<nat>, events: seq<Event>)
    returns (input: Option<XdrInputStream>)
    requires HEADER <= bufferSize < WORD_LIMIT && bufferSize % 4 == 0
    requires |names| < 0x8000_0000 && AllFit(bufferSize, names)
    ensures input.None? <==> Overflows(bufferSize, ids, events)
    ensures input.Some? ==>
              && input.value.Valid() && fresh(input.value)
              && (input.value.Expect() == Somes(FileItems(FileRecords(bufferSize, names, ids, events)))
                  <==> FileClean(bufferSize, names, ids, events))
  {
    hide Overflows, FileRecords, Flatten, FileHolds, FileClean;
    var file, blocks := WriteFile(bufferSize, names, ids, events);
    if file.None? {
      return None;
    }
    ReadsFaithful(blocks);
    var reader := new XdrInputStream(bufferSize, file.value, blocks);
    reader.Connect();
    input := Some(reader);
  }

  // Inputs that make for empty blocks

  lemma {:induction false} ManyValid(values: Values)
    requires forall i :: 0 <= i < |values| ==> values[i].Some?
    ensures CountValid(values) == |values|
  {
    if values != [] {
      ManyValid(values[1..]);
    }
  }

  /** In the usual buffer an event with 503 valid parameters never fits twice, so the flush in
      front of it writes an empty block when it comes first. */
  lemma LargeEventLeavesEmptyBlock(values: Values)
    requires |values| == 503 && forall i :: 0 <= i < |values| ==> values[i].Some?
    ensures Fate(USUAL_SIZE, values) == Kept && !EventsFit(USUAL_SIZE, HEADER, [values])
  {
    ManyValid(values);
    assert EventBytes(values) == 4100;
  }

  /** A file that gets no event ends with an empty block. */
  lemma NoEventsEndFlushed(bufferSize: nat, names: seq<Name>, ids: seq<nat>)
    requires AllFit(bufferSize, names)
    ensures EndsFlushed(bufferSize, ids, []) && !FileClean(bufferSize, names, ids, [])
  {
  }

  lemma {:induction false} CountPrefix(values: Values, n: nat)
    requires n <= |values| && forall i :: 0 <= i < |values| ==> (values[i].Some? <==> i < n)
    ensures CountValid(values) == n
  {
    if values != [] {
      CountPrefix(values[1..], if n == 0 then 0 else n - 1);
    }
  }

  /** Of 1025 parameters the first 1006 valid: the record would fill the usual buffer with no
      room for the header of the block, and the program exits. */
  lemma EventEndsProgram(values: Values)
    requires |values| == 1025 && forall i :: 0 <= i < |values| ==> (values[i].Some? <==> i < 1006)
    ensures Fate(USUAL_SIZE, values) == Overflow
  {
    CountPrefix(values, 1006);
  }
}
