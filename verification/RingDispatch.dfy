/** What dispatching one ring item does to the decoder's statistics and which analyzer entry
    points it calls (main/Core/CRingBufferDecoder.cpp:768-926, 1006-1027). */
module RingDispatch {
  import opened Options
  import opened Bytes
  import opened BufferTranslators
  import opened RingStream

  const BEGIN_RUN: word := 1
  const END_RUN: word := 2
  const PAUSE_RUN: word := 3
  const RESUME_RUN: word := 4
  const PACKET_TYPES: word := 10
  const MONITORED_VARIABLES: word := 11
  const RING_FORMAT: word := 12
  const PERIODIC_SCALERS: word := 20
  const PHYSICS_EVENT: word := 30
  const PHYSICS_EVENT_COUNT: word := 31

  /** SpecTcl's own buffer types for the ring item types that have one. */
  function MapType(itemType: word): word {
    if itemType == BEGIN_RUN then 11
    else if itemType == END_RUN then 12
    else if itemType == PAUSE_RUN then 13
    else if itemType == RESUME_RUN then 14
    else if itemType == PACKET_TYPES then 6
    else if itemType == MONITORED_VARIABLES then 5
    else if itemType == PERIODIC_SCALERS then 2
    else if itemType == PHYSICS_EVENT then 1
    else itemType
  }

  /** Format helpers by class; `User` stands for one that the application supplied. */
  datatype Helper = V10 | V11 | V12 | User(id: nat)

  const FALLBACK := V11

  /** The creators that the decoder registers. */
  const STANDARD_FORMATS: map<(nat, nat), Helper> :=
    map[(10, 0) := V10, (10, 1) := V10, (10, 2) := V10,
        (11, 0) := V11, (11, 1) := V11, (11, 2) := V11, (11, 3) := V11,
        (11, 4) := V12, (12, 0) := V12]

  /** Helpers go by major version, except that 11.4 is read like 12.0. */
  lemma HelperOfVersion(major: nat, minor: nat)
    ensures (major, minor) in STANDARD_FORMATS <==>
              (major == 10 && minor <= 2) || (major == 11 && minor <= 4) || (major == 12 && minor == 0)
    ensures (major, minor) in STANDARD_FORMATS ==>
              STANDARD_FORMATS[(major, minor)]
                == if major == 10 then V10 else if major == 11 && minor < 4 then V11 else V12
  {
  }

  /** The parts of an item that format helpers extract; their layouts are parameters here. */
  datatype Library = Library(
    bodyOffset: (Helper, seq<byte>) -> nat,
    title: (Helper, seq<byte>) -> string,
    runNumber: (Helper, Translator, seq<byte>) -> word,
    stringCount: (Helper, Translator, seq<byte>) -> word,
    scalerCount: (Helper, Translator, seq<byte>) -> word,
    triggerCount: (Helper, Translator, seq<byte>) -> nat,
    shortFormatVersion: seq<byte> -> (nat, nat),
    unrecognized: seq<byte> -> bool)

  /** What the decoder's getters answer. */
  datatype Info = Info(
    currentHelper: Option<Helper>,
    defaultHelper: Option<Helper>,
    title: string,
    runNumber: word,
    itemType: word,
    entityCount: word,
    triggerCount: word,
    bodyOffset: nat,
    bodySize: word,
    ringItem: Option<seq<byte>>)

  datatype Call =
    | BeginRun(run: word, name: string)
    | EndRun(run: word, name: string)
    | OnStateChange(bufferType: word)
    | OnOther(bufferType: word)
    | OnScaler
    | OnPhysics

  /** A call and what the decoder answers while it lasts. */
  datatype Delivery = Delivery(call: Call, seen: Info)

  function HalfAt(host: ByteOrder, bs: seq<byte>, at: nat): nat
    requires at + 2 <= |bs|
  {
    var b0: int, b1: int := bs[at], bs[at + 1];
    if host.Little? then b0 + 0x100 * b1 else b1 + 0x100 * b0
  }

  /** The factory reads both version numbers in host order, whatever the source's order. */
  function FormatVersion(lib: Library, host: ByteOrder, bs: seq<byte>): (nat, nat) {
    if 16 <= |bs| then (HalfAt(host, bs, 12), HalfAt(host, bs, 14)) else lib.shortFormatVersion(bs)
  }

  /** The two bytes that a machine of byte order `o` stores for a version number. */
  function HalfBytes(o: ByteOrder, v: nat): (bs: seq<byte>)
    requires v < 0x1_0000
    ensures |bs| == 2
  {
    match o
    case Little => [v % 0x100, v / 0x100]
    case Big => [v / 0x100, v % 0x100]
  }

  /** A format item as a data source writes it: headers, the version, and whatever follows. */
  function FormatItem(source: ByteOrder, headers: seq<byte>, major: nat, minor: nat, tail: seq<byte>): seq<byte>
    requires |headers| == 12 && major < 0x1_0000 && minor < 0x1_0000
  {
    headers + HalfBytes(source, major) + HalfBytes(source, minor) + tail
  }

  /** A number whose two bytes are the same reads the same either way. */
  predicate ReadsSameSwapped(v: nat) {
    v % 0x100 == v / 0x100
  }

  lemma HalfReads(host: ByteOrder, source: ByteOrder, v: nat, bs: seq<byte>, at: nat)
    requires v < 0x1_0000 && at + 2 <= |bs| && bs[at..at + 2] == HalfBytes(source, v)
    ensures HalfAt(host, bs, at) == v <==> source == host || ReadsSameSwapped(v)
    ensures source != host ==> HalfAt(host, bs, at) == v / 0x100 + 0x100 * (v % 0x100)
  {
    assert bs[at] == bs[at..at + 2][0] && bs[at + 1] == bs[at..at + 2][1];
  }

  lemma VersionBytes(source: ByteOrder, headers: seq<byte>, major: nat, minor: nat, tail: seq<byte>)
    requires |headers| == 12 && major < 0x1_0000 && minor < 0x1_0000
    ensures var bs := FormatItem(source, headers, major, minor, tail);
            16 <= |bs| && bs[12..14] == HalfBytes(source, major) && bs[14..16] == HalfBytes(source, minor)
  {
  }

  /** The factory reads the version that was written if and only if source and host have the
      same byte order or both numbers read the same either way. */
  lemma VersionAsWritten(lib: Library, host: ByteOrder, source: ByteOrder, headers: seq<byte>,
                         major: nat, minor: nat, tail: seq<byte>)
    requires |headers| == 12 && major < 0x1_0000 && minor < 0x1_0000
    ensures FormatVersion(lib, host, FormatItem(source, headers, major, minor, tail)) == (major, minor)
       <==> source == host || (ReadsSameSwapped(major) && ReadsSameSwapped(minor))
  {
    hide HalfBytes, FormatItem, HalfAt;
    var bs := FormatItem(source, headers, major, minor, tail);
    VersionBytes(source, headers, major, minor, tail);
    HalfReads(host, source, major, bs, 12);
    HalfReads(host, source, minor, bs, 14);
  }

  /** For a source of the other byte order no version that the decoder knows is recognised. */
  lemma SwappedVersionUnknown(lib: Library, host: ByteOrder, source: ByteOrder, headers: seq<byte>,
                              major: nat, minor: nat, tail: seq<byte>)
    requires |headers| == 12 && source != host && (major, minor) in STANDARD_FORMATS
    ensures CreateHelper(lib, STANDARD_FORMATS, host, FormatItem(source, headers, major, minor, tail)) == None
  {
    hide HalfBytes, FormatItem, HalfAt;
    var bs := FormatItem(source, headers, major, minor, tail);
    VersionBytes(source, headers, major, minor, tail);
    HalfReads(host, source, major, bs, 12);
    HalfReads(host, source, minor, bs, 14);
  }

  function CreateHelper(lib: Library, formats: map<(nat, nat), Helper>, host: ByteOrder, bs: seq<byte>)
    : Option<Helper>
  {
    var version := FormatVersion(lib, host, bs);
    if version in formats then Some(formats[version]) else None
  }

  /** getFormatHelper: current, else default, else fallback. */
  function HelperUsed(current: Option<Helper>, default: Option<Helper>): Helper {
    match current
    case Some(h) => h
    case None => match default case Some(h) => h case None => FALLBACK
  }

  datatype Config = Config(lib: Library, formats: map<(nat, nat), Helper>)

  /** What every item sets, whatever its type. */
  function Present(cfg: Config, t: Translator, info: Info, item: Item): Info {
    var lib, bs, ty := cfg.lib, item.bytes, item.itemType;
    var current := if ty == RING_FORMAT then CreateHelper(lib, cfg.formats, t.host, bs) else info.currentHelper;
    var offset := lib.bodyOffset(HelperUsed(current, info.defaultHelper), bs);
    info.(currentHelper := current, ringItem := Some(bs), itemType := MapType(ty),
          bodyOffset := offset, bodySize := (|bs| - offset) % WORD_LIMIT)
  }

  predicate ChangesState(ty: word) {
    ty == BEGIN_RUN || ty == END_RUN || ty == PAUSE_RUN || ty == RESUME_RUN
  }

  /** What depends on the item type. */
  function Account(cfg: Config, t: Translator, info: Info, item: Item): Info {
    var lib, bs, ty := cfg.lib, item.bytes, item.itemType;
    var h := HelperUsed(info.currentHelper, info.defaultHelper);
    if ChangesState(ty) then
      info.(triggerCount := if ty == BEGIN_RUN then 0 else info.triggerCount,
            title := lib.title(h, bs), runNumber := lib.runNumber(h, t, bs), entityCount := 0)
    else if ty == PACKET_TYPES || ty == MONITORED_VARIABLES then info.(entityCount := lib.stringCount(h, t, bs))
    else if ty == PERIODIC_SCALERS then info.(entityCount := lib.scalerCount(h, t, bs))
    else if ty == PHYSICS_EVENT then info.(entityCount := 1, triggerCount := (info.triggerCount + 1) % WORD_LIMIT)
    else if ty == PHYSICS_EVENT_COUNT then info.(triggerCount := lib.triggerCount(h, t, bs) % WORD_LIMIT)
    else info
  }

  /** The calls for an item, given what the decoder answers before and after accounting.
      The run hooks see title, run number and entity count as they were. */
  function CallsFor(cfg: Config, before: Info, after: Info, item: Item): seq<Delivery> {
    var ty := item.itemType;
    var early := before.(triggerCount := after.triggerCount);
    if ty == BEGIN_RUN then
      [Delivery(BeginRun(after.runNumber, after.title), early), Delivery(OnStateChange(MapType(ty)), after)]
    else if ty == END_RUN then
      [Delivery(EndRun(after.runNumber, after.title), early), Delivery(OnStateChange(MapType(ty)), after)]
    else if ChangesState(ty) then [Delivery(OnStateChange(MapType(ty)), after)]
    else if ty == PERIODIC_SCALERS then [Delivery(OnScaler, after)]
    else if ty == PHYSICS_EVENT then [Delivery(OnPhysics, after)]
    else if ty == PACKET_TYPES || ty == MONITORED_VARIABLES || ty == PHYSICS_EVENT_COUNT then
      [Delivery(OnOther(MapType(ty)), after)]
    else if cfg.lib.unrecognized(item.bytes) then []
    else [Delivery(OnOther(MapType(ty)), after)]
  }

  datatype Result = Result(info: Info, calls: seq<Delivery>)

  function Dispatch(cfg: Config, t: Translator, info: Info, item: Item): Result {
    var before := Present(cfg, t, info, item);
    var after := Account(cfg, t, before, item);
    Result(after.(ringItem := None), CallsFor(cfg, before, after, item))
  }

  function DispatchAll(cfg: Config, t: Translator, info: Info, items: seq<Item>): Result
    decreases |items|
  {
    if items == [] then Result(info, [])
    else
      var first := Dispatch(cfg, t, info, items[0]);
      var rest := DispatchAll(cfg, t, first.info, items[1..]);
      Result(rest.info, first.calls + rest.calls)
  }

  lemma DispatchNone(cfg: Config, t: Translator, info: Info, before: seq<Delivery>)
    ensures DispatchAll(cfg, t, info, []) == Result(info, []) && before + [] == before
  {
  }

  lemma DispatchOne(cfg: Config, t: Translator, info: Info, item: Item)
    ensures DispatchAll(cfg, t, info, [item]) == Dispatch(cfg, t, info, item)
  {
    var one := Dispatch(cfg, t, info, item);
    assert one.calls + [] == one.calls;
  }

  lemma {:induction false} DispatchAllAppend(cfg: Config, t: Translator, info: Info, xs: seq<Item>, ys: seq<Item>)
    ensures var first := DispatchAll(cfg, t, info, xs);
            var second := DispatchAll(cfg, t, first.info, ys);
            DispatchAll(cfg, t, info, xs + ys) == Result(second.info, first.calls + second.calls)
    decreases |xs|
  {
    hide Dispatch;
    if xs == [] {
      assert xs + ys == ys;
    } else {
      assert (xs + ys)[1..] == xs[1..] + ys;
      DispatchAllAppend(cfg, t, Dispatch(cfg, t, info, xs[0]).info, xs[1..], ys);
    }
  }

  lemma DispatchMore(cfg: Config, t: Translator, info: Info, before: seq<Delivery>, items: seq<Item>, more: seq<Item>)
    ensures var r := DispatchAll(cfg, t, info, items);
            var next := DispatchAll(cfg, t, r.info, more);
            var all := DispatchAll(cfg, t, info, items + more);
            all.info == next.info && before + all.calls == before + r.calls + next.calls
  {
    hide Dispatch;
    DispatchAllAppend(cfg, t, info, items, more);
  }

  // Whole histories

  /** A dispatched item with the translator in use, or an event that casts doubt on the
      format (attach, detach or end of a source). */
  datatype Input = Arrive(t: Translator, item: Item) | Invalidate

  function Step(cfg: Config, info: Info, input: Input): Result {
    match input
    case Arrive(t, item) => Dispatch(cfg, t, info, item)
    case Invalidate => Result(info.(currentHelper := None), [])
  }

  function Play(cfg: Config, info: Info, history: seq<Input>): Result {
    if history == [] then Result(info, [])
    else
      var before := Play(cfg, info, history[..|history| - 1]);
      var last := Step(cfg, before.info, history[|history| - 1]);
      Result(last.info, before.calls + last.calls)
  }

  predicate Is(input: Input, ty: word) {
    input.Arrive? && input.item.itemType == ty
  }

  predicate ResetsTrigger(input: Input) {
    Is(input, BEGIN_RUN) || Is(input, PHYSICS_EVENT_COUNT)
  }

  function CountPhysics(history: seq<Input>): nat {
    if history == [] then 0
    else CountPhysics(history[..|history| - 1]) + if Is(history[|history| - 1], PHYSICS_EVENT) then 1 else 0
  }

  predicate SetsHelper(input: Input) {
    input.Invalidate? || Is(input, 12)
  }

  lemma {:induction false} TriggersWithoutReset(cfg: Config, info: Info, history: seq<Input>)
    requires forall i :: 0 <= i < |history| ==> !ResetsTrigger(history[i])
    ensures Play(cfg, info, history).info.triggerCount == (info.triggerCount + CountPhysics(history)) % WORD_LIMIT
  {
    hide Step;
    if history != [] {
      var n := |history|;
      TriggersWithoutReset(cfg, info, history[..n - 1]);
      TriggerStep(cfg, Play(cfg, info, history[..n - 1]).info, history[n - 1]);
      AddAfterMod(info.triggerCount + CountPhysics(history[..n - 1]), 1);
    }
  }

  lemma TriggerStep(cfg: Config, info: Info, input: Input)
    requires !ResetsTrigger(input)
    ensures Step(cfg, info, input).info.triggerCount
         == if Is(input, PHYSICS_EVENT) then (info.triggerCount + 1) % WORD_LIMIT else info.triggerCount
  {
  }

  lemma {:induction false} PlayAppend(cfg: Config, info: Info, a: seq<Input>, b: seq<Input>)
    ensures var first := Play(cfg, info, a);
            var second := Play(cfg, first.info, b);
            Play(cfg, info, a + b) == Result(second.info, first.calls + second.calls)
    decreases |b|
  {
    hide Step;
    if b == [] {
      assert a + b == a;
    } else {
      var n := |a + b|;
      assert (a + b)[..n - 1] == a + b[..|b| - 1];
      PlayAppend(cfg, info, a, b[..|b| - 1]);
    }
  }

  function ResetValue(cfg: Config, before: Info, reset: Input): nat
    requires ResetsTrigger(reset)
  {
    if Is(reset, BEGIN_RUN) then 0
    else cfg.lib.triggerCount(HelperUsed(before.currentHelper, before.defaultHelper), reset.t, reset.item.bytes)
  }

  /** The trigger count is the last reset's value plus the physics items since, modulo 2^32:
      zero for a begin-run item, the item's own count for a count item. */
  lemma TriggerCountOfHistory(cfg: Config, info: Info, history: seq<Input>, last: nat)
    requires last < |history| && ResetsTrigger(history[last])
    requires forall i :: last < i < |history| ==> !ResetsTrigger(history[i])
    ensures var reset := history[last];
            var before := Play(cfg, info, history[..last]).info;
            Play(cfg, info, history).info.triggerCount
              == (ResetValue(cfg, before, reset) + CountPhysics(history[last + 1..])) % WORD_LIMIT
  {
    hide Step;
    var upTo, since := history[..last + 1], history[last + 1..];
    var before := Play(cfg, info, history[..last]).info;
    assert history == upTo + since;
    assert upTo[..last] == history[..last];
    PlayAppend(cfg, info, upTo, since);
    TriggerAfterReset(cfg, info, history[..last], history[last]);
    assert upTo == history[..last] + [history[last]];
    TriggersWithoutReset(cfg, Play(cfg, info, upTo).info, since);
    AddAfterMod(ResetValue(cfg, before, history[last]), CountPhysics(since));
  }

  lemma TriggerAfterReset(cfg: Config, info: Info, history: seq<Input>, reset: Input)
    requires ResetsTrigger(reset)
    ensures Play(cfg, info, history + [reset]).info.triggerCount
         == ResetValue(cfg, Play(cfg, info, history).info, reset) % WORD_LIMIT
  {
    assert (history + [reset])[..|history|] == history;
  }

  lemma AddAfterMod(a: nat, b: nat)
    ensures (a % WORD_LIMIT + b) % WORD_LIMIT == (a + b) % WORD_LIMIT
  {
  }

  lemma {:induction false} HelperKept(cfg: Config, info: Info, history: seq<Input>)
    requires forall i :: 0 <= i < |history| ==> !SetsHelper(history[i])
    ensures Play(cfg, info, history).info.currentHelper == info.currentHelper
  {
    if history != [] {
      HelperKept(cfg, info, history[..|history| - 1]);
    }
  }

  lemma {:induction false} DefaultKept(cfg: Config, info: Info, history: seq<Input>)
    ensures Play(cfg, info, history).info.defaultHelper == info.defaultHelper
  {
    if history != [] {
      DefaultKept(cfg, info, history[..|history| - 1]);
    }
  }

  /** The helper after a history is the one for the last format item's version, or the
      default (else the fallback) when the last such input invalidated it or named an
      unknown version. */
  lemma HelperOfHistory(cfg: Config, info: Info, history: seq<Input>, last: nat)
    requires last < |history| && SetsHelper(history[last])
    requires forall i :: last < i < |history| ==> !SetsHelper(history[i])
    ensures var after := Play(cfg, info, history).info;
            var chosen := if history[last].Invalidate? then None
                          else CreateHelper(cfg.lib, cfg.formats, history[last].t.host, history[last].item.bytes);
            HelperUsed(after.currentHelper, after.defaultHelper)
              == if chosen.Some? then chosen.value
                 else if info.defaultHelper.Some? then info.defaultHelper.value else V11
  {
    hide Step, CreateHelper;
    var upTo, since := history[..last + 1], history[last + 1..];
    assert history == upTo + since;
    assert upTo[..last] == history[..last];
    PlayAppend(cfg, info, upTo, since);
    HelperStep(cfg, Play(cfg, info, history[..last]).info, history[last]);
    HelperKept(cfg, Play(cfg, info, upTo).info, since);
    DefaultKept(cfg, info, history);
  }

  lemma HelperStep(cfg: Config, info: Info, input: Input)
    requires SetsHelper(input)
    ensures Step(cfg, info, input).info.currentHelper
         == if input.Invalidate? then None
            else CreateHelper(cfg.lib, cfg.formats, input.t.host, input.item.bytes)
  {
  }

  /** With the decoder's own formats, the helper of the version that the last format item was
      written with is in use if and only if the source has the host's byte order, or that
      helper is the default (else the fallback) anyway. */
  lemma HelperOfSource(cfg: Config, info: Info, history: seq<Input>, last: nat, source: ByteOrder,
                       headers: seq<byte>, major: nat, minor: nat, tail: seq<byte>)
    requires cfg.formats == STANDARD_FORMATS && (major, minor) in STANDARD_FORMATS && |headers| == 12
    requires last < |history| && Is(history[last], RING_FORMAT)
    requires history[last].item.bytes == FormatItem(source, headers, major, minor, tail)
    requires forall i :: last < i < |history| ==> !SetsHelper(history[i])
    ensures var after, written := Play(cfg, info, history).info, STANDARD_FORMATS[(major, minor)];
            HelperUsed(after.currentHelper, after.defaultHelper) == written <==>
              source == history[last].t.host || HelperUsed(None, info.defaultHelper) == written
  {
    hide FormatItem, Play;
    var host := history[last].t.host;
    HelperOfHistory(cfg, info, history, last);
    VersionAsWritten(cfg.lib, host, source, headers, major, minor, tail);
    if source != host {
      SwappedVersionUnknown(cfg.lib, host, source, headers, major, minor, tail);
    }
  }

  function PhysicsItems(history: seq<Input>): seq<seq<byte>> {
    if history == [] then []
    else PhysicsItems(history[..|history| - 1]) +
         if Is(history[|history| - 1], PHYSICS_EVENT) then [history[|history| - 1].item.bytes] else []
  }

  /** The items shown to the analyzer by the physics calls of a trace. */
  function PhysicsShown(calls: seq<Delivery>): seq<Option<seq<byte>>> {
    if calls == [] then []
    else PhysicsShown(calls[..|calls| - 1]) +
         if calls[|calls| - 1].call == OnPhysics then [calls[|calls| - 1].seen.ringItem] else []
  }

  lemma {:induction false} PhysicsShownAppend(a: seq<Delivery>, b: seq<Delivery>)
    ensures PhysicsShown(a + b) == PhysicsShown(a) + PhysicsShown(b)
    decreases |b|
  {
    if b == [] {
      assert a + b == a;
    } else {
      assert (a + b)[..|a + b| - 1] == a + b[..|b| - 1];
      PhysicsShownAppend(a, b[..|b| - 1]);
    }
  }

  /** The analyzer gets one physics call per physics item, in stream order, and during each
      the decoder shows that item. */
  lemma {:induction false} PhysicsInOrder(cfg: Config, info: Info, history: seq<Input>)
    ensures var shown, sent := PhysicsShown(Play(cfg, info, history).calls), PhysicsItems(history);
            |shown| == |sent| && forall i :: 0 <= i < |sent| ==> shown[i] == Some(sent[i])
  {
    hide Step, PhysicsShown;
    if history == [] {
      NothingShown();
    } else {
      var init, next := history[..|history| - 1], history[|history| - 1];
      PhysicsInOrder(cfg, info, init);
      var before := Play(cfg, info, init);
      var last := Step(cfg, before.info, next);
      PhysicsShownAppend(before.calls, last.calls);
      ShownByOne(cfg, before.info, next);
      assert Play(cfg, info, history).calls == before.calls + last.calls;
    }
  }

  lemma NothingShown()
    ensures PhysicsShown([]) == []
  {
  }

  lemma ShownByOne(cfg: Config, info: Info, input: Input)
    ensures PhysicsShown(Step(cfg, info, input).calls)
         == if Is(input, PHYSICS_EVENT) then [Some(input.item.bytes)] else []
  {
    var calls := Step(cfg, info, input).calls;
    if |calls| == 2 {
      assert calls == [calls[0]] + [calls[1]];
      PhysicsShownAppend([calls[0]], [calls[1]]);
    }
  }

  function Arrivals(t: Translator, items: seq<Item>): seq<Input> {
    seq(|items|, i requires 0 <= i < |items| => Arrive(t, items[i]))
  }

  /** Dispatching a list of items is playing the history of their arrivals. */
  lemma {:induction false} DispatchAllIsPlay(cfg: Config, t: Translator, info: Info, items: seq<Item>)
    ensures DispatchAll(cfg, t, info, items) == Play(cfg, info, Arrivals(t, items))
    decreases |items|
  {
    if items != [] {
      var n := |items|;
      assert items == items[..n - 1] + [items[n - 1]];
      DispatchAllAppend(cfg, t, info, items[..n - 1], [items[n - 1]]);
      DispatchAllIsPlay(cfg, t, info, items[..n - 1]);
      assert Arrivals(t, items)[..n - 1] == Arrivals(t, items[..n - 1]);
      var before := DispatchAll(cfg, t, info, items[..n - 1]);
      DispatchOne(cfg, t, before.info, items[n - 1]);
    }
  }
}
