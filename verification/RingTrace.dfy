/** What the getters answer after a history of ring items, and the whole trace of calls that it
    makes (main/Core/CRingBufferDecoder.cpp:768-926, main/Utility/buftypes.h:45-54). */
module RingTraces {
  import opened Options
  import opened Bytes
  import opened BufferTranslators
  import opened RingStream
  import opened RingDispatch

  function After(cfg: Config, info: Info, history: seq<Input>): Info {
    Play(cfg, info, history).info
  }

  /** A history up to one of its inputs, that input, and the rest. */
  lemma PlayAround(cfg: Config, info: Info, history: seq<Input>, at: nat)
    requires at < |history|
    ensures var before, upTo := Play(cfg, info, history[..at]), Play(cfg, info, history[..at + 1]);
            var last := Step(cfg, before.info, history[at]);
            && upTo == Result(last.info, before.calls + last.calls)
            && Play(cfg, info, history)
               == Result(After(cfg, upTo.info, history[at + 1..]),
                         upTo.calls + Play(cfg, upTo.info, history[at + 1..]).calls)
  {
    hide Step;
    assert history == history[..at + 1] + history[at + 1..];
    assert history[..at + 1][..at] == history[..at];
    PlayAppend(cfg, info, history[..at + 1], history[at + 1..]);
  }

  // The run

  predicate SetsRun(input: Input) {
    input.Arrive? && input.item.itemType in {1, 2, 3, 4}
  }

  lemma {:induction false} RunKept(cfg: Config, info: Info, history: seq<Input>)
    requires forall i :: 0 <= i < |history| ==> !SetsRun(history[i])
    ensures After(cfg, info, history).runNumber == info.runNumber && After(cfg, info, history).title == info.title
  {
    if history != [] {
      RunKept(cfg, info, history[..|history| - 1]);
    }
  }

  /** Run number and title are those in the last state-change item. */
  lemma RunOfHistory(cfg: Config, info: Info, history: seq<Input>, last: nat)
    requires last < |history| && SetsRun(history[last])
    requires forall i :: last < i < |history| ==> !SetsRun(history[i])
    ensures var before, change := After(cfg, info, history[..last]), history[last];
            var h := HelperUsed(before.currentHelper, before.defaultHelper);
            && After(cfg, info, history).runNumber == cfg.lib.runNumber(h, change.t, change.item.bytes)
            && After(cfg, info, history).title == cfg.lib.title(h, change.item.bytes)
  {
    PlayAround(cfg, info, history, last);
    RunKept(cfg, After(cfg, info, history[..last + 1]), history[last + 1..]);
  }

  // The entity count

  predicate SetsEntities(input: Input) {
    input.Arrive? && input.item.itemType in {1, 2, 3, 4, 10, 11, 20, 30}
  }

  /** None in a change of state, one in a physics event, else as many as the item says. */
  function EntitiesIn(cfg: Config, h: Helper, input: Input): word
    requires SetsEntities(input)
  {
    var ty, bs := input.item.itemType, input.item.bytes;
    if ty < 10 then 0
    else if ty == 30 then 1
    else if ty == 20 then cfg.lib.scalerCount(h, input.t, bs)
    else cfg.lib.stringCount(h, input.t, bs)
  }

  lemma {:induction false} EntitiesKept(cfg: Config, info: Info, history: seq<Input>)
    requires forall i :: 0 <= i < |history| ==> !SetsEntities(history[i])
    ensures After(cfg, info, history).entityCount == info.entityCount
  {
    if history != [] {
      EntitiesKept(cfg, info, history[..|history| - 1]);
    }
  }

  /** The entity count is that of the last item that has one. */
  lemma EntityCountOfHistory(cfg: Config, info: Info, history: seq<Input>, last: nat)
    requires last < |history| && SetsEntities(history[last])
    requires forall i :: last < i < |history| ==> !SetsEntities(history[i])
    ensures var before := After(cfg, info, history[..last]);
            After(cfg, info, history).entityCount
              == EntitiesIn(cfg, HelperUsed(before.currentHelper, before.defaultHelper), history[last])
  {
    PlayAround(cfg, info, history, last);
    EntitiesKept(cfg, After(cfg, info, history[..last + 1]), history[last + 1..]);
  }

  // Type and body of the last item

  /** The buffer types by ring item type; others keep their number. */
  const BUFFER_TYPES: map<word, word> :=
    map[1 := 11, 2 := 12, 3 := 13, 4 := 14, 10 := 6, 11 := 5, 20 := 2, 30 := 1]

  function BufferType(itemType: word): word {
    if itemType in BUFFER_TYPES then BUFFER_TYPES[itemType] else itemType
  }

  /** The body is where the helper in use finds it, and offset and size make up the item. */
  predicate HasBody(cfg: Config, info: Info, item: Item) {
    && info.itemType == BufferType(item.itemType)
    && info.bodyOffset == cfg.lib.bodyOffset(HelperUsed(info.currentHelper, info.defaultHelper), item.bytes)
    && (info.bodyOffset + info.bodySize) % WORD_LIMIT == |item.bytes| % WORD_LIMIT
  }

  lemma SizeOfBody(total: nat, offset: nat)
    ensures (offset + (total - offset) % WORD_LIMIT) % WORD_LIMIT == total % WORD_LIMIT
  {
  }

  lemma StepHasBody(cfg: Config, info: Info, t: Translator, item: Item)
    ensures HasBody(cfg, Step(cfg, info, Arrive(t, item)).info, item)
  {
    var after := Step(cfg, info, Arrive(t, item)).info;
    SizeOfBody(|item.bytes|, after.bodyOffset);
  }

  lemma {:induction false} BodyKept(cfg: Config, info: Info, history: seq<Input>)
    requires forall i :: 0 <= i < |history| ==> history[i].Invalidate?
    ensures var after := After(cfg, info, history);
            after == info || after == info.(currentHelper := None)
  {
    if history != [] {
      BodyKept(cfg, info, history[..|history| - 1]);
    }
  }

  /** Buffer type, body offset and body size are those of the last item, as the helper in use
      then found them. */
  lemma BodyOfHistory(cfg: Config, info: Info, history: seq<Input>, last: nat)
    requires last < |history| && history[last].Arrive?
    requires forall i :: last < i < |history| ==> history[i].Invalidate?
    ensures var found, now := After(cfg, info, history[..last + 1]), After(cfg, info, history);
            && HasBody(cfg, found, history[last].item)
            && now.itemType == found.itemType && now.bodyOffset == found.bodyOffset && now.bodySize == found.bodySize
            && now.ringItem == None
  {
    PlayAround(cfg, info, history, last);
    StepHasBody(cfg, After(cfg, info, history[..last]), history[last].t, history[last].item);
    BodyKept(cfg, After(cfg, info, history[..last + 1]), history[last + 1..]);
  }

  // The calls

  /** The calls for an item by its type: run hooks for the begin and the end of a run, then the
      analyzer's entry point with the buffer type. */
  function CallTable(itemType: word, run: word, title: string, handled: bool): seq<Call> {
    match itemType
    case 1 => [BeginRun(run, title), OnStateChange(11)]
    case 2 => [EndRun(run, title), OnStateChange(12)]
    case 3 => [OnStateChange(13)]
    case 4 => [OnStateChange(14)]
    case 10 => [OnOther(6)]
    case 11 => [OnOther(5)]
    case 20 => [OnScaler]
    case 30 => [OnPhysics]
    case 31 => [OnOther(31)]
    case _ => if handled then [] else [OnOther(itemType)]
  }

  function CallsIn(deliveries: seq<Delivery>): (calls: seq<Call>)
    ensures |calls| == |deliveries|
  {
    seq(|deliveries|, k requires 0 <= k < |deliveries| => deliveries[k].call)
  }

  predicate IsHook(call: Call) {
    call.BeginRun? || call.EndRun?
  }

  /** What the getters answer during a call for an item: what they will answer after the item,
      with the item shown; but during a run hook title, run number and entity count are still
      those before it. */
  predicate Answers(d: Delivery, before: Info, after: Info, bs: seq<byte>) {
    var shown := after.(ringItem := Some(bs));
    d.seen == if !IsHook(d.call) then shown
              else shown.(title := before.title, runNumber := before.runNumber, entityCount := before.entityCount)
  }

  /** The calls made for one input. */
  ghost predicate RightCalls(cfg: Config, before: Info, after: Info, input: Input, made: seq<Delivery>) {
    match input
    case Invalidate => made == []
    case Arrive(t, item) =>
      var h := HelperUsed(after.currentHelper, after.defaultHelper);
      && CallsIn(made) == CallTable(item.itemType, cfg.lib.runNumber(h, t, item.bytes), cfg.lib.title(h, item.bytes),
                                    cfg.lib.unrecognized(item.bytes))
      && HasBody(cfg, after, item)
      && forall d :: d in made ==> Answers(d, before, after, item.bytes)
  }

  lemma StepCallsRight(cfg: Config, info: Info, input: Input)
    ensures RightCalls(cfg, info, Step(cfg, info, input).info, input, Step(cfg, info, input).calls)
  {
    if input.Arrive? {
      StepHasBody(cfg, info, input.t, input.item);
    }
  }

  /** The trace of a history consists of the calls for each of its inputs, one after another,
      each with what the decoder answers while it lasts. */
  lemma CallsOfHistory(cfg: Config, info: Info, history: seq<Input>, at: nat)
    requires at < |history|
    ensures var before, upTo := Play(cfg, info, history[..at]), Play(cfg, info, history[..at + 1]);
            && before.calls <= upTo.calls <= Play(cfg, info, history).calls
            && RightCalls(cfg, before.info, upTo.info, history[at], upTo.calls[|before.calls|..])
  {
    hide Step, RightCalls;
    var before := Play(cfg, info, history[..at]);
    PlayAround(cfg, info, history, at);
    StepCallsRight(cfg, before.info, history[at]);
  }

  /** Whenever the analyzer is called for a physics event there is one entity to unpack. */
  lemma {:induction false} OneEntityPerPhysicsCall(cfg: Config, info: Info, history: seq<Input>)
    ensures forall d :: d in Play(cfg, info, history).calls && d.call == OnPhysics ==> d.seen.entityCount == 1
  {
    if history != [] {
      OneEntityPerPhysicsCall(cfg, info, history[..|history| - 1]);
    }
  }
}
