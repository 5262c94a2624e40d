/** What OnPhysics does with one physics body, as functions: which events are unpacked, at
    which offsets, and how they are batched (main/Core/Analyzer.cpp:142-294). */
module EventBatches {
  import opened Sequences

  /** What the user's OnEvent reports: bytes used, whether it rejected the event, and whether
      it said that the entity holds more events. */
  datatype Outcome = Outcome(size: nat, abort: bool, partial: bool)

  /** One call of OnEvent: its number in this body and the offset it was given. */
  datatype Fill = Fill(call: nat, offset: nat)

  datatype Ending = Finished | OffEnd | NoBody | Failed

  datatype Trace = Trace(calls: seq<Fill>, ending: Ending)

  /** Size zero for a whole entity: the loop throws. */
  predicate Zero(o: Outcome) {
    o.size == 0 && !o.partial
  }

  /** Partial entities of size zero do not go on for ever: `patience` bounds each stretch. */
  ghost predicate Patient(script: nat -> Outcome, patience: nat -> nat) {
    forall k: nat {:trigger script(k)} :: script(k).partial && script(k).size == 0 ==> patience(k + 1) < patience(k)
  }

  /** Calls from call `k` on, with `entities` left and the offset at `offset`. */
  ghost function Calls(script: nat -> Outcome, patience: nat -> nat, body: nat, entities: nat,
      k: nat, offset: nat): Trace
    requires Patient(script, patience)
    decreases entities, if offset < body then body - offset else 0, patience(k)
  {
    if entities == 0 then Trace([], Finished)
    else if body <= offset then Trace([], if offset == 0 && body == 0 then NoBody else OffEnd)
    else
      var o := script(k);
      if Zero(o) then Trace([Fill(k, offset)], Failed)
      else
        var left := if o.partial then entities else entities - 1;
        var later := Calls(script, patience, body, left, k + 1, offset + o.size);
        later.(calls := [Fill(k, offset)] + later.calls)
  }

  lemma CallsNext(script: nat -> Outcome, patience: nat -> nat, body: nat, entities: nat,
      k: nat, offset: nat, done: seq<Fill>)
    requires Patient(script, patience) && entities != 0 && offset < body
    ensures var o, now := script(k), Calls(script, patience, body, entities, k, offset);
            if Zero(o) then now.ending == Failed && done + now.calls == done + [Fill(k, offset)]
            else
              var left := if o.partial then entities else entities - 1;
              var later := Calls(script, patience, body, left, k + 1, offset + o.size);
              now.ending == later.ending && done + now.calls == done + [Fill(k, offset)] + later.calls
  {
  }

  lemma CallsStop(script: nat -> Outcome, patience: nat -> nat, body: nat, entities: nat,
      k: nat, offset: nat, done: seq<Fill>)
    requires Patient(script, patience) && (entities == 0 || body <= offset)
    ensures var now := Calls(script, patience, body, entities, k, offset);
            done + now.calls == done
            && now.ending == if entities == 0 then Finished else if offset == 0 && body == 0 then NoBody else OffEnd
  {
  }

  /** Batches handed to the event sinks, and events held for the next one. */
  datatype Batching = Batching(batches: seq<seq<Fill>>, held: seq<Fill>)

  /** Keep an event unless it was rejected, then flush if the threshold is reached. */
  function Collect1(script: nat -> Outcome, threshold: nat, st: Batching, c: Fill): Batching {
    var held := if script(c.call).abort then st.held else st.held + [c];
    if |held| >= threshold then Batching(st.batches + [held], []) else Batching(st.batches, held)
  }

  function Collect(script: nat -> Outcome, threshold: nat, calls: seq<Fill>): Batching {
    if calls == [] then Batching([], [])
    else Collect1(script, threshold, Collect(script, threshold, calls[..|calls| - 1]), calls[|calls| - 1])
  }

  /** The calls whose events get as far as the threshold test. */
  function Completed(tr: Trace): seq<Fill>
    requires tr.ending == Failed ==> tr.calls != []
  {
    if tr.ending == Failed then tr.calls[..|tr.calls| - 1] else tr.calls
  }

  /** Running off the end dumps the list even when it is empty; finishing does not. */
  function Sent(script: nat -> Outcome, threshold: nat, tr: Trace): seq<seq<Fill>>
    requires tr.ending == Failed ==> tr.calls != []
  {
    var st := Collect(script, threshold, Completed(tr));
    if tr.ending == OffEnd || (tr.ending == Finished && st.held != []) then st.batches + [st.held] else st.batches
  }

  lemma SentAfter(script: nat -> Outcome, threshold: nat, tr: Trace, done: seq<Fill>, failing: seq<Fill>)
    requires tr.calls == done + failing && |failing| == if tr.ending == Failed then 1 else 0
    ensures var st := Collect(script, threshold, done);
            Sent(script, threshold, tr)
              == if tr.ending == OffEnd || (tr.ending == Finished && st.held != []) then st.batches + [st.held]
                 else st.batches
  {
    assert tr.ending == Failed ==> tr.calls[..|tr.calls| - 1] == done;
    assert tr.ending != Failed ==> tr.calls == done;
  }

  function Kept(script: nat -> Outcome, calls: seq<Fill>): seq<Fill> {
    if calls == [] then []
    else Kept(script, calls[..|calls| - 1]) +
         if script(calls[|calls| - 1].call).abort then [] else [calls[|calls| - 1]]
  }

  function AcceptedTest(script: nat -> Outcome, calls: seq<Fill>): nat -> bool {
    (k: nat) => k < |calls| && !script(calls[k].call).abort
  }

  /** The events kept are those that were not rejected, in the order of their calls. */
  lemma {:induction false} KeptExact(script: nat -> Outcome, calls: seq<Fill>) returns (at: seq<nat>)
    ensures Selects(at, |calls|, AcceptedTest(script, calls)) && |Kept(script, calls)| == |at|
    ensures forall k :: 0 <= k < |at| ==> at[k] < |calls| && Kept(script, calls)[k] == calls[at[k]]
  {
    hide Selects;
    at := [];
    if calls == [] {
      SelectsNone(AcceptedTest(script, calls));
    } else {
      var n := |calls| - 1;
      var before := KeptExact(script, calls[..n]);
      SelectsSame(before, n, AcceptedTest(script, calls[..n]), AcceptedTest(script, calls));
      SelectsMore(before, n, AcceptedTest(script, calls));
      at := if AcceptedTest(script, calls)(n) then before + [n] else before;
    }
  }

  function Max1(threshold: nat): nat {
    if threshold == 0 then 1 else threshold
  }

  /** `st` holds the events `kept`, in batches of the right size. */
  ghost predicate Batched(threshold: nat, st: Batching, kept: seq<Fill>) {
    && Flatten(st.batches) + st.held == kept
    && |st.held| < Max1(threshold)
    && (forall i :: 0 <= i < |st.batches| ==> |st.batches[i]| <= Max1(threshold))
    && (0 < threshold ==> forall i :: 0 <= i < |st.batches| ==> |st.batches[i]| == threshold)
  }

  lemma Collect1Batched(script: nat -> Outcome, threshold: nat, st: Batching, kept: seq<Fill>, c: Fill)
    requires Batched(threshold, st, kept)
    ensures Batched(threshold, Collect1(script, threshold, st, c), kept + if script(c.call).abort then [] else [c])
  {
    hide Flatten;
    var held := if script(c.call).abort then st.held else st.held + [c];
    FlattenMore(st.batches, held);
    assert kept + (if script(c.call).abort then [] else [c]) == Flatten(st.batches) + held;
    assert Flatten(st.batches) + held == Flatten(st.batches) + held + [];
  }

  lemma {:induction false} CollectBatched(script: nat -> Outcome, threshold: nat, calls: seq<Fill>)
    ensures Batched(threshold, Collect(script, threshold, calls), Kept(script, calls))
  {
    hide Collect1;
    if calls != [] {
      var n := |calls|;
      CollectBatched(script, threshold, calls[..n - 1]);
      var init := calls[..n - 1];
      Collect1Batched(script, threshold, Collect(script, threshold, init), Kept(script, init), calls[n - 1]);
    }
  }

  /** The batches sent for a body, one after another, are exactly the accepted events in the
      order they were unpacked. For a positive threshold every batch but the last has exactly
      that many events; for threshold zero a batch has at most one. */
  lemma SentIsKept(script: nat -> Outcome, threshold: nat, tr: Trace)
    requires tr.ending == Finished || tr.ending == OffEnd
    ensures var sent := Sent(script, threshold, tr);
            && Flatten(sent) == Kept(script, tr.calls)
            && (forall i :: 0 <= i < |sent| ==> |sent[i]| <= Max1(threshold))
            && (0 < threshold ==> forall i :: 0 <= i < |sent| - 1 ==> |sent[i]| == threshold)
            && (0 < threshold && tr.ending == Finished ==> forall i :: 0 <= i < |sent| ==> sent[i] != [])
            && (0 < threshold && tr.ending == OffEnd ==> sent != [] && |sent[|sent| - 1]| < threshold)
  {
    hide Collect, Flatten, Kept;
    CollectBatched(script, threshold, tr.calls);
    var st := Collect(script, threshold, tr.calls);
    FlattenMore(st.batches, st.held);
  }

  /** After a failure only full batches have been sent: the accepted events before it, but for
      those that had not filled a batch. Without a body nothing is sent. */
  lemma SentOnFailure(script: nat -> Outcome, threshold: nat, tr: Trace)
    requires tr.ending == Failed ==> tr.calls != []
    ensures tr.ending == Failed ==>
              var sent, kept := Sent(script, threshold, tr), Kept(script, tr.calls[..|tr.calls| - 1]);
              && Flatten(sent) <= kept && |kept| - |Flatten(sent)| < Max1(threshold)
              && (0 < threshold ==> forall i :: 0 <= i < |sent| ==> |sent[i]| == threshold)
    ensures tr.ending == NoBody && tr.calls == [] ==> Sent(script, threshold, tr) == []
  {
    hide Flatten, Kept;
    if tr.ending == Failed {
      CollectBatched(script, threshold, tr.calls[..|tr.calls| - 1]);
    }
  }

  /** With threshold zero an accepted event is a batch of its own, and a rejected one still
      sends an empty batch. */
  lemma {:induction false} ThresholdZero(script: nat -> Outcome, calls: seq<Fill>)
    ensures var st := Collect(script, 0, calls);
            && |st.batches| == |calls| && st.held == []
            && forall i :: 0 <= i < |calls| ==>
                 st.batches[i] == if script(calls[i].call).abort then [] else [calls[i]]
  {
    if calls != [] {
      ThresholdZero(script, calls[..|calls| - 1]);
    }
  }

  function SumSizes(script: nat -> Outcome, n: nat): nat {
    if n == 0 then 0 else SumSizes(script, n - 1) + script(n - 1).size
  }

  function WholeEntities(script: nat -> Outcome, n: nat): nat {
    if n == 0 then 0 else WholeEntities(script, n - 1) + if script(n - 1).partial then 0 else 1
  }

  /** A trace that starts at call `k` with the sizes so far added up. */
  ghost predicate WellPlaced(script: nat -> Outcome, body: nat, k: nat, calls: seq<Fill>) {
    forall i :: 0 <= i < |calls| ==>
      calls[i] == Fill(k + i, SumSizes(script, k + i)) && SumSizes(script, k + i) < body
  }

  lemma {:induction false} CallsPlaced(script: nat -> Outcome, patience: nat -> nat, body: nat, entities: nat,
      k: nat, offset: nat)
    requires Patient(script, patience) && offset == SumSizes(script, k)
    ensures WellPlaced(script, body, k, Calls(script, patience, body, entities, k, offset).calls)
    decreases entities, if offset < body then body - offset else 0, patience(k)
  {
    if entities != 0 && offset < body && !Zero(script(k)) {
      hide WellPlaced;
      var o := script(k);
      var left := if o.partial then entities else entities - 1;
      CallsPlaced(script, patience, body, left, k + 1, offset + o.size);
      PlacedFirst(script, body, k, Calls(script, patience, body, left, k + 1, offset + o.size).calls);
    }
  }

  lemma PlacedFirst(script: nat -> Outcome, body: nat, k: nat, later: seq<Fill>)
    requires WellPlaced(script, body, k + 1, later) && SumSizes(script, k) < body
    ensures WellPlaced(script, body, k, [Fill(k, SumSizes(script, k))] + later)
  {
    hide SumSizes;
    forall i | 0 < i < 1 + |later|
      ensures ([Fill(k, SumSizes(script, k))] + later)[i] == Fill(k + i, SumSizes(script, k + i))
      ensures SumSizes(script, k + i) < body
    {
      assert later[i - 1] == Fill(k + 1 + (i - 1), SumSizes(script, k + 1 + (i - 1)));
    }
  }

  /** How a trace of `m - k` calls from call `k` on ended. */
  ghost predicate EndedRight(script: nat -> Outcome, body: nat, entities: nat, k: nat, m: nat, ending: Ending) {
    var whole := WholeEntities(script, m) - WholeEntities(script, k);
    match ending
    case Finished => whole == entities
    case OffEnd => whole < entities && body <= SumSizes(script, m)
    case NoBody => body == 0 && k == m && entities > 0
    case Failed => k < m && Zero(script(m - 1))
  }

  lemma {:induction false} CallsEnd(script: nat -> Outcome, patience: nat -> nat, body: nat, entities: nat,
      k: nat, offset: nat)
    requires Patient(script, patience) && offset == SumSizes(script, k)
    ensures var tr := Calls(script, patience, body, entities, k, offset);
            && EndedRight(script, body, entities, k, k + |tr.calls|, tr.ending)
            && (tr.ending != Failed && tr.calls != [] ==> !Zero(script(k + |tr.calls| - 1)))
            && (k > 0 && 0 < body ==> tr.ending != NoBody)
    decreases entities, if offset < body then body - offset else 0, patience(k)
  {
    if entities != 0 && offset < body && !Zero(script(k)) {
      var o := script(k);
      CallsEnd(script, patience, body, if o.partial then entities else entities - 1, k + 1, offset + o.size);
    }
  }

  /** The events of a body: number i starts where the sizes of the earlier ones add up to,
      always before the end of the body. The loop finishes after exactly the announced number
      of whole entities, or stops with entities left because the offset reached the end, or
      fails at an event of size zero. */
  lemma CallsOfBody(script: nat -> Outcome, patience: nat -> nat, body: nat, entities: nat)
    requires Patient(script, patience)
    ensures var tr := Calls(script, patience, body, entities, 0, 0);
            && WellPlaced(script, body, 0, tr.calls)
            && EndedRight(script, body, entities, 0, |tr.calls|, tr.ending)
            && (tr.ending == Failed <==>
                  tr.calls != [] && script(|tr.calls| - 1).size == 0 && !script(|tr.calls| - 1).partial)
  {
    CallsPlaced(script, patience, body, entities, 0, 0);
    CallsEnd(script, patience, body, entities, 0, 0);
  }

  const ZERO_SIZE: nat -> Outcome := (k: nat) => Outcome(0, false, false)

  /** One entity whose unpacker reports size zero: the first call fails. */
  lemma ZeroSizeFails(patience: nat -> nat)
    ensures Patient(ZERO_SIZE, patience)
    ensures Calls(ZERO_SIZE, patience, 1, 1, 0, 0) == Trace([Fill(0, 0)], Failed)
  {
  }
}
