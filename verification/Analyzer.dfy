/** The analyzer's event list and event pool (main/Core/Analyzer.h, main/Core/Analyzer.cpp). */
module Analyzers {
  import opened Options
  import opened EventBatches

  /** An event object; what OnEvent unpacked into it is named by the call. */
  class Event {
    var filled: Option<Fill>

    constructor ()
      ensures filled == None
    {
      filled := None;
    }

    method Clear()
      modifies this
      ensures filled == None
    {
      filled := None;
    }
  }

  const EXPAND_SIZE := 512

  /** The events in the pool; a new pool holds a single null and no event. */
  ghost function Pooled(pool: seq<Event?>): multiset<Event?> {
    if pool == [null] then multiset{} else multiset(pool)
  }

  lemma PopPool(pool: seq<Event?>, held: multiset<Event?>, live: set<Event?>)
    requires pool != [] && null !in live && Pooled(pool) + held == multiset(live)
    ensures var last, rest := pool[|pool| - 1], pool[..|pool| - 1];
            if last == null then pool == [null] && held == multiset(live)
            else && last in live && last !in held && rest != [null]
                 && Pooled(rest) + held + multiset{last} == multiset(live)
  {
    var last, rest := pool[|pool| - 1], pool[..|pool| - 1];
    assert pool == rest + [last];
    assert null !in Pooled(pool) + held;
    if last != null {
      assert null !in multiset(rest);
      assert rest != [null];
      assert multiset(live)[last] == 1;
    }
  }

  lemma PushPool(pool: seq<Event?>, event: Event?)
    requires event != null && pool != [null]
    ensures pool + [event] != [null] && Pooled(pool + [event]) == Pooled(pool) + multiset{event}
  {
    assert (pool + [event])[|pool|] == event;
  }

  class Analyzer {
    const threshold: nat
    var eventList: seq<Event?>
    var eventPool: seq<Event?>

    /** What the event sinks have been handed so far, batch by batch. */
    var batches: seq<seq<Fill>>

    /** Events allocated and not freed. */
    ghost var live: set<Event?>

    /** The list starts with one null slot per event of a batch, the pool with one null. */
    constructor (threshold: nat)
      ensures this.threshold == threshold && Valid() && live == {} && batches == []
    {
      this.threshold := threshold;
      eventList := seq(threshold, _ => null);
      eventPool := [null];
      batches := [];
      live := {};
    }

    /** Every allocated event is in exactly one place: the pool, the first `n` slots of the
        list, or in flight between them. */
    ghost predicate Conserved(n: nat, inFlight: multiset<Event?>)
      reads this
    {
      && n <= |eventList|
      && (forall i :: n <= i < |eventList| ==> eventList[i] == null)
      && null !in live
      && Pooled(eventPool) + multiset(eventList[..n]) + inFlight == multiset(live)
    }

    /** Between calls the list is empty, and no more events exist than one batch holds. */
    ghost predicate Valid()
      reads this
    {
      Conserved(0, multiset{}) && |live| <= Max1(threshold)
    }

    /** The first slots of the list hold these events. */
    ghost predicate Holds(held: seq<Fill>)
      reads this, live
    {
      |held| <= |eventList| &&
      forall i :: 0 <= i < |held| ==>
        eventList[i] != null && eventList[i] in live && eventList[i].filled == Some(held[i])
    }

    /** Take an event from the back of the pool, or allocate one. */
    method CreateEvent(ghost n: nat) returns (event: Event)
      requires Conserved(n, multiset{}) && n < Max1(threshold) && |live| <= Max1(threshold)
      modifies `eventPool, `live, live
      ensures Conserved(n, multiset{event}) && |live| <= Max1(threshold)
      ensures event.filled == None && event in live && event !in eventList[..n] && eventPool != [null]
      ensures fresh(event) || event in old(live)
      ensures old(live) <= live <= old(live) + {event}
      ensures forall e :: e in old(live) && e != event ==> e.filled == old(e.filled)
    {
      ghost var pool, held := eventPool, multiset(eventList[..n]);
      var found: Event? := null;
      if |eventPool| != 0 {
        PopPool(pool, held, live);
        found := eventPool[|eventPool| - 1];
        eventPool := eventPool[..|eventPool| - 1];
      }
      if found != null {
        event := found;
        event.Clear();
      } else {
        assert held == multiset(live) && |held| == n;
        event := new Event();
        live := live + {event};
        assert multiset(live) == held + multiset{event};
      }
    }

    method ReturnEvent(event: Event)
      requires eventPool != [null]
      modifies `eventPool
      ensures eventPool == old(eventPool) + [event] && eventPool != [null] && event in eventPool
      ensures Pooled(eventPool) == Pooled(old(eventPool)) + multiset{event}
    {
      PushPool(eventPool, event);
      eventPool := eventPool + [event];
      assert eventPool[|eventPool| - 1] == event;
    }

    /** Store an event in a slot of the list, growing the list if it is too short. */
    method Put(n: nat, event: Event)
      requires n <= |eventList| && forall i :: n <= i < |eventList| ==> eventList[i] == null
      modifies `eventList
      ensures n < |eventList| && event in eventList && eventList[..n + 1] == old(eventList[..n]) + [event]
      ensures forall i :: n < i < |eventList| ==> eventList[i] == null
    {
      while |eventList| <= n
        invariant n <= |eventList| && eventList[..n] == old(eventList[..n])
        invariant forall i :: n <= i < |eventList| ==> eventList[i] == null
        decreases n + 1 - |eventList|
      {
        eventList := eventList + seq(EXPAND_SIZE, _ => null);
      }
      eventList := eventList[n := event];
      assert eventList[n] == event;
    }

    lemma ListedAreEvents(n: nat)
      requires Conserved(n, multiset{})
      ensures forall i :: 0 <= i < n ==> eventList[i] != null
    {
      forall i | 0 <= i < n ensures eventList[i] != null {
        assert eventList[..n][i] in multiset(live);
      }
    }

    /** Move every listed event to the pool and empty its slot. */
    method ClearEventList(ghost n: nat)
      requires Conserved(n, multiset{}) && (eventPool != [null] || n == 0)
      modifies `eventList, `eventPool
      ensures Conserved(0, multiset{}) && |eventList| == old(|eventList|)
      ensures eventPool != [null] || (n == 0 && old(eventPool) == [null])
    {
      hide Pooled;
      ListedAreEvents(n);
      ghost var list := eventList;
      ghost var total := Pooled(eventPool) + multiset(list[..n]);
      var p := 0;
      while p < |eventList|
        invariant 0 <= p <= |eventList| == |list|
        invariant forall i :: 0 <= i < p ==> eventList[i] == null
        invariant eventList[p..] == list[p..]
        invariant eventPool != [null] || (n == 0 && old(eventPool) == [null])
        invariant Pooled(eventPool) + multiset(list[if p < n then p else n..n]) == total
      {
        assert eventList[p] == eventList[p..][0];
        if eventList[p] != null {
          assert list[p..n] == [list[p]] + list[p + 1..n];
          ReturnEvent(eventList[p]);
          eventList := eventList[p := null];
        }
        p := p + 1;
      }
      assert list[n..n] == [] && eventList[..0] == [];
    }

    /** Hand the list to the event sinks, which read up to the first null. */
    method HistogramEvents(ghost held: seq<Fill>)
      requires Conserved(|held|, multiset{}) && Holds(held)
      modifies `batches
      ensures batches == old(batches) + [held]
    {
      var batch := [];
      var i := 0;
      while i < |eventList| && eventList[i] != null
        invariant 0 <= i <= |held| && batch == held[..i]
        decreases |held| - i
      {
        batch := batch + [eventList[i].filled.value];
        i := i + 1;
      }
      assert held[..i] == held;
      batches := batches + [batch];
    }

    /** The user's OnEvent: unpacks into the event and reports. */
    method OnEvent(event: Event, call: Fill, script: nat -> Outcome) returns (outcome: Outcome)
      modifies event
      ensures event.filled == Some(call) && outcome == script(call.call)
    {
      event.filled := Some(call);
      outcome := script(call.call);
    }

    /** An unpacked event goes behind those of the batch. */
    method Keep(n: nat, event: Event, call: Fill, ghost held: seq<Fill>)
      requires Conserved(n, multiset{event}) && Holds(held) && |held| == n
      requires event.filled == Some(call) && event in live && eventPool != [null]
      modifies `eventList
      ensures Conserved(n + 1, multiset{}) && Holds(held + [call]) && event in eventList
    {
      hide Pooled;
      Put(n, event);
      assert eventList[..n + 1][..n] == old(eventList[..n]);
      forall i | 0 <= i < n ensures eventList[i] == old(eventList[i]) {
        assert eventList[i] == eventList[..n + 1][..n][i];
      }
    }

    /** An aborted event goes to the pool. */
    method Return(ghost n: nat, event: Event)
      requires Conserved(n, multiset{event}) && eventPool != [null]
      modifies `eventPool
      ensures Conserved(n, multiset{}) && eventPool != [null] && event in eventPool
    {
      hide Pooled;
      ReturnEvent(event);
    }

    /** Unpack one event and keep it or return it. */
    method UnpackEvent(n: nat, call: Fill, script: nat -> Outcome, ghost held: seq<Fill>)
      returns (event: Event, outcome: Outcome)
      requires Conserved(n, multiset{}) && |live| <= Max1(threshold) && |held| == n < Max1(threshold)
      requires Holds(held)
      modifies `eventList, `eventPool, `live, live
      ensures outcome == script(call.call)
      ensures var held' := if outcome.abort then held else held + [call];
              && Conserved(|held'|, multiset{}) && Holds(held')
      ensures |live| <= Max1(threshold) && eventPool != [null] && null !in live
      ensures event in live && fresh(live - old(live))
      ensures event in eventList || event in eventPool
    {
      hide Pooled, Conserved;
      event := CreateEvent(n);
      outcome := OnEvent(event, call, script);
      assert Holds(held);
      if !outcome.abort {
        Keep(n, event, call, held);
      } else {
        Return(n, event);
      }
    }

    /** Hand over a full list, or leave it to grow. */
    method FlushIfFull(n: nat, ghost held: seq<Fill>) returns (n': nat)
      requires Conserved(n, multiset{}) && Holds(held) && |held| == n && eventPool != [null]
      modifies `eventList, `eventPool, `batches
      ensures eventPool != [null]
      ensures if n >= threshold then n' == 0 && Conserved(0, multiset{}) && batches == old(batches) + [held]
              else n' == n && Conserved(n, multiset{}) && Holds(held) && batches == old(batches)
    {
      n' := n;
      if n >= threshold {
        HistogramEvents(held);
        ClearEventList(n);
        n' := 0;
      }
    }

    /** Everything that holds between two passes of the loop over a body's events: the calls
        `done` were made, their batches sent, and the rest of the trace is still to come. */
    ghost predicate Underway(script: nat -> Outcome, before: seq<seq<Fill>>, done: seq<Fill>, n: nat)
      reads this, live
    {
      var st := Collect(script, threshold, done);
      && Conserved(n, multiset{}) && |live| <= Max1(threshold)
      && n == |st.held| < Max1(threshold) && Holds(st.held)
      && batches == before + st.batches
      && (eventPool != [null] || n == 0)
    }

    /** Some listed or pooled event has been deleted. */
    ghost predicate Dangling()
      reads this
    {
      (exists e <- eventList :: e != null && e !in live) || (exists e <- eventPool :: e != null && e !in live)
    }

    /** So conservation is lost exactly when the body ended in a failure. */
    lemma ValidIsNotDangling()
      requires Valid()
      ensures !Dangling()
    {
      assert eventList[..0] == [];
      forall e | e in eventPool && e != null ensures e in live {
        assert e in Pooled(eventPool);
        assert e in multiset(live);
      }
    }

    /** One pass of the loop. An event of size zero is deleted where it is. */
    method Pass(n: nat, call: Fill, script: nat -> Outcome, ghost before: seq<seq<Fill>>, ghost done: seq<Fill>)
      returns (n': nat, outcome: Outcome)
      requires Underway(script, before, done, n)
      modifies `eventList, `eventPool, `live, `batches, live
      ensures outcome == script(call.call) && fresh(live - old(live))
      ensures !Zero(outcome) ==> Underway(script, before, done + [call], n')
      ensures Zero(outcome) ==> batches == before + Collect(script, threshold, done).batches && Dangling()
    {
      hide Conserved;
      ghost var st := Collect(script, threshold, done);
      assert (done + [call])[..|done|] == done;
      n' := n;
      var event;
      event, outcome := UnpackEvent(n, call, script, st.held);
      if Zero(outcome) {
        live := live - {event};
        return;
      }
      if !outcome.abort {
        n' := n + 1;
      }
      ghost var held := if outcome.abort then st.held else st.held + [call];
      n' := FlushIfFull(n', held);
    }

    lemma Begin(script: nat -> Outcome)
      requires Valid()
      ensures Underway(script, batches, [], 0)
    {
      assert batches + [] == batches;
    }

    /** Empty the list into the pool, after handing it to the event sinks if asked to. */
    method Finish(n: nat, dump: bool, ghost script: nat -> Outcome, ghost before: seq<seq<Fill>>, ghost done: seq<Fill>)
      requires Underway(script, before, done, n)
      modifies `eventList, `eventPool, `batches
      ensures Valid()
      ensures var st := Collect(script, threshold, done);
              && n == |st.held|
              && batches == before + (if dump then st.batches + [st.held] else st.batches)
    {
      if dump {
        HistogramEvents(Collect(script, threshold, done).held);
      }
      ClearEventList(n);
    }

    /** Process one physics body. The event sinks get its batches; unless an event of size zero
        ended the loop, every event is back in the pool. In that case the event just deleted is
        still listed or pooled. */
    method OnPhysics(entities: nat, bodySize: nat, script: nat -> Outcome, ghost patience: nat -> nat)
      returns (ghost ending: Ending)
      requires Valid() && Patient(script, patience)
      modifies this, live
      ensures var tr := Calls(script, patience, bodySize, entities, 0, 0);
              ending == tr.ending && (tr.ending == Failed ==> tr.calls != [])
              && batches == old(batches) + Sent(script, threshold, tr)
      ensures ending != Failed ==> Valid()
      ensures ending == Failed ==> Dangling()
    {
      hide Calls, Collect, Sent, Underway, Dangling, Valid;
      var nEvents: nat, nEventNo: nat, nOffset: nat, k: nat := entities, 0, 0, 0;
      ghost var tr, done, before := Calls(script, patience, bodySize, entities, 0, 0), [], batches;
      Begin(script);
      while nEvents != 0
        invariant Underway(script, before, done, nEventNo) && fresh(live - old(live))
        invariant tr.calls == done + Calls(script, patience, bodySize, nEvents, k, nOffset).calls
        invariant tr.ending == Calls(script, patience, bodySize, nEvents, k, nOffset).ending
        decreases nEvents, if nOffset < bodySize then bodySize - nOffset else 0, patience(k)
      {
        if nOffset >= bodySize {
          CallsStop(script, patience, bodySize, nEvents, k, nOffset, done);
          SentAfter(script, threshold, tr, done, []);
          Finish(nEventNo, !(nOffset == 0 && bodySize == 0), script, before, done);
          return tr.ending;
        }
        CallsNext(script, patience, bodySize, nEvents, k, nOffset, done);
        var outcome;
        nEventNo, outcome := Pass(nEventNo, Fill(k, nOffset), script, before, done);
        if Zero(outcome) {
          SentAfter(script, threshold, tr, done, [Fill(k, nOffset)]);
          return Failed;
        }
        if !outcome.partial {
          nEvents := nEvents - 1;
        }
        done := done + [Fill(k, nOffset)];
        k := k + 1;
        nOffset := nOffset + outcome.size;
      }
      CallsStop(script, patience, bodySize, nEvents, k, nOffset, done);
      SentAfter(script, threshold, tr, done, []);
      Finish(nEventNo, nEventNo != 0, script, before, done);
      ending := Finished;
    }
  }
}
