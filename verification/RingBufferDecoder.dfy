/** The ring buffer decoder: buffers in, analyzer calls out
    (main/Core/CRingBufferDecoder.cpp). */
module RingBufferDecoders {
  import opened Options
  import opened Bytes
  import opened Sequences
  import opened BufferTranslators
  import opened RingStream
  import opened RingDispatch

  class RingBufferDecoder {
    const host: ByteOrder
    const cfg: Config

    // The buffer being processed, as a cursor into it or into the glued buffer.
    var cursorIn: array?<byte>
    var cursor: nat
    var residual: nat

    // An item whose header is known, under assembly.
    var partialEvent: array?<byte>
    var partialEventSize: nat
    var partialEventBytes: nat

    // The last few bytes of a buffer, too few to trust a size.
    var gluedBuffer: array?<byte>
    var glueSize: nat

    var translator: Option<Translator>

    // What the getters answer about the current item.
    var title: string
    var runNumber: word
    var bodyOffset: nat
    var bodySize: word
    var currentItemType: word
    var entityCount: word
    var triggerCount: word
    var currentHelper: Option<Helper>
    var defaultHelper: Option<Helper>
    var currentRingItem: Option<seq<byte>>

    /** Every call made on the run hooks and the analyzer so far. */
    var calls: seq<Delivery>

    constructor (host: ByteOrder, cfg: Config)
      ensures this.host == host && this.cfg == cfg
      ensures Valid() && Carry() == [] && translator == None && calls == []
      ensures currentHelper == None && defaultHelper == None
      ensures runNumber == 0 && entityCount == 0 && triggerCount == 0
    {
      this.host, this.cfg := host, cfg;
      cursorIn, cursor, residual := null, 0, 0;
      partialEvent, partialEventSize, partialEventBytes := null, 0, 0;
      gluedBuffer, glueSize := null, 0;
      translator := None;
      title, runNumber, bodyOffset, bodySize := "", 0, 0, 0;
      currentItemType, entityCount, triggerCount := 0, 0, 0;
      currentHelper, defaultHelper, currentRingItem := None, None, None;
      calls := [];
    }

    /** The state between buffers: nothing is pending, or a partial event holds more than a
        header and less than its item, or a glued buffer holds 1 to 8 bytes. */
    ghost predicate Valid()
      reads this, partialEvent, gluedBuffer
    {
      && (translator.Some? ==> translator.value.host == host)
      && (partialEvent != null ==>
            && gluedBuffer == null
            && translator.Some?
            && HEADER_SIZE < partialEventBytes < partialEventSize == partialEvent.Length
            && SizeOf(translator.value, partialEvent[..partialEventBytes]) == partialEventSize)
      && (gluedBuffer != null ==>
            && translator.Some?
            && 1 <= glueSize <= HEADER_SIZE
            && gluedBuffer.Length == glueSize)
    }

    /** The bytes kept for the next buffer. */
    ghost function Carry(): seq<byte>
      reads this, partialEvent, gluedBuffer
      requires Valid()
    {
      if partialEvent != null then partialEvent[..partialEventBytes]
      else if gluedBuffer != null then gluedBuffer[..]
      else []
    }

    ghost function CurrentTranslator(): Translator
      reads this
    {
      if translator.Some? then translator.value else Translator(NonSwapping, host)
    }

    ghost function Statistics(): Info
      reads this
    {
      Info(currentHelper, defaultHelper, title, runNumber, currentItemType, entityCount, triggerCount,
           bodyOffset, bodySize, currentRingItem)
    }

    ghost predicate CursorValid()
      reads this
    {
      if cursorIn == null then residual == 0 else cursor + residual <= cursorIn.Length
    }

    /** The bytes between the cursor and the end of the data. */
    ghost function Left(): seq<byte>
      reads this, cursorIn
      requires CursorValid()
    {
      if cursorIn == null then [] else cursorIn[cursor..cursor + residual]
    }

    /** A buffer arrives. The result is false when the program exits on a size of zero. */
    method OnBuffer(buffer: array<byte>, nBytes: nat) returns (ok: bool)
      requires Valid() && nBytes <= buffer.Length && nBytes + HEADER_SIZE < WORD_LIMIT
      requires buffer != partialEvent
      requires CanDeliver(Carry(), buffer[..nBytes])
      modifies this, partialEvent
      ensures var st := Carried(old(CurrentTranslator()), old(Carry()));
              var chunk := old(buffer[..nBytes]);
              var t, o := TranslatorFor(st, chunk), Deliver(st, chunk);
              var r := DispatchAll(cfg, t, old(Statistics()), o.items);
              && ok == !o.failed
              && Statistics() == r.info && calls == old(calls) + r.calls
              && (ok ==> Valid() && translator == Some(t) && Carry() == o.rest)
      ensures partialEvent == null || partialEvent == old(partialEvent) || fresh(partialEvent)
    {
      hide Dispatch, DispatchAll, TranslatorFor, Parse;
      cursorIn, cursor, residual := buffer, 0, nBytes;
      ChooseTranslator(buffer, nBytes);
      ok := ProcessBuffer(buffer, nBytes);
    }

    /** At an item boundary the data may be of another byte order. */
    method ChooseTranslator(buffer: array<byte>, nBytes: nat)
      requires Valid() && nBytes <= buffer.Length && CanDeliver(Carry(), buffer[..nBytes])
      modifies `translator
      ensures Valid() && Carry() == old(Carry())
      ensures translator == Some(TranslatorFor(Carried(old(CurrentTranslator()), Carry()), buffer[..nBytes]))
    {
      hide WordAt, Detect;
      if partialEvent == null && gluedBuffer == null {
        CreateTranslator(buffer, 0);
        ghost var chunk := buffer[..nBytes];
        assert buffer[0..] == chunk + buffer[nBytes..];
        PrefixReads(DetectAt(host, chunk), chunk, buffer[nBytes..]);
      }
    }

    /** Choose the translator from the type of the item at an address. */
    method CreateTranslator(p: array<byte>, at: nat)
      requires at + HEADER_SIZE <= p.Length
      modifies `translator
      ensures translator == Some(DetectAt(host, p[at..]))
    {
      var rawType := WordAt(host, p[at + 4..at + 8]);
      assert p[at..][4..][..4] == p[at + 4..at + 8];
      translator := Some(Translator(Detect(host, rawType), host));
    }

    /** The translated size in the header at an address; `s` is what lies there. */
    method ReadSize(p: array<byte>, at: nat, ghost s: seq<byte>) returns (size: word)
      requires translator.Some? && translator.value.host == host
      requires HEADER_SIZE <= |s| && at + |s| <= p.Length && s == p[at..at + |s|]
      ensures size == SizeOf(translator.value, s)
    {
      assert p[at..at + 4] == s[..4];
      TranslateReads(translator.value, p[at..at + 4]);
      size := Translate(translator.value.kind, host, WordAt(host, p[at..at + 4]));
    }

    method ReadType(p: array<byte>, at: nat, ghost s: seq<byte>) returns (itemType: word)
      requires translator.Some? && translator.value.host == host
      requires HEADER_SIZE <= |s| && at + |s| <= p.Length && s == p[at..at + |s|]
      ensures itemType == TypeOf(translator.value, s)
    {
      assert forall k {:trigger s[k]} :: 4 <= k < 8 ==> p[at + k] == s[k];
      assert p[at + 4..at + 8] == s[4..8];
      TranslateReads(translator.value, p[at + 4..at + 8]);
      itemType := Translate(translator.value.kind, host, WordAt(host, p[at + 4..at + 8]));
    }

    /** Part way through a buffer: `done` has been dispatched, and parsing what is left (or
        what is now carried) gives the remainder of the parse of `start`. */
    ghost predicate Progress(t: Translator, start: seq<byte>, done: seq<Item>)
      reads this, cursorIn, partialEvent, gluedBuffer
    {
      && CursorValid() && translator == Some(t) && t.host == host
      && (residual > 0 ==> partialEvent == null && (gluedBuffer != null ==> cursorIn == gluedBuffer))
      && (residual == 0 ==> Valid())
      && Parse(t, start) == Prepend(done, if residual > 0 then Parse(t, Left()) else Outcome([], Carry(), false))
    }

    /** The dispatches of `done` took the statistics and the call trace here. */
    ghost predicate Played(t: Translator, info: Info, before: seq<Delivery>, done: seq<Item>)
      reads this
    {
      var r := DispatchAll(cfg, t, info, done);
      Statistics() == r.info && calls == before + r.calls
    }

    method ProcessBuffer(buffer: array<byte>, nBytes: nat) returns (ok: bool)
      requires Valid() && translator.Some?
      requires nBytes <= buffer.Length && nBytes + HEADER_SIZE < WORD_LIMIT
      requires buffer != partialEvent
      requires cursorIn == buffer && cursor == 0 && residual == nBytes
      modifies this, partialEvent
      ensures var t, o := old(translator.value), Parse(old(translator.value), old(Carry() + buffer[..nBytes]));
              && ok == !o.failed
              && Played(t, old(Statistics()), old(calls), o.items)
              && (ok ==> Valid() && translator == Some(t) && Carry() == o.rest)
      ensures partialEvent == null || partialEvent == old(partialEvent) || fresh(partialEvent)
    {
      ghost var t, start, done := translator.value, Carry() + buffer[..nBytes], [];
      ghost var info, before := Statistics(), calls;
      assert before + [] == before;
      if partialEvent != null {
        done := ContinuePartial(buffer, nBytes);
      } else if gluedBuffer != null {
        GlueBuffer(buffer, nBytes);
        assert Left() == start;
      } else {
        assert Left() == start;
      }
      ok, done := ConsumeBuffer(t, start, done, info, before);
    }

    /** Copy into the partial event what it still needs, or all there is. */
    method AppendToPartial(buffer: array<byte>, nBytes: nat)
      requires partialEvent != null && buffer != partialEvent && nBytes <= buffer.Length
      requires partialEventBytes < partialEventSize == partialEvent.Length
      requires cursorIn == buffer && cursor == 0 && residual == nBytes
      modifies `partialEventBytes, `residual, `cursor, partialEvent
      ensures cursor == if nBytes >= partialEventSize - old(partialEventBytes)
                        then partialEventSize - old(partialEventBytes) else nBytes
      ensures partialEventBytes == old(partialEventBytes) + cursor && residual == nBytes - cursor
      ensures partialEvent[..partialEventBytes] == old(partialEvent[..partialEventBytes]) + buffer[..cursor]
      ensures CursorValid() && partialEvent[..partialEventBytes] + Left()
                                 == old(partialEvent[..partialEventBytes]) + buffer[..nBytes]
    {
      var remaining := partialEventSize - partialEventBytes;
      var append := if nBytes >= remaining then remaining else nBytes;
      forall i | 0 <= i < append {
        partialEvent[partialEventBytes + i] := buffer[cursor + i];
      }
      partialEventBytes := partialEventBytes + append;
      residual := residual - append;
      cursor := cursor + append;
    }

    /** Work on the partial event first; dispatch it once it is whole. */
    method ContinuePartial(buffer: array<byte>, nBytes: nat) returns (ghost done: seq<Item>)
      requires Valid() && partialEvent != null && buffer != partialEvent
      requires nBytes <= buffer.Length && cursorIn == buffer && cursor == 0 && residual == nBytes
      modifies this, partialEvent
      ensures gluedBuffer == null && (partialEvent == null || partialEvent == old(partialEvent))
      ensures Progress(old(translator.value), old(Carry() + buffer[..nBytes]), done)
      ensures Played(old(translator.value), old(Statistics()), old(calls), done)
    {
      hide Dispatch, DispatchAll, SizeOf, TypeOf, Parse;
      ghost var t, chunk, start := translator.value, buffer[..nBytes], Carry() + buffer[..nBytes];
      PrefixReads(t, Carry(), chunk);
      AppendToPartial(buffer, nBytes);
      done := [];
      if partialEventSize <= partialEventBytes {
        assert partialEvent[..] == partialEvent[..partialEventBytes];
        done := FinishPartial(t, Left());
      } else {
        DispatchNone(cfg, t, Statistics(), calls);
        assert partialEvent[..partialEventBytes] == start by { assert Left() == []; }
        ParseResting(t, start);
        assert Prepend([], Outcome([], start, false)) == Outcome([], start, false);
      }
    }

    /** Dispatch a partial event that is whole. */
    method FinishPartial(ghost t: Translator, ghost left: seq<byte>) returns (ghost done: seq<Item>)
      requires translator == Some(t) && t.host == host && CursorValid() && left == Left()
      requires partialEvent != null && partialEvent != cursorIn && gluedBuffer == null
      requires HEADER_SIZE < partialEvent.Length == SizeOf(t, partialEvent[..] + left)
      modifies this
      ensures gluedBuffer == null && partialEvent == null
      ensures Progress(t, old(partialEvent[..]) + left, done)
      ensures Played(t, old(Statistics()), old(calls), done)
    {
      hide Dispatch, DispatchAll, SizeOf, TypeOf, Parse;
      ghost var whole := partialEvent[..];
      PrefixReads(t, whole, left);
      ParseCompleted(t, whole, left);
      done := [Item(TypeOf(t, whole), whole)];
      DispatchOne(cfg, t, Statistics(), done[0]);
      DispatchPartialEvent();
      ParseResting(t, []);
    }

    /** Put the new buffer behind the glued bytes and process from there. */
    method GlueBuffer(buffer: array<byte>, nBytes: nat)
      requires Valid() && gluedBuffer != null && nBytes <= buffer.Length
      modifies `gluedBuffer, `residual, `cursorIn, `cursor
      ensures gluedBuffer != null && cursorIn == gluedBuffer && CursorValid()
      ensures residual == glueSize + nBytes
      ensures Left() == old(Carry() + buffer[..nBytes])
    {
      var glued := gluedBuffer;
      var grown := new byte[glueSize + nBytes](i requires 0 <= i < glueSize + nBytes
                                                 reads this, glued, buffer =>
                                                 if i < glued.Length then glued[i]
                                                 else if i - glued.Length < buffer.Length then buffer[i - glued.Length]
                                                 else 0);
      gluedBuffer := grown;
      residual := glueSize + nBytes;
      cursorIn, cursor := gluedBuffer, 0;
    }

    /** Dispatch whole items from the cursor; keep what is left for the next buffer. */
    method ConsumeBuffer(ghost t: Translator, ghost start: seq<byte>, ghost already: seq<Item>,
                         ghost info: Info, ghost before: seq<Delivery>)
      returns (ok: bool, ghost done: seq<Item>)
      requires Progress(t, start, already) && Played(t, info, before, already)
      modifies this
      ensures ok == !Parse(t, start).failed
      ensures done == Parse(t, start).items && Played(t, info, before, done)
      ensures ok ==> Valid() && translator == Some(t) && Carry() == Parse(t, start).rest
      ensures partialEvent == null || partialEvent == old(partialEvent) || fresh(partialEvent)
    {
      hide Dispatch, DispatchAll, WordAt, Parse, Translate, Played;
      done := already;
      while residual != 0
        invariant Progress(t, start, done) && Played(t, info, before, done)
        invariant partialEvent == null || partialEvent == old(partialEvent) || fresh(partialEvent)
        decreases residual
      {
        ghost var left := Left();
        if residual > HEADER_SIZE {
          var size := ReadSize(cursorIn, cursor, left);
          if size == 0 {
            ParseStops(t, left);
            assert done + [] == done;
            return false, done;
          }
          if size > residual {
            HoldBack(size, t, start, done, info, before);
          } else {
            done := TakeItem(t, start, done, info, before);
          }
        } else {
          KeepRest(t, start, done, info, before);
        }
      }
      assert done + [] == done;
      ok := true;
    }

    /** What is left starts an item that goes on in the next buffer. */
    method HoldBack(size: nat, ghost t: Translator, ghost start: seq<byte>, ghost done: seq<Item>,
                    ghost info: Info, ghost before: seq<Delivery>)
      requires Progress(t, start, done) && Played(t, info, before, done)
      requires HEADER_SIZE < residual < size && size == SizeOf(t, Left())
      modifies this
      ensures Progress(t, start, done) && Played(t, info, before, done) && residual == 0
      ensures partialEvent == null || fresh(partialEvent)
    {
      hide Dispatch, DispatchAll, WordAt, Parse;
      ParseResting(t, Left());
      CreatePartialEvent(size);
      residual := 0;
      gluedBuffer := null;
    }

    /** What is left is too short to tell a size. */
    method KeepRest(ghost t: Translator, ghost start: seq<byte>, ghost done: seq<Item>,
                    ghost info: Info, ghost before: seq<Delivery>)
      requires Progress(t, start, done) && Played(t, info, before, done) && 1 <= residual <= HEADER_SIZE
      modifies `gluedBuffer, `glueSize, `residual
      ensures Progress(t, start, done) && Played(t, info, before, done) && residual == 0
    {
      hide Dispatch, DispatchAll, WordAt, Parse;
      ParseResting(t, Left());
      KeepGlue();
    }

    /** Dispatch the item at the cursor and step over it. */
    method TakeItem(ghost t: Translator, ghost start: seq<byte>, ghost already: seq<Item>,
                    ghost info: Info, ghost before: seq<Delivery>)
      returns (ghost done: seq<Item>)
      requires Progress(t, start, already) && Played(t, info, before, already)
      requires HEADER_SIZE < residual && 0 < SizeOf(t, Left()) <= residual
      modifies this
      ensures Progress(t, start, done) && Played(t, info, before, done)
      ensures residual < old(residual) && partialEvent == null
    {
      hide Parse, DispatchAll, SizeOf, TypeOf;
      ghost var left := Left();
      var size := ReadSize(cursorIn, cursor, left);
      ParseOneMore(t, start, already, left, size);
      done := DispatchNext(t, left, info, before, already);
      cursor := cursor + size;
      residual := residual - size;
      assert left[size..] == Left();
      if residual == 0 {
        ParseResting(t, Left());
        gluedBuffer := null;
      }
    }

    /** Dispatch the item at the cursor. */
    method DispatchNext(ghost t: Translator, ghost left: seq<byte>, ghost info: Info, ghost before: seq<Delivery>,
                        ghost already: seq<Item>)
      returns (ghost done: seq<Item>)
      requires translator == Some(t) && t.host == host && cursorIn != null && CursorValid() && left == Left()
      requires HEADER_SIZE <= |left| && SizeOf(t, left) <= |left| && Played(t, info, before, already)
      modifies `title, `runNumber, `bodyOffset, `bodySize, `currentItemType, `entityCount, `triggerCount,
               `currentHelper, `currentRingItem, `calls
      ensures done == already + [Item(TypeOf(t, left), left[..SizeOf(t, left)])]
      ensures Played(t, info, before, done)
    {
      hide Dispatch, DispatchAll, SizeOf, TypeOf;
      ghost var item := Item(TypeOf(t, left), left[..SizeOf(t, left)]);
      DispatchMore(cfg, t, info, before, already, [item]);
      DispatchOne(cfg, t, DispatchAll(cfg, t, info, already).info, item);
      DispatchEvent(cursorIn, cursor, left);
      done := already + [item];
    }

    /** Start an item from what is left of the data. */
    method CreatePartialEvent(size: nat)
      requires cursorIn != null && CursorValid() && HEADER_SIZE < residual < size
      modifies `partialEvent, `partialEventSize, `partialEventBytes
      ensures partialEvent != null && fresh(partialEvent) && partialEvent.Length == partialEventSize == size
      ensures partialEventBytes == residual && partialEvent[..partialEventBytes] == old(Left())
    {
      partialEvent := new byte[size];
      partialEventSize := size;
      forall i | 0 <= i < residual {
        partialEvent[i] := cursorIn[cursor + i];
      }
      partialEventBytes := residual;
    }

    /** Keep the last bytes, replacing any glued buffer that was being processed. */
    method KeepGlue()
      requires cursorIn != null && CursorValid() && 1 <= residual <= HEADER_SIZE
      modifies `gluedBuffer, `glueSize, `residual
      ensures gluedBuffer != null && gluedBuffer.Length == glueSize == old(residual)
      ensures gluedBuffer[..] == old(Left()) && residual == 0
    {
      var from, at, n := cursorIn, cursor, residual;
      gluedBuffer := new byte[n](i requires 0 <= i < n && at + n <= from.Length reads from => from[at + i]);
      glueSize := n;
      residual := 0;
    }

    method DispatchPartialEvent()
      requires partialEvent != null && translator.Some? && translator.value.host == host
      requires HEADER_SIZE <= partialEvent.Length && SizeOf(translator.value, partialEvent[..]) == partialEvent.Length
      modifies this
      ensures var t, s := old(translator.value), old(partialEvent[..]);
              var r := Dispatch(cfg, t, old(Statistics()), Item(TypeOf(t, s), s));
              Statistics() == r.info && calls == old(calls) + r.calls
      ensures partialEvent == null
      ensures unchanged(`cursorIn, `cursor, `residual, `gluedBuffer, `glueSize, `translator)
    {
      hide Dispatch, WordAt;
      ghost var s := partialEvent[..];
      assert s == partialEvent[0..0 + |s|];
      assert s[..|s|] == s;
      DispatchEvent(partialEvent, 0, s);
      partialEvent := null;
    }

    /** Dispatch the item at an address, where `s` lies, to the run hooks and the analyzer. */
    method DispatchEvent(p: array<byte>, at: nat, ghost s: seq<byte>)
      requires translator.Some? && translator.value.host == host
      requires HEADER_SIZE <= |s| && at + |s| <= p.Length && s == p[at..at + |s|]
      requires SizeOf(translator.value, s) <= |s|
      modifies `title, `runNumber, `bodyOffset, `bodySize, `currentItemType, `entityCount, `triggerCount,
               `currentHelper, `currentRingItem, `calls
      ensures var t := translator.value;
              var r := Dispatch(cfg, t, old(Statistics()), Item(TypeOf(t, s), s[..SizeOf(t, s)]));
              Statistics() == r.info && calls == old(calls) + r.calls
    {
      hide WordAt, Translate, MapType, Present, Account, CallsFor;
      var size := ReadSize(p, at, s);
      var itemType := ReadType(p, at, s);
      var item := p[at..at + size];
      assert item == s[..size];
      var t := translator.value;
      var helper := PresentItem(t, itemType, item);
      if itemType == BEGIN_RUN || itemType == END_RUN || itemType == PAUSE_RUN || itemType == RESUME_RUN {
        ChangeState(t, helper, itemType, item);
      } else {
        CountItem(t, helper, itemType, item);
      }
      currentRingItem := None;
    }

    /** What comes before the switch: a format item changes the helper, and the body of the
        item is found. */
    method PresentItem(t: Translator, itemType: word, item: seq<byte>) returns (helper: Helper)
      requires t.host == host
      modifies `bodyOffset, `bodySize, `currentItemType, `currentHelper, `currentRingItem
      ensures Statistics() == Present(cfg, t, old(Statistics()), Item(itemType, item))
      ensures helper == HelperUsed(currentHelper, defaultHelper) && currentItemType == MapType(itemType)
    {
      hide MapType;
      var lib := cfg.lib;
      if itemType == RING_FORMAT {
        InvalidateCurrentHelper();
        currentHelper := CreateHelper(lib, cfg.formats, host, item);
      }
      helper := GetFormatHelper();
      currentRingItem := Some(item);
      bodyOffset := lib.bodyOffset(helper, item);
      bodySize := (|item| - bodyOffset) % WORD_LIMIT;
      currentItemType := MapType(itemType);
    }

    /** The state-change cases, which fall through from one to the next. */
    method ChangeState(t: Translator, helper: Helper, itemType: word, item: seq<byte>)
      requires ChangesState(itemType) && currentItemType == MapType(itemType)
      requires helper == HelperUsed(currentHelper, defaultHelper)
      modifies `title, `runNumber, `entityCount, `triggerCount, `calls
      ensures var before, i := old(Statistics()), Item(itemType, item);
              && Statistics() == Account(cfg, t, before, i)
              && calls == old(calls) + CallsFor(cfg, before, Statistics(), i)
    {
      var lib := cfg.lib;
      if itemType == BEGIN_RUN {
        triggerCount := 0;
        Announce(BeginRun(lib.runNumber(helper, t, item), lib.title(helper, item)));
      }
      if itemType == END_RUN {
        Announce(EndRun(lib.runNumber(helper, t, item), lib.title(helper, item)));
      }
      title := lib.title(helper, item);
      runNumber := lib.runNumber(helper, t, item);
      entityCount := 0;
      Announce(OnStateChange(currentItemType));
    }

    /** The remaining cases of the switch. */
    method CountItem(t: Translator, helper: Helper, itemType: word, item: seq<byte>)
      requires !ChangesState(itemType) && currentItemType == MapType(itemType)
      requires helper == HelperUsed(currentHelper, defaultHelper)
      modifies `entityCount, `triggerCount, `calls
      ensures var before, i := old(Statistics()), Item(itemType, item);
              && Statistics() == Account(cfg, t, before, i)
              && calls == old(calls) + CallsFor(cfg, before, Statistics(), i)
    {
      var lib := cfg.lib;
      if itemType == PACKET_TYPES || itemType == MONITORED_VARIABLES {
        entityCount := lib.stringCount(helper, t, item);
        Announce(OnOther(currentItemType));
      } else if itemType == PERIODIC_SCALERS {
        entityCount := lib.scalerCount(helper, t, item);
        Announce(OnScaler);
      } else if itemType == PHYSICS_EVENT {
        entityCount := 1;
        triggerCount := (triggerCount + 1) % WORD_LIMIT;
        Announce(OnPhysics);
      } else if itemType == PHYSICS_EVENT_COUNT {
        triggerCount := lib.triggerCount(helper, t, item) % WORD_LIMIT;
        Announce(OnOther(currentItemType));
      } else if !lib.unrecognized(item) {
        Announce(OnOther(currentItemType));
      }
    }

    /** Make a call; what it can ask of the decoder is recorded with it. */
    method Announce(call: Call)
      modifies `calls
      ensures calls == old(calls) + [Delivery(call, old(Statistics()))]
    {
      var seen := Info(currentHelper, defaultHelper, title, runNumber, currentItemType, entityCount, triggerCount,
                       bodyOffset, bodySize, currentRingItem);
      calls := calls + [Delivery(call, seen)];
    }

    method GetFormatHelper() returns (helper: Helper)
      ensures helper == HelperUsed(currentHelper, defaultHelper)
    {
      var found := currentHelper;
      if found == None {
        found := defaultHelper;
      }
      if found == None {
        found := Some(FALLBACK);
      }
      helper := found.value;
    }

    method InvalidateCurrentHelper()
      modifies `currentHelper
      ensures currentHelper == None
    {
      currentHelper := None;
    }

    /** Attach, detach and end of file each cast doubt on the data format. */
    method OnSourceChange()
      requires Valid()
      modifies `currentHelper
      ensures Valid() && Carry() == old(Carry())
      ensures Statistics() == Step(cfg, old(Statistics()), Invalidate).info
    {
      InvalidateCurrentHelper();
    }
  }

  function Contents(buffers: seq<array<byte>>): (chunks: seq<seq<byte>>)
    reads buffers
    ensures |chunks| == |buffers|
  {
    seq(|buffers|, i requires 0 <= i < |buffers| reads buffers => buffers[i][..])
  }

  /** A data source delivering buffer after buffer: whatever the cutting, the analyzer sees
      exactly the calls for one parse of what was carried and the whole stream. */
  method DeliverStream(d: RingBufferDecoder, buffers: seq<array<byte>>, ghost t: Translator) returns (ok: bool)
    requires d.Valid() && d.partialEvent !in buffers && t.host == d.host
    requires d.Carry() != [] ==> d.CurrentTranslator() == t
    requires forall i :: 0 <= i < |buffers| ==> buffers[i].Length + HEADER_SIZE < WORD_LIMIT
    requires AllDeliverable(Carried(d.CurrentTranslator(), d.Carry()), Contents(buffers))
    requires UniformOrder(t, d.Carry() + Flatten(Contents(buffers)))
    modifies d, d.partialEvent
    ensures d.partialEvent == null || d.partialEvent == old(d.partialEvent) || fresh(d.partialEvent)
    ensures var whole := Parse(t, old(d.Carry() + Flatten(Contents(buffers))));
            var r := DispatchAll(d.cfg, t, old(d.Statistics()), whole.items);
            && ok == !whole.failed
            && d.Statistics() == r.info && d.calls == old(d.calls) + r.calls
            && (ok ==> d.Valid() && d.Carry() == whole.rest && (whole.rest != [] ==> d.CurrentTranslator() == t))
  {
    hide Dispatch, WordAt, Parse, UniformOrder, DetectAt, DispatchAll, Flatten;
    ghost var chunks, carry, done := Contents(buffers), d.Carry(), [];
    ghost var whole := carry + Flatten(chunks);
    assert Prepend([], Parse(t, whole)) == Parse(t, whole);
    DispatchNone(d.cfg, t, d.Statistics(), d.calls);
    ok := true;
    var k := 0;
    while ok && k < |buffers|
      invariant 0 <= k <= |buffers| && Contents(buffers) == chunks && d.host == t.host
      invariant d.partialEvent == null || d.partialEvent == old(d.partialEvent) || fresh(d.partialEvent)
      invariant ok ==> d.Valid() && carry == d.Carry() && (carry != [] ==> d.CurrentTranslator() == t)
      invariant ok ==> AllDeliverable(Carried(d.CurrentTranslator(), carry), chunks[k..])
      invariant ok ==> Resting(t, carry) && UniformOrder(t, carry + Flatten(chunks[k..]))
      invariant ok ==> Parse(t, whole) == Prepend(done, Parse(t, carry + Flatten(chunks[k..])))
      invariant !ok ==> Parse(t, whole).items == done && Parse(t, whole).failed
      invariant d.Played(t, old(d.Statistics()), old(d.calls), done)
    {
      ghost var st, chunk := Carried(d.CurrentTranslator(), carry), chunks[k];
      assert chunk == buffers[k][..buffers[k].Length];
      assert chunks[k..][0] == chunk && chunks[k..][1..] == chunks[k + 1..];
      DeliverNext(t, Parse(t, whole), done, st, chunks[k..]);
      ghost var o := Deliver(st, chunk);
      DispatchMore(d.cfg, t, old(d.Statistics()), old(d.calls), done, o.items);
      ok := d.OnBuffer(buffers[k], buffers[k].Length);
      done, carry := done + o.items, o.rest;
      k := k + 1;
    }
    if ok {
      NothingMore(t, carry, chunks[k..], done);
    }
  }

  /** One source after another. Nothing but the helper is forgotten in between: what the first
      left behind is taken for the start of the second, read by the first one's translator.
      So the second is dispatched as its own parse if the first left nothing. */
  method DeliverTwoSources(d: RingBufferDecoder, first: seq<array<byte>>, second: seq<array<byte>>,
                           ghost t1: Translator, ghost t2: Translator) returns (ok: bool)
    requires d.Valid() && d.Carry() == [] && t1.host == t2.host == d.host
    requires d.partialEvent !in first && d.partialEvent !in second
    requires forall i :: 0 <= i < |first| ==> first[i].Length + HEADER_SIZE < WORD_LIMIT
    requires forall i :: 0 <= i < |second| ==> second[i].Length + HEADER_SIZE < WORD_LIMIT
    requires AllDeliverable(Carried(d.CurrentTranslator(), []), Contents(first))
    requires UniformOrder(t1, Flatten(Contents(first)))
    requires var left := Parse(t1, Flatten(Contents(first))).rest;
             && (left != [] ==> t1 == t2)
             && AllDeliverable(Carried(t2, left), Contents(second))
             && UniformOrder(t2, left + Flatten(Contents(second)))
    modifies d, d.partialEvent
    ensures var p1 := Parse(t1, old(Flatten(Contents(first))));
            var p2 := Parse(t2, p1.rest + old(Flatten(Contents(second))));
            var r1 := DispatchAll(d.cfg, t1, old(d.Statistics()), p1.items);
            var r2 := DispatchAll(d.cfg, t2, r1.info.(currentHelper := None), p2.items);
            && ok == (!p1.failed && !p2.failed)
            && (!p1.failed ==> d.Statistics() == r2.info && d.calls == old(d.calls) + r1.calls + r2.calls)
            && (ok ==> d.Valid() && d.Carry() == p2.rest)
  {
    hide Dispatch, WordAt, Parse, UniformOrder, DetectAt, DispatchAll, Flatten;
    ghost var chunks := Contents(second);
    assert [] + Flatten(Contents(first)) == Flatten(Contents(first));
    ok := DeliverStream(d, first, t1);
    if ok {
      d.OnSourceChange();
      assert Contents(second) == chunks;
      SameHostDelivers(d.CurrentTranslator(), t2, d.Carry(), chunks);
      ok := DeliverStream(d, second, t2);
    }
  }

  /** Whether buffers can be delivered does not depend on the translator at an item boundary. */
  lemma SameHostDelivers(t: Translator, u: Translator, carry: seq<byte>, chunks: seq<seq<byte>>)
    requires t.host == u.host && (carry != [] ==> t == u) && AllDeliverable(Carried(u, carry), chunks)
    ensures AllDeliverable(Carried(t, carry), chunks)
  {
    hide WordAt, Parse;
  }
}
