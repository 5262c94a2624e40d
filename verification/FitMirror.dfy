/** An observer of the fit dictionary keeps an exact mirror of it
    (main/Core/CFitDictionary.cpp:69-113, 167-302, main/Core/CHistogrammerFitObserver.cpp:63-93). */
module FitMirror {
  import opened Options
  import opened FitObservation

  /** Having started from `base` at some point of the log, the observer's display shows exactly
      the announced fits, and no call was ever out of place. */
  ghost predicate Follows<O>(d: Dictionary<O>, base: Display, start: nat, o: O) {
    && Sorted(d.fits) && Distinct(d.fits) && start <= |d.log|
    && Seen(d, base, start, o) == Some(Mirror(d.fits))
  }

  lemma ShowOne(display: Display, call: DisplayCall)
    ensures Show(display, [call]) ==
              if call.AddFit? then (if call.name in display then None else Some(display[call.name := call.contents]))
              else if call.name !in display then None else Some(display - {call.name})
  {
    assert [call][1..] == [];
  }

  lemma RepeatedOnce(calls: seq<DisplayCall>)
    ensures Repeated(calls, 1) == calls
  {
    assert Repeated(calls, 1) == calls + Repeated(calls, 0);
  }

  lemma WithoutSorted(fits: seq<Fit>, i: nat)
    requires Sorted(fits) && i < |fits|
    ensures Sorted(Without(fits, i))
  {
    hide Before;
    var rest := Without(fits, i);
    forall a, b | 0 <= a < b < |rest| ensures Before(rest[a].name, rest[b].name) {
      assert rest[a] == fits[if a < i then a else a + 1];
      assert rest[b] == fits[if b < i then b else b + 1];
    }
  }

  lemma ErasedFollows<O>(d: Dictionary<O>, here: nat, base: Display, start: nat, o: O)
    requires Follows(d, base, start, o) && Times(d.observers, o) == 1 && here < |d.fits|
    ensures Follows(Erased(d, here), base, start, o)
  {
    hide Show, Heard, Mirror, Without;
    var notice := Deleted(d.fits[here]);
    NotifySeen(d, notice, base, start, o);
    RepeatedOnce(CallsOf(notice));
    ShowOne(Mirror(d.fits), DeleteFit(d.fits[here].name));
    MirrorWithout(d.fits, here);
    WithoutSorted(d.fits, here);
    assert Seen(Erased(d, here), base, start, o) == Seen(Notify(d, notice), base, start, o);
  }

  lemma EnteredFollows<O>(d: Dictionary<O>, name: string, contents: Contents, base: Display, start: nat, o: O)
    requires Follows(d, base, start, o) && Times(d.observers, o) == 1 && Find(d.fits, name) == |d.fits|
    ensures Follows(Entered(d, name, contents), base, start, o)
  {
    hide Show, Heard, Mirror, Placed;
    var fit := Fit(name, contents, contents);
    var e := d.(fits := Placed(d.fits, fit));
    assert Seen(e, base, start, o) == Seen(d, base, start, o);
    NotifySeen(e, Added(fit), base, start, o);
    RepeatedOnce(CallsOf(Added(fit)));
    ShowOne(Mirror(d.fits), AddFit(name, contents));
    MirrorPlaced(d.fits, fit);
    PlacedSorted(d.fits, fit);
  }

  lemma ReplacedFollows<O>(d: Dictionary<O>, name: string, contents: Contents, base: Display, start: nat, o: O)
    requires Follows(d, base, start, o) && Times(d.observers, o) == 1
    ensures Follows(Replaced(d, name, contents), base, start, o)
  {
    hide Follows, Entered;
    var i := Find(d.fits, name);
    if i < |d.fits| {
      ErasedFollows(d, i, base, start, o);
      assert Distinct(d.fits) by { FollowsIsDistinct(d, base, start, o); }
      MirrorWithout(d.fits, i);
      EnteredFollows(Erased(d, i), name, contents, base, start, o);
    } else {
      EnteredFollows(d, name, contents, base, start, o);
    }
  }

  lemma FollowsIsDistinct<O>(d: Dictionary<O>, base: Display, start: nat, o: O)
    requires Follows(d, base, start, o)
    ensures Distinct(d.fits)
  {
  }

  lemma SetSorted(fits: seq<Fit>, i: nat, fit: Fit)
    requires Sorted(fits) && i < |fits| && fit.name == fits[i].name
    ensures Sorted(fits[i := fit])
  {
    hide Before;
    var all := fits[i := fit];
    forall a, b | 0 <= a < b < |all| ensures Before(all[a].name, all[b].name) {
      assert all[a].name == fits[a].name && all[b].name == fits[b].name;
    }
  }

  lemma UpdatedAtFollows<O>(d: Dictionary<O>, i: nat, matches: string -> bool, script: string -> Update,
                            base: Display, start: nat, o: O)
    requires Follows(d, base, start, o) && Times(d.observers, o) >= 1 && i < |d.fits|
    ensures Follows(UpdatedAt(d, i, matches, script), base, start, o)
    ensures UpdatedAt(d, i, matches, script).observers == d.observers
    ensures |UpdatedAt(d, i, matches, script).fits| == |d.fits|
  {
    hide Show, Heard, Mirror;
    var fit := d.fits[i];
    if matches(fit.name) {
      match script(fit.name)
      case Throws(c) =>
        var changed := fit.(contents := c);
        MirrorSet(d.fits, i, changed);
        SetSorted(d.fits, i, changed);
        assert Mirror(d.fits)[fit.name := fit.announced] == Mirror(d.fits);
        assert Seen(UpdatedAt(d, i, matches, script), base, start, o) == Seen(d, base, start, o);
      case Succeeds(c) =>
        var changed := Fit(fit.name, c, c);
        var e := d.(fits := d.fits[i := changed]);
        assert Seen(e, base, start, o) == Seen(d, base, start, o);
        NotifySeen(e, Updated(changed), base, start, o);
        MirrorSet(d.fits, i, changed);
        SetSorted(d.fits, i, changed);
        UpdateShownRepeatedly(Mirror(d.fits), changed, Times(d.observers, o));
    }
  }

  /** To a display an update is a delete, then an add. */
  lemma UpdateShown(display: Display, fit: Fit)
    requires fit.name in display
    ensures Show(display, CallsOf(Updated(fit))) == Some(display[fit.name := fit.contents])
  {
    var first, second := DeleteFit(fit.name), AddFit(fit.name, fit.contents);
    assert CallsOf(Updated(fit)) == [first] + [second];
    ShowAppend(display, [first], [second]);
    ShowOne(display, first);
    ShowOne(display - {fit.name}, second);
    assert (display - {fit.name})[fit.name := fit.contents] == display[fit.name := fit.contents];
  }

  /** However often it is told of it. */
  lemma {:induction false} UpdateShownRepeatedly(display: Display, fit: Fit, times: nat)
    requires fit.name in display && times >= 1
    ensures Show(display, Repeated(CallsOf(Updated(fit)), times)) == Some(display[fit.name := fit.contents])
  {
    hide Show, CallsOf;
    var calls, shown := CallsOf(Updated(fit)), display[fit.name := fit.contents];
    UpdateShown(display, fit);
    if times == 1 {
      RepeatedOnce(calls);
    } else {
      UpdateShownRepeatedly(shown, fit, times - 1);
      ShowAppend(display, calls, Repeated(calls, times - 1));
      assert shown[fit.name := fit.contents] == shown;
    }
  }

  lemma {:induction false} UpdatedFromFollows<O>(d: Dictionary<O>, i: nat, matches: string -> bool,
                                                 script: string -> Update, base: Display, start: nat, o: O)
    requires Follows(d, base, start, o) && Times(d.observers, o) >= 1 && i <= |d.fits|
    ensures Follows(UpdatedFrom(d, i, matches, script), base, start, o)
    ensures UpdatedFrom(d, i, matches, script).observers == d.observers
    decreases |d.fits| - i
  {
    hide Follows, UpdatedAt;
    if i < |d.fits| {
      UpdatedAtFollows(d, i, matches, script, base, start, o);
      UpdatedFromFollows(UpdatedAt(d, i, matches, script), i + 1, matches, script, base, start, o);
    }
  }

  lemma {:induction false} DeletionsKeepFits<O>(d: Dictionary<O>, gone: seq<Fit>, fits: seq<Fit>)
    ensures NotifyDeletions(d.(fits := fits), gone) == NotifyDeletions(d, gone).(fits := fits)
    ensures NotifyDeletions(d, gone).observers == d.observers
    decreases |gone|
  {
    if gone != [] {
      DeletionsKeepFits(Notify(d, Deleted(gone[0])), gone[1..], fits);
    }
  }

  lemma WithoutSlices(fits: seq<Fit>, first: nat, last: nat)
    requires first < last <= |fits|
    ensures var rest := Without(fits, first);
            && rest[..first] == fits[..first]
            && rest[first..last - 1] == fits[first + 1..last]
            && rest[last - 1..] == fits[last..]
  {
    var rest, behind := Without(fits, first), fits[first + 1..];
    assert rest[first..] == behind;
    assert rest[first..last - 1] == behind[..last - 1 - first] && rest[last - 1..] == behind[last - 1 - first..];
  }

  /** Telling everyone of a range before any of it goes amounts to single erases in order. */
  lemma RangeErasedFirst<O>(d: Dictionary<O>, first: nat, last: nat)
    requires first < last <= |d.fits|
    ensures RangeErased(d, first, last) == RangeErased(Erased(d, first), first, last - 1)
  {
    hide Notify;
    var gone, rest, e := d.fits[first..last], Without(d.fits, first), Erased(d, first);
    assert e == Notify(d, Deleted(d.fits[first])).(fits := rest);
    WithoutSlices(d.fits, first, last);
    assert gone[1..] == d.fits[first + 1..last];
    DeletionsKeepFits(Notify(d, Deleted(d.fits[first])), gone[1..], rest);
  }

  lemma {:induction false} RangeErasedFollows<O>(d: Dictionary<O>, first: nat, last: nat,
                                                 base: Display, start: nat, o: O)
    requires Follows(d, base, start, o) && Times(d.observers, o) == 1 && first <= last <= |d.fits|
    ensures Follows(RangeErased(d, first, last), base, start, o)
    ensures RangeErased(d, first, last).observers == d.observers
    decreases last - first
  {
    hide Follows;
    if first < last {
      ErasedFollows(d, first, base, start, o);
      RangeErasedFirst(d, first, last);
      RangeErasedFollows(Erased(d, first), first, last - 1, base, start, o);
    } else {
      assert d.fits[first..last] == [] && d.fits[..first] + d.fits[last..] == d.fits;
    }
  }

  // Other observers come and go

  lemma {:induction false} TimesAppend<O>(a: seq<O>, b: seq<O>, o: O)
    ensures Times(a + b, o) == Times(a, o) + Times(b, o)
    decreases |a|
  {
    if a == [] {
      assert a + b == b;
    } else {
      assert (a + b)[1..] == a[1..] + b;
      TimesAppend(a[1..], b, o);
    }
  }

  lemma {:induction false} TimesWithoutFirst<O>(observers: seq<O>, gone: O, o: O)
    ensures Times(WithoutFirst(observers, gone), o) ==
              if gone == o && Times(observers, o) > 0 then Times(observers, o) - 1 else Times(observers, o)
  {
    if observers != [] && observers[0] != gone {
      TimesWithoutFirst(observers[1..], gone, o);
      assert ([observers[0]] + WithoutFirst(observers[1..], gone))[1..] == WithoutFirst(observers[1..], gone);
    }
  }

  /** Neither registers nor removes the observer. */
  predicate Spares<O(==)>(op: Operation<O>, o: O) {
    (op.AddObserver? || op.RemoveObserver?) ==> op.o != o
  }

  /** Registering or removing another observer changes nothing for this one. */
  lemma OthersChangeFollows<O>(d: Dictionary<O>, op: Operation<O>, base: Display, start: nat, o: O)
    requires Follows(d, base, start, o) && (op.AddObserver? || op.RemoveObserver?) && Spares(op, o)
    ensures Follows(Apply(d, op), base, start, o) && Times(Apply(d, op).observers, o) == Times(d.observers, o)
  {
    hide Seen, Mirror, Times, Sorted, Distinct;
    match op
    case AddObserver(other) =>
      TimesAppend(d.observers, [other], o);
      TimesOfOther(other, o);
      SeenApart(d, d.observers + [other], base, start, o);
    case RemoveObserver(other) =>
      TimesWithoutFirst(d.observers, other, o);
      SeenApart(d, WithoutFirst(d.observers, other), base, start, o);
  }

  lemma ApplyFollows<O>(d: Dictionary<O>, op: Operation<O>, base: Display, start: nat, o: O)
    requires Follows(d, base, start, o) && Times(d.observers, o) == 1 && GoodPosition(d, op) && Spares(op, o)
    ensures Follows(Apply(d, op), base, start, o) && Times(Apply(d, op).observers, o) == 1
  {
    hide Replaced, Erased, UpdatedFrom, RangeErased, Times, Follows;
    KeepsObservers(d);
    if !Refused(d, op) {
      match op
      case Add(name, contents) => ReplacedFollows(d, name, contents, base, start, o);
      case AddOrReplace(name, contents) => ReplacedFollows(d, name, contents, base, start, o);
      case Delete(name) => ErasedFollows(d, Find(d.fits, name), base, start, o);
      case Erase(here) => ErasedFollows(d, here, base, start, o);
      case EraseRange(first, last) => RangeErasedFollows(d, first, last, base, start, o);
      case UpdateFits(matches, script) => UpdatedFromFollows(d, 0, matches, script, base, start, o);
      case _ => OthersChangeFollows(d, op, base, start, o);
    }
  }

  lemma TimesOfOther<O>(other: O, o: O)
    ensures Times([other], o) == if other == o then 1 else 0
  {
    assert [other][1..] == [];
  }

  lemma SeenApart<O>(d: Dictionary<O>, observers: seq<O>, base: Display, start: nat, o: O)
    requires start <= |d.log|
    ensures Seen(d.(observers := observers), base, start, o) == Seen(d, base, start, o)
  {
  }

  lemma KeepsObservers<O>(d: Dictionary<O>)
    ensures forall i :: 0 <= i < |d.fits| ==> Erased(d, i).observers == d.observers
    ensures forall n, c :: Replaced(d, n, c).observers == d.observers
  {
  }

  predicate AllSpare<O(==)>(ops: seq<Operation<O>>, o: O) {
    forall i :: 0 <= i < |ops| ==> Spares(ops[i], o)
  }

  lemma {:induction false} RunFollows<O>(d: Dictionary<O>, ops: seq<Operation<O>>, base: Display, start: nat, o: O)
    requires Follows(d, base, start, o) && Times(d.observers, o) == 1 && IsRun(d, ops) && AllSpare(ops, o)
    ensures Follows(Run(d, ops), base, start, o)
    decreases |ops|
  {
    hide Follows, Apply, Times;
    if ops != [] {
      ApplyFollows(d, ops[0], base, start, o);
      RunFollows(Apply(d, ops[0]), ops[1..], base, start, o);
    }
  }

  /** An observer registered once follows every run: from a display of the fits there were,
      the calls it makes lead to one of the fits there are, with no add of a fit already shown
      and no delete of one that is not. */
  lemma MirrorOverRun<O>(d: Dictionary<O>, ops: seq<Operation<O>>, o: O)
    requires Sorted(d.fits) && Times(d.observers, o) == 1 && IsRun(d, ops) && AllSpare(ops, o)
    ensures Distinct(d.fits) && Distinct(Run(d, ops).fits) && |d.log| <= |Run(d, ops).log|
    ensures Seen(Run(d, ops), Mirror(d.fits), |d.log|, o) == Some(Mirror(Run(d, ops).fits))
  {
    hide Mirror, Run;
    SortedIsDistinct(d.fits);
    RunFollows(d, ops, Mirror(d.fits), |d.log|, o);
  }

  /** After one new fit the display is right if and only if the observer is registered exactly
      once: not at all and it misses the fit, twice and the fit is added to it twice. */
  lemma RightIffRegisteredOnce<O>(d: Dictionary<O>, name: string, contents: Contents, o: O)
    requires Sorted(d.fits) && Find(d.fits, name) == |d.fits|
    ensures var e := Apply(d, Operation.Add(name, contents));
            && Distinct(d.fits) && Distinct(e.fits) && |d.log| <= |e.log|
            && (Seen(e, Mirror(d.fits), |d.log|, o) == Some(Mirror(e.fits)) <==> Times(d.observers, o) == 1)
  {
    hide Heard, Mirror, Placed, Show;
    SortedIsDistinct(d.fits);
    var fit, n, was := Fit(name, contents, contents), Times(d.observers, o), Mirror(d.fits);
    var before := d.(fits := Placed(d.fits, fit));
    MirrorPlaced(d.fits, fit);
    assert d.log[|d.log|..] == [];
    NoCalls(was, o);
    NotifySeen(before, Added(fit), was, |d.log|, o);
    var call := AddFit(name, contents);
    assert CallsOf(Added(fit)) == [call];
    if n == 0 {
      assert Repeated([call], n) == [] && name !in was;
    } else {
      assert Repeated([call], n) == [call] + Repeated([call], n - 1);
      ShowAppend(was, [call], Repeated([call], n - 1));
      ShowOne(was, call);
      var shown := was[name := contents];
      NoCalls(shown, o);
      assert Repeated([call], 0) == [];
      if n > 1 {
        assert Repeated([call], n - 1) == [call] + Repeated([call], n - 2);
        ShowAppend(shown, [call], Repeated([call], n - 2));
        ShowOne(shown, call);
      }
    }
  }

  lemma NoCalls<O>(display: Display, o: O)
    ensures Show(display, Heard<O>([], o)) == Some(display) && Show(display, []) == Some(display)
  {
  }

  // Observers registered more than once

  /** Whatever the display, an add or delete told at least twice is out of place. */
  lemma ToldTwiceFails(display: Display, notice: Notice, times: nat)
    requires times >= 2 && !notice.Updated?
    ensures Show(display, Repeated(CallsOf(notice), times)) == None
  {
    hide Show;
    var call := CallsOf(notice)[0];
    assert CallsOf(notice) == [call];
    var later := Repeated([call], times - 2);
    assert Repeated([call], times) == [call] + Repeated([call], times - 1)
        && Repeated([call], times - 1) == [call] + later;
    ShowOne(display, call);
    ShowAppend(display, [call], Repeated([call], times - 1));
    if Show(display, [call]).Some? {
      ShowOne(Show(display, [call]).value, call);
      ShowAppend(Show(display, [call]).value, [call], later);
    }
  }

  lemma NotifyTwiceFails<O>(d: Dictionary<O>, notice: Notice, base: Display, start: nat, o: O)
    requires start <= |d.log| && Times(d.observers, o) >= 2 && !notice.Updated?
    ensures start <= |Notify(d, notice).log| && Seen(Notify(d, notice), base, start, o) == None
  {
    hide Notify, Seen, Show, CallsOf, Repeated, Times;
    NotifySeen(d, notice, base, start, o);
    if Seen(d, base, start, o).Some? {
      ToldTwiceFails(Seen(d, base, start, o).value, notice, Times(d.observers, o));
    }
  }

  /** `e` has the log of `d`, and perhaps more. */
  predicate Continues<O(==)>(e: Dictionary<O>, d: Dictionary<O>) {
    d.log <= e.log
  }

  /** A display that has failed stays so. */
  lemma StaysFailed<O>(d: Dictionary<O>, e: Dictionary<O>, base: Display, start: nat, o: O)
    requires Continues(e, d) && start <= |d.log| && Seen(d, base, start, o) == None
    ensures Seen(e, base, start, o) == None
  {
    hide Show, Heard;
    var more := e.log[|d.log|..];
    assert e.log[start..] == d.log[start..] + more;
    HeardAppend(d.log[start..], more, o);
    ShowAppend(base, Heard(d.log[start..], o), Heard(more, o));
  }

  lemma {:induction false} DeletionsContinue<O>(d: Dictionary<O>, gone: seq<Fit>)
    ensures Continues(NotifyDeletions(d, gone), d)
    decreases |gone|
  {
    if gone != [] {
      DeletionsContinue(Notify(d, Deleted(gone[0])), gone[1..]);
    }
  }

  lemma {:induction false} UpdatesContinue<O>(d: Dictionary<O>, i: nat, matches: string -> bool,
                                              script: string -> Update)
    requires i <= |d.fits|
    ensures Continues(UpdatedFrom(d, i, matches, script), d)
    decreases |d.fits| - i
  {
    if i < |d.fits| {
      UpdatesContinue(UpdatedAt(d, i, matches, script), i + 1, matches, script);
    }
  }

  lemma ApplyContinues<O>(d: Dictionary<O>, op: Operation<O>)
    requires GoodPosition(d, op)
    ensures Continues(Apply(d, op), d)
  {
    hide Placed, Without, ToAll, UpdatedFrom, NotifyDeletions;
    match op
    case EraseRange(first, last) => DeletionsContinue(d, d.fits[first..last]);
    case UpdateFits(matches, script) => UpdatesContinue(d, 0, matches, script);
    case _ =>
  }

  lemma {:induction false} RunContinues<O>(d: Dictionary<O>, ops: seq<Operation<O>>)
    requires IsRun(d, ops)
    ensures Continues(Run(d, ops), d)
    decreases |ops|
  {
    hide Apply;
    if ops != [] {
      ApplyContinues(d, ops[0]);
      RunContinues(Apply(d, ops[0]), ops[1..]);
    }
  }

  /** The operation adds or deletes a fit. */
  predicate Changes<O>(d: Dictionary<O>, op: Operation<O>) {
    && !Refused(d, op)
    && (op.Add? || op.AddOrReplace? || op.Delete? || op.Erase? || (op.EraseRange? && op.first < op.last))
  }

  predicate SomeChange<O(==)>(d: Dictionary<O>, ops: seq<Operation<O>>)
    requires IsRun(d, ops)
    decreases |ops|
  {
    ops != [] && (Changes(d, ops[0]) || SomeChange(Apply(d, ops[0]), ops[1..]))
  }

  lemma EnteredTwiceFails<O>(d: Dictionary<O>, name: string, contents: Contents, base: Display, start: nat, o: O)
    requires start <= |d.log| && Times(d.observers, o) >= 2
    ensures start <= |Entered(d, name, contents).log| && Seen(Entered(d, name, contents), base, start, o) == None
  {
    var fit := Fit(name, contents, contents);
    NotifyTwiceFails(d.(fits := Placed(d.fits, fit)), Added(fit), base, start, o);
  }

  lemma ErasedTwiceFails<O>(d: Dictionary<O>, here: nat, base: Display, start: nat, o: O)
    requires start <= |d.log| && Times(d.observers, o) >= 2 && here < |d.fits|
    ensures start <= |Erased(d, here).log| && Seen(Erased(d, here), base, start, o) == None
  {
    hide Without, Show, Heard;
    NotifyTwiceFails(d, Deleted(d.fits[here]), base, start, o);
    assert Erased(d, here).log == Notify(d, Deleted(d.fits[here])).log;
  }

  lemma RangeTwiceFails<O>(d: Dictionary<O>, first: nat, last: nat, base: Display, start: nat, o: O)
    requires start <= |d.log| && Times(d.observers, o) >= 2 && first < last <= |d.fits|
    ensures start <= |RangeErased(d, first, last).log| && Seen(RangeErased(d, first, last), base, start, o) == None
  {
    hide Show, Heard;
    var gone := d.fits[first..last];
    var one := Notify(d, Deleted(gone[0]));
    NotifyTwiceFails(d, Deleted(gone[0]), base, start, o);
    DeletionsContinue(one, gone[1..]);
    StaysFailed(one, NotifyDeletions(one, gone[1..]), base, start, o);
    assert RangeErased(d, first, last).log == NotifyDeletions(one, gone[1..]).log;
  }

  lemma ChangeTwiceFails<O>(d: Dictionary<O>, op: Operation<O>, base: Display, start: nat, o: O)
    requires start <= |d.log| && Times(d.observers, o) >= 2 && GoodPosition(d, op) && Changes(d, op)
    ensures start <= |Apply(d, op).log| && Seen(Apply(d, op), base, start, o) == None
  {
    hide Entered, Erased, RangeErased, Seen, Times;
    KeepsObservers(d);
    match op
    case Add(name, contents) => EnteredTwiceFails(d, name, contents, base, start, o);
    case AddOrReplace(name, contents) =>
      var i := Find(d.fits, name);
      if i < |d.fits| {
        ErasedTwiceFails(d, i, base, start, o);
        EnteredTwiceFails(Erased(d, i), name, contents, base, start, o);
      } else {
        EnteredTwiceFails(d, name, contents, base, start, o);
      }
    case Delete(name) => ErasedTwiceFails(d, Find(d.fits, name), base, start, o);
    case Erase(here) => ErasedTwiceFails(d, here, base, start, o);
    case EraseRange(first, last) => RangeTwiceFails(d, first, last, base, start, o);
  }

  /** What changes no fit keeps the display right, however often the observer is registered. */
  lemma QuietFollows<O>(d: Dictionary<O>, op: Operation<O>, base: Display, start: nat, o: O)
    requires Follows(d, base, start, o) && Times(d.observers, o) >= 1 && GoodPosition(d, op) && Spares(op, o)
    requires !Changes(d, op)
    ensures Follows(Apply(d, op), base, start, o) && Times(Apply(d, op).observers, o) == Times(d.observers, o)
  {
    hide UpdatedFrom, Times, Follows;
    if !Refused(d, op) {
      match op
      case EraseRange(first, last) =>
        assert d.fits[first..last] == [] && d.fits[..first] + d.fits[last..] == d.fits;
        assert RangeErased(d, first, last) == d;
      case UpdateFits(matches, script) => UpdatedFromFollows(d, 0, matches, script, base, start, o);
      case _ => OthersChangeFollows(d, op, base, start, o);
    }
  }

  lemma {:induction false} TwiceOverRun<O>(d: Dictionary<O>, ops: seq<Operation<O>>, base: Display, start: nat, o: O)
    requires Follows(d, base, start, o) && Times(d.observers, o) >= 2 && IsRun(d, ops) && AllSpare(ops, o)
    ensures start <= |Run(d, ops).log|
    ensures SomeChange(d, ops) ==> Seen(Run(d, ops), base, start, o) == None
    ensures !SomeChange(d, ops) ==> Follows(Run(d, ops), base, start, o)
    decreases |ops|
  {
    hide Follows, Apply, Times, Seen, Changes;
    StartInLog(d, base, start, o);
    if ops != [] {
      var e := Apply(d, ops[0]);
      ApplyContinues(d, ops[0]);
      if Changes(d, ops[0]) {
        ChangeTwiceFails(d, ops[0], base, start, o);
        RunContinues(e, ops[1..]);
        StaysFailed(e, Run(e, ops[1..]), base, start, o);
      } else {
        QuietFollows(d, ops[0], base, start, o);
        TwiceOverRun(e, ops[1..], base, start, o);
      }
    }
  }

  lemma StartInLog<O>(d: Dictionary<O>, base: Display, start: nat, o: O)
    requires Follows(d, base, start, o)
    ensures start <= |d.log|
  {
  }

  /** An observer registered more than once is right over a run if and only if the run adds and
      deletes no fit; otherwise it is told to add a fit it shows or delete one it does not. */
  lemma MirrorLostIffChanged<O>(d: Dictionary<O>, ops: seq<Operation<O>>, o: O)
    requires Sorted(d.fits) && Times(d.observers, o) >= 2 && IsRun(d, ops) && AllSpare(ops, o)
    ensures Distinct(d.fits) && |d.log| <= |Run(d, ops).log|
    ensures SomeChange(d, ops) ==> Seen(Run(d, ops), Mirror(d.fits), |d.log|, o) == None
    ensures !SomeChange(d, ops) ==>
              Distinct(Run(d, ops).fits)
              && Seen(Run(d, ops), Mirror(d.fits), |d.log|, o) == Some(Mirror(Run(d, ops).fits))
  {
    hide Mirror, Run, SomeChange;
    SortedIsDistinct(d.fits);
    TwiceOverRun(d, ops, Mirror(d.fits), |d.log|, o);
  }

  // Failed updates

  /** What was announced of each fit is what it holds. */
  predicate Current(fits: seq<Fit>) {
    forall i :: 0 <= i < |fits| ==> fits[i].contents == fits[i].announced
  }

  /** An update of all matching fits leaves the announcements current if and only if no
      exception comes after a change. */
  lemma {:induction false} CurrentIffThrowsKeep<O>(d: Dictionary<O>, i: nat, matches: string -> bool,
                                                   script: string -> Update)
    requires i <= |d.fits| && Current(d.fits[i..])
    ensures var after := UpdatedFrom(d, i, matches, script);
            Current(after.fits) <==>
              Current(d.fits[..i])
              && forall j :: i <= j < |d.fits| && matches(d.fits[j].name) && script(d.fits[j].name).Throws? ==>
                   script(d.fits[j].name).contents == d.fits[j].contents
    decreases |d.fits| - i
  {
    hide Current, UpdatedAt;
    if i < |d.fits| {
      var e := UpdatedAt(d, i, matches, script);
      var first, later := d.fits[i], d.fits[i + 1..];
      assert d.fits[i..] == [first] + later;
      CurrentAppend([first], later);
      OneUpdated(d, i, matches, script);
      CurrentAppend(e.fits[..i], [e.fits[i]]);
      assert e.fits[..i + 1] == e.fits[..i] + [e.fits[i]];
      CurrentIffThrowsKeep(e, i + 1, matches, script);
      CurrentOne(first);
      CurrentOne(e.fits[i]);
      assert forall j :: i + 1 <= j < |d.fits| ==> d.fits[j] == later[j - (i + 1)] == e.fits[j];
    } else {
      assert d.fits[..i] == d.fits;
    }
  }

  lemma OneUpdated<O>(d: Dictionary<O>, i: nat, matches: string -> bool, script: string -> Update)
    requires i < |d.fits|
    ensures var e := UpdatedAt(d, i, matches, script);
            && |e.fits| == |d.fits| && e.fits[..i] == d.fits[..i] && e.fits[i + 1..] == d.fits[i + 1..]
            && e.fits[i] == if !matches(d.fits[i].name) then d.fits[i]
                            else match script(d.fits[i].name)
                                 case Throws(c) => d.fits[i].(contents := c)
                                 case Succeeds(c) => Fit(d.fits[i].name, c, c)
  {
  }

  lemma CurrentAppend(a: seq<Fit>, b: seq<Fit>)
    ensures Current(a + b) <==> Current(a) && Current(b)
  {
    if Current(a + b) {
      assert forall i :: 0 <= i < |a| ==> a[i] == (a + b)[i];
      assert forall i :: 0 <= i < |b| ==> b[i] == (a + b)[|a| + i];
    }
  }

  lemma CurrentOne(fit: Fit)
    ensures Current([fit]) <==> fit.contents == fit.announced
  {
    assert [fit][0] == fit;
  }

  /** With an update that changes a fit and then fails, what was announced is out of date. */
  lemma FailedUpdateIsMissed()
    ensures var d: Dictionary<nat> := Dictionary([Fit("peak", 1, 1)], [0], []);
            var op: Operation<nat> := UpdateFits(name => true, name => Throws(2));
            Current(d.fits) && !Current(Apply(d, op).fits)
  {
    var d: Dictionary<nat> := Dictionary([Fit("peak", 1, 1)], [0], []);
    assert d.fits[0..] == d.fits && d.fits[..0] == [];
    CurrentIffThrowsKeep(d, 0, name => true, name => Throws(2));
  }

  // What the dictionary holds

  /** What was announced is what is held if and only if it is so for every fit. */
  lemma MirrorIsHeld(fits: seq<Fit>)
    requires Distinct(fits)
    ensures Mirror(fits) == Held(fits) <==> Current(fits)
  {
    hide Mirror, Held, Distinct;
    if Current(fits) {
      forall i | 0 <= i < |fits| ensures fits[i].name in Held(fits) && Held(fits)[fits[i].name] == fits[i].announced {
      }
      MirrorIs(fits, Held(fits));
    }
    if Mirror(fits) == Held(fits) {
      forall i | 0 <= i < |fits| ensures fits[i].contents == fits[i].announced {
        assert Held(fits)[fits[i].name] == fits[i].contents;
      }
    }
  }

  /** No exception in an update comes after the fit has changed. */
  predicate ThrowsKeep<O>(d: Dictionary<O>, op: Operation<O>) {
    op.UpdateFits? ==>
      forall i :: 0 <= i < |d.fits| && op.matches(d.fits[i].name) && op.script(d.fits[i].name).Throws? ==>
        op.script(d.fits[i].name).contents == d.fits[i].contents
  }

  lemma CurrentWithout(fits: seq<Fit>, i: nat)
    requires Current(fits) && i < |fits|
    ensures Current(Without(fits, i))
  {
    var rest := Without(fits, i);
    forall j | 0 <= j < |rest| ensures rest[j].contents == rest[j].announced {
      WithoutAt(fits, i, j);
    }
  }

  lemma CurrentPlaced(fits: seq<Fit>, name: string, contents: Contents)
    requires Current(fits)
    ensures Current(Placed(fits, Fit(name, contents, contents)))
  {
    hide Placed, Place;
    var fit := Fit(name, contents, contents);
    var all := Placed(fits, fit);
    PlacedAt(fits, fit, 0);
    forall j | 0 <= j < |all| ensures all[j].contents == all[j].announced {
      PlacedAt(fits, fit, j);
    }
  }

  lemma CurrentReplaced<O>(d: Dictionary<O>, name: string, contents: Contents)
    requires Current(d.fits)
    ensures Current(Replaced(d, name, contents).fits)
  {
    hide Placed, Without, Current, Find;
    var i := Find(d.fits, name);
    if i < |d.fits| {
      CurrentWithout(d.fits, i);
      CurrentPlaced(Without(d.fits, i), name, contents);
    } else {
      CurrentPlaced(d.fits, name, contents);
    }
  }

  lemma CurrentRange<O>(d: Dictionary<O>, first: nat, last: nat)
    requires Current(d.fits) && first <= last <= |d.fits|
    ensures Current(RangeErased(d, first, last).fits)
  {
    var rest := d.fits[..first] + d.fits[last..];
    forall j | 0 <= j < |rest| ensures rest[j].contents == rest[j].announced {
      assert rest[j] == d.fits[if j < first then j else j + (last - first)];
    }
  }

  /** An operation on up-to-date fits keeps them so if and only if none of its updates fails
      after a change. */
  lemma ApplyKeepsCurrent<O>(d: Dictionary<O>, op: Operation<O>)
    requires Current(d.fits) && GoodPosition(d, op)
    ensures Current(Apply(d, op).fits) <==> ThrowsKeep(d, op)
  {
    hide Replaced, RangeErased, UpdatedFrom, Without;
    if !Refused(d, op) {
      match op
      case Add(name, contents) => CurrentReplaced(d, name, contents);
      case AddOrReplace(name, contents) => CurrentReplaced(d, name, contents);
      case Delete(name) => CurrentWithout(d.fits, Find(d.fits, name));
      case Erase(here) => CurrentWithout(d.fits, here);
      case EraseRange(first, last) => CurrentRange(d, first, last);
      case UpdateFits(matches, script) =>
        assert d.fits[0..] == d.fits && d.fits[..0] == [];
        CurrentIffThrowsKeep(d, 0, matches, script);
      case _ =>
    }
  }

  predicate AllThrowsKeep<O(==)>(d: Dictionary<O>, ops: seq<Operation<O>>)
    requires IsRun(d, ops)
    decreases |ops|
  {
    ops == [] || (ThrowsKeep(d, ops[0]) && AllThrowsKeep(Apply(d, ops[0]), ops[1..]))
  }

  lemma {:induction false} RunKeepsCurrent<O>(d: Dictionary<O>, ops: seq<Operation<O>>)
    requires Current(d.fits) && IsRun(d, ops) && AllThrowsKeep(d, ops)
    ensures Current(Run(d, ops).fits)
    decreases |ops|
  {
    hide Current, Apply, ThrowsKeep;
    if ops != [] {
      ApplyKeepsCurrent(d, ops[0]);
      RunKeepsCurrent(Apply(d, ops[0]), ops[1..]);
    }
  }

  /** From a display of the fits there were, an observer registered once shows after a run
      exactly the fits there are, by name and contents, if and only if every fit holds what
      was last announced of it. */
  lemma DisplayIsHeldIffCurrent<O>(d: Dictionary<O>, ops: seq<Operation<O>>, o: O)
    requires Sorted(d.fits) && Current(d.fits) && Times(d.observers, o) == 1 && IsRun(d, ops) && AllSpare(ops, o)
    ensures var e := Run(d, ops);
            && Distinct(d.fits) && Distinct(e.fits) && |d.log| <= |e.log|
            && (Seen(e, Held(d.fits), |d.log|, o) == Some(Held(e.fits)) <==> Current(e.fits))
  {
    hide Mirror, Held, Run, Seen, Current;
    MirrorOverRun(d, ops, o);
    MirrorIsHeld(d.fits);
    MirrorIsHeld(Run(d, ops).fits);
  }

  /** So over every run in which no update fails after a change, an observer registered once
      shows exactly the fits of the dictionary. */
  lemma DisplayHoldsDictionary<O>(d: Dictionary<O>, ops: seq<Operation<O>>, o: O)
    requires Sorted(d.fits) && Current(d.fits) && Times(d.observers, o) == 1 && IsRun(d, ops) && AllSpare(ops, o)
    requires AllThrowsKeep(d, ops)
    ensures var e := Run(d, ops);
            && Distinct(d.fits) && Distinct(e.fits) && |d.log| <= |e.log|
            && Seen(e, Held(d.fits), |d.log|, o) == Some(Held(e.fits))
  {
    hide Held, Run, Seen, Current, AllThrowsKeep;
    RunKeepsCurrent(d, ops);
    DisplayIsHeldIffCurrent(d, ops, o);
  }
}
