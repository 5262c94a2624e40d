/** The fit dictionary with its fits and observers as shared objects
    (main/Core/CFitDictionary.cpp, main/Core/CHistogrammerFitObserver.cpp). */
module FitDictionaries {
  import opened FitContents
  import opened FitMirror
  import opened FitObservation

  class SpectrumFit {
    const name: string
    var contents: Contents
    ghost var announced: Contents

    constructor (name: string, contents: Contents)
      ensures this.name == name && this.contents == contents
    {
      this.name, this.contents := name, contents;
    }

    ghost function Value(): (fit: Fit)
      reads this
      ensures fit.name == name
    {
      Fit(name, contents, announced)
    }

    /** False stands for an exception. */
    method Update(update: Update) returns (ok: bool)
      modifies `contents
      ensures ok == update.Succeeds? && contents == update.contents
    {
      contents := update.contents;
      ok := update.Succeeds?;
    }
  }

  ghost function Values(fits: seq<SpectrumFit>): (values: seq<Fit>)
    reads fits
    ensures |values| == |fits|
    ensures forall i :: 0 <= i < |fits| ==> values[i] == fits[i].Value()
  {
    seq(|fits|, i requires 0 <= i < |fits| reads fits => fits[i].Value())
  }

  ghost predicate Tidy(values: seq<Fit>) {
    Sorted(values) && Distinct(values)
  }

  lemma TidyWithout(values: seq<Fit>, i: nat)
    requires Tidy(values) && i < |values|
    ensures Tidy(Without(values, i)) && Find(Without(values, i), values[i].name) == |values| - 1
  {
    WithoutSorted(values, i);
    MirrorWithout(values, i);
  }

  lemma TidyPlaced(values: seq<Fit>, fit: Fit)
    requires Tidy(values) && Find(values, fit.name) == |values|
    ensures Tidy(Placed(values, fit))
  {
    PlacedSorted(values, fit);
    PlacedDistinct(values, fit);
  }

  lemma TidySet(values: seq<Fit>, i: nat, fit: Fit)
    requires Tidy(values) && i < |values| && fit.name == values[i].name
    ensures Tidy(values[i := fit])
  {
    SetSorted(values, i, fit);
    MirrorSet(values, i, fit);
  }

  lemma TidyRange(values: seq<Fit>, first: nat, last: nat)
    requires Tidy(values) && first <= last <= |values|
    ensures Tidy(values[..first] + values[last..])
  {
    hide Before;
    var rest := values[..first] + values[last..];
    forall a, b | 0 <= a < b < |rest| ensures Before(rest[a].name, rest[b].name) {
      assert rest[a] == values[if a < first then a else a + (last - first)];
      assert rest[b] == values[if b < first then b else b + (last - first)];
    }
    SortedIsDistinct(rest);
  }

  lemma TidyHeld(d: Dictionary<HistogrammerFitObserver>, op: Operation<HistogrammerFitObserver>)
    requires Tidy(d.fits) && GoodPosition(d, op)
    ensures Distinct(d.fits) && Distinct(Apply(d, op).fits) && Held(Apply(d, op).fits) == HeldAfter(d.fits, op)
    ensures Refused(d, op) <==>
              (op.Add? && op.name in Held(d.fits)) || (op.Delete? && op.name !in Held(d.fits))
  {
    ApplyHeld(d, op);
  }

  lemma TidyApart(fits: seq<SpectrumFit>, i: nat)
    requires Tidy(Values(fits)) && i < |fits|
    ensures forall j :: 0 <= j < |fits| && j != i ==> fits[j] != fits[i]
  {
    assert forall j :: 0 <= j < |fits| ==> Values(fits)[j].name == fits[j].name;
  }

  lemma NewApart(fits: seq<SpectrumFit>, fit: SpectrumFit)
    requires Find(Values(fits), fit.name) == |fits|
    ensures fit !in fits
  {
    assert forall j :: 0 <= j < |fits| ==> Values(fits)[j].name == fits[j].name;
  }

  lemma ValuesRange(fits: seq<SpectrumFit>, first: nat, last: nat)
    requires first <= last <= |fits|
    ensures Values(fits[..first] + fits[last..]) == Values(fits)[..first] + Values(fits)[last..]
  {
  }

  lemma ValuesPlaced(fits: seq<SpectrumFit>, i: nat, fit: SpectrumFit)
    requires i <= |fits|
    ensures Values(fits[..i] + [fit] + fits[i..]) == Values(fits)[..i] + [fit.Value()] + Values(fits)[i..]
  {
  }

  lemma {:induction false} UntoldHears(log: seq<(HistogrammerFitObserver, Notice)>, o: HistogrammerFitObserver)
    requires forall i :: 0 <= i < |log| ==> log[i].0 != o
    ensures Heard(log, o) == []
  {
    if log != [] {
      UntoldHears(log[1..], o);
    }
  }

  /** The observer that drives the displayer. */
  class HistogrammerFitObserver {
    var display: seq<DisplayCall>

    constructor ()
      ensures display == []
    {
      display := [];
    }

    method Add(fit: SpectrumFit)
      modifies `display
      ensures display == old(display) + CallsOf(Added(fit.Value()))
    {
      display := display + [AddFit(fit.name, fit.contents)];
    }

    method Delete(fit: SpectrumFit)
      modifies `display
      ensures display == old(display) + CallsOf(Deleted(fit.Value()))
    {
      display := display + [DeleteFit(fit.name)];
    }

    method Update(fit: SpectrumFit)
      modifies `display
      ensures display == old(display) + CallsOf(Updated(fit.Value()))
    {
      Delete(fit);
      Add(fit);
    }
  }

  class FitDictionary {
    /** In the order of their names. */
    var fits: seq<SpectrumFit>
    var observers: seq<HistogrammerFitObserver>

    ghost var log: seq<(HistogrammerFitObserver, Notice)>

    /** What each observer known so far had done before it was registered. */
    ghost var base: map<HistogrammerFitObserver, seq<DisplayCall>>

    constructor ()
      ensures Valid() && Model() == Dictionary([], [], []) && base == map[]
    {
      fits, observers, log, base := [], [], [], map[];
    }

    ghost function Model(): (d: Dictionary<HistogrammerFitObserver>)
      reads this, fits
    {
      Dictionary(Values(fits), observers, log)
    }

    ghost predicate Valid()
      reads this, fits, base.Keys
    {
      && Tidy(Values(fits))
      && (forall o :: o in observers ==> o in base)
      && Relayed()
    }

    /** Every observer has made exactly the calls for what it was told. */
    ghost predicate Relayed()
      reads this, base.Keys
    {
      && (forall i :: 0 <= i < |log| ==> log[i].0 in base)
      && forall o :: o in base ==> o.display == base[o] + Heard(log, o)
    }

    lemma HeardOne(before: seq<(HistogrammerFitObserver, Notice)>, told: HistogrammerFitObserver, notice: Notice)
      ensures forall o :: Heard(before + [(told, notice)], o) ==
                            Heard(before, o) + if o == told then CallsOf(notice) else []
    {
      forall o ensures Heard(before + [(told, notice)], o) ==
                         Heard(before, o) + if o == told then CallsOf(notice) else []
      {
        var entry: seq<(HistogrammerFitObserver, Notice)> := [(told, notice)];
        HeardAppend(before, entry, o);
        assert entry[1..] == [];
      }
    }

    /** Note what an observer was told, once it has made its calls. */
    ghost method Note(told: HistogrammerFitObserver, notice: Notice)
      requires told in base && forall i :: 0 <= i < |log| ==> log[i].0 in base
      requires forall o :: o in base ==>
                             o.display == base[o] + Heard(log, o) + if o == told then CallsOf(notice) else []
      modifies `log
      ensures Relayed() && log == old(log) + [(told, notice)]
    {
      hide Heard, CallsOf;
      HeardOne(log, told, notice);
      log := log + [(told, notice)];
    }

    method ObserveAdd(fit: SpectrumFit)
      requires Relayed() && forall o :: o in observers ==> o in base
      modifies `log, observers
      ensures Relayed() && Model() == Notify(old(Model()), Added(fit.Value()))
    {
      hide Heard, CallsOf;
      ghost var notice := Added(fit.Value());
      for i := 0 to |observers|
        invariant Relayed() && log == old(log) + ToAll(observers, notice)[..i] && Values(fits) == old(Values(fits))
      {
        observers[i].Add(fit);
        Note(observers[i], notice);
      }
    }

    method ObserveDelete(fit: SpectrumFit)
      requires Relayed() && forall o :: o in observers ==> o in base
      modifies `log, observers
      ensures Relayed() && Model() == Notify(old(Model()), Deleted(fit.Value()))
    {
      hide Heard, CallsOf;
      ghost var notice := Deleted(fit.Value());
      for i := 0 to |observers|
        invariant Relayed() && log == old(log) + ToAll(observers, notice)[..i] && Values(fits) == old(Values(fits))
      {
        observers[i].Delete(fit);
        Note(observers[i], notice);
      }
    }

    method ObserveUpdate(fit: SpectrumFit)
      requires Relayed() && forall o :: o in observers ==> o in base
      modifies `log, observers
      ensures Relayed() && Model() == Notify(old(Model()), Updated(fit.Value()))
    {
      hide Heard, CallsOf;
      ghost var notice := Updated(fit.Value());
      for i := 0 to |observers|
        invariant Relayed() && log == old(log) + ToAll(observers, notice)[..i] && Values(fits) == old(Values(fits))
      {
        observers[i].Update(fit);
        Note(observers[i], notice);
      }
    }

    /** The position of a name, or the end. */
    method FindFit(name: string) returns (i: nat)
      ensures i == Find(Values(fits), name)
    {
      i := 0;
      while i < |fits| && fits[i].name != name
        invariant 0 <= i <= |fits| && forall j :: 0 <= j < i ==> fits[j].name != name
      {
        i := i + 1;
      }
    }

    /** The position a new name gets. */
    method PlaceFit(name: string) returns (i: nat)
      ensures i == Place(Values(fits), name)
    {
      i := 0;
      while i < |fits| && Before(fits[i].name, name)
        invariant 0 <= i <= |fits| && forall j :: 0 <= j < i ==> Before(fits[j].name, name)
      {
        i := i + 1;
      }
    }

    method Erase(here: nat)
      requires Valid() && here < |fits|
      modifies `fits, `log, observers
      ensures Valid() && Model() == Erased(old(Model()), here) && fits == old(fits[..here] + fits[here + 1..])
    {
      hide Heard, Tidy, Find;
      TidyWithout(Values(fits), here);
      ObserveDelete(fits[here]);
      ValuesRange(fits, here, here + 1);
      fits := fits[..here] + fits[here + 1..];
    }

    /** Tell of the whole range, then remove it. */
    method EraseRange(first: nat, last: nat)
      requires Valid() && first <= last <= |fits|
      modifies `fits, `log, observers
      ensures Valid() && Model() == RangeErased(old(Model()), first, last)
    {
      hide Heard, Tidy, Notify, NotifyDeletions;
      ghost var was := Model();
      assert was.fits[first..first] == [];
      NoDeletions(was);
      for i := first to last
        invariant Relayed() && fits == old(fits) && Model() == NotifyDeletions(was, was.fits[first..i])
      {
        DeletionsKeepFits(was, was.fits[first..i], was.fits);
        DeletionsMore(was, was.fits[first..i], was.fits[i]);
        assert was.fits[first..i] + [was.fits[i]] == was.fits[first..i + 1];
        ObserveDelete(fits[i]);
      }
      TidyRange(was.fits, first, last);
      DeletionsKeepFits(was, was.fits[first..last], was.fits);
      ValuesRange(fits, first, last);
      fits := fits[..first] + fits[last..];
    }

    method Delete(name: string) returns (ok: bool)
      requires Valid()
      modifies `fits, `log, observers
      ensures Valid() && ok == !Refused(old(Model()), Operation.Delete(name))
      ensures Model() == Apply(old(Model()), Operation.Delete(name))
      ensures ok == (name in old(Held(Values(fits)))) && Held(Values(fits)) == old(Held(Values(fits))) - {name}
    {
      hide Heard, Tidy, Held, Erased, Find;
      TidyHeld(Model(), Operation.Delete(name));
      var i := FindFit(name);
      if i == |fits| {
        return false;
      }
      Erase(i);
      ok := true;
    }

    method AddOrReplace(fit: SpectrumFit)
      requires Valid()
      modifies `fits, `log, observers, fit`announced
      ensures Valid() && Model() == Apply(old(Model()), Operation.AddOrReplace(fit.name, fit.contents))
      ensures Held(Values(fits)) == old(Held(Values(fits)))[fit.name := fit.contents]
    {
      hide Heard, Tidy, Find, Without, Entered, Notify, Relayed, Held;
      TidyHeld(Model(), Operation.AddOrReplace(fit.name, fit.contents));
      var i := FindFit(fit.name);
      if i < |fits| {
        TidyWithout(Values(fits), i);
        Erase(i);
      }
      Enter(fit);
    }

    /** Put in a fit whose name is not in use. */
    method Enter(fit: SpectrumFit)
      requires Valid() && Find(Values(fits), fit.name) == |fits|
      modifies `fits, `log, observers, fit`announced
      ensures Valid() && Model() == Entered(old(Model()), fit.name, fit.contents)
    {
      hide Heard, Tidy, Find, Place;
      NewApart(fits, fit);
      var i := PlaceFit(fit.name);
      ghost var was := Values(fits);
      fit.announced := fit.contents;
      assert Values(fits) == was;
      TidyPlaced(was, fit.Value());
      ValuesPlaced(fits, i, fit);
      fits := fits[..i] + [fit] + fits[i..];
      ObserveAdd(fit);
    }

    method Add(fit: SpectrumFit) returns (ok: bool)
      requires Valid()
      modifies `fits, `log, observers, fit`announced
      ensures Valid() && ok == !Refused(old(Model()), Operation.Add(fit.name, fit.contents))
      ensures Model() == Apply(old(Model()), Operation.Add(fit.name, fit.contents))
      ensures ok == (fit.name !in old(Held(Values(fits))))
      ensures ok ==> Held(Values(fits)) == old(Held(Values(fits)))[fit.name := fit.contents]
    {
      hide Heard, Tidy, Held, Replaced, Find;
      TidyHeld(Model(), Operation.Add(fit.name, fit.contents));
      var i := FindFit(fit.name);
      if i < |fits| {
        return false;
      }
      AddOrReplace(fit);
      ok := true;
    }

    /** Update the fits that match; exceptions are swallowed, and nobody is told of those. */
    method UpdateFits(matches: string -> bool, script: string -> Update)
      requires Valid()
      modifies `log, observers, fits
      ensures Valid() && Model() == Apply(old(Model()), Operation.UpdateFits(matches, script))
    {
      hide Heard, Tidy, UpdatedAt;
      ghost var was := Model();
      for i := 0 to |fits|
        invariant Valid() && UpdatedFrom(Model(), i, matches, script) == UpdatedFrom(was, 0, matches, script)
      {
        UpdateFit(i, matches, script);
      }
    }

    method UpdateFit(i: nat, matches: string -> bool, script: string -> Update)
      requires Valid() && i < |fits|
      modifies `log, observers, fits[i]
      ensures Valid() && Model() == UpdatedAt(old(Model()), i, matches, script)
    {
      hide Heard, Tidy, Relayed, Notify;
      ghost var was := Values(fits);
      var fit := fits[i];
      if matches(fit.name) {
        TidyApart(fits, i);
        var ok := Renew(fit, script(fit.name));
        assert Values(fits) == was[i := fit.Value()];
        TidySet(was, i, fit.Value());
        if ok {
          ObserveUpdate(fit);
        }
      }
    }

    /** Update one fit; what succeeds will be announced. */
    method Renew(fit: SpectrumFit, update: Update) returns (ok: bool)
      modifies fit
      ensures ok == update.Succeeds?
      ensures fit.Value() == Fit(fit.name, update.contents, if ok then update.contents else old(fit.announced))
    {
      ok := fit.Update(update);
      if ok {
        fit.announced := fit.contents;
      }
    }

    method AddObserver(o: HistogrammerFitObserver)
      requires Valid()
      modifies `observers, `base
      ensures Valid() && Model() == Apply(old(Model()), Operation.AddObserver(o))
      ensures observers == old(observers) + [o]
      ensures base == if o in old(base) then old(base) else old(base)[o := o.display]
    {
      if o !in base {
        UntoldHears(log, o);
        base := base[o := o.display];
      }
      observers := observers + [o];
    }

    /** Remove the first registration of an observer, if there is one. */
    method RemoveObserver(o: HistogrammerFitObserver)
      requires Valid()
      modifies `observers
      ensures Valid() && Model() == Apply(old(Model()), Operation.RemoveObserver(o))
    {
      hide Heard, Tidy, WithoutFirst;
      var i := 0;
      while i < |observers|
        invariant 0 <= i <= |observers| && observers == old(observers)
        invariant forall j :: 0 <= j < i ==> observers[j] != o
        decreases |observers| - i
      {
        if observers[i] == o {
          WithoutFirstAt(observers, i, o);
          observers := observers[..i] + observers[i + 1..];
          return;
        }
        i := i + 1;
      }
      WithoutFirstAt(observers, i, o);
    }
  }

  lemma {:induction false} WithoutFirstAt<O>(observers: seq<O>, i: nat, o: O)
    requires i <= |observers| && (i < |observers| ==> observers[i] == o)
    requires forall j :: 0 <= j < i ==> observers[j] != o
    ensures WithoutFirst(observers, o) == observers[..i] + if i < |observers| then observers[i + 1..] else []
  {
    if i > 0 {
      WithoutFirstAt(observers[1..], i - 1, o);
    }
  }

  lemma NoDeletions(d: Dictionary<HistogrammerFitObserver>)
    ensures NotifyDeletions(d, []) == d
  {
  }

  lemma {:induction false} DeletionsMore(d: Dictionary<HistogrammerFitObserver>, gone: seq<Fit>, fit: Fit)
    ensures NotifyDeletions(d, gone + [fit]) == Notify(NotifyDeletions(d, gone), Deleted(fit))
    decreases |gone|
  {
    if gone == [] {
      assert [fit][1..] == [];
    } else {
      assert (gone + [fit])[1..] == gone[1..] + [fit];
      DeletionsMore(Notify(d, Deleted(gone[0])), gone[1..], fit);
    }
  }
}
