/** What each operation makes of the fits that a dictionary holds, as a map from names to contents
    (main/Core/CFitDictionary.cpp:69-303). */
module FitContents {
  import opened FitObservation

  lemma HeldIs(fits: seq<Fit>, m: Display)
    requires Distinct(fits)
    requires forall i :: 0 <= i < |fits| ==> fits[i].name in m && m[fits[i].name] == fits[i].contents
    requires forall n :: n in m ==> exists i :: 0 <= i < |fits| && fits[i].name == n
    ensures Held(fits) == m
  {
    hide Held, Find, Distinct;
    forall n | n in m ensures n in Held(fits) && Held(fits)[n] == m[n] {
      var i :| 0 <= i < |fits| && fits[i].name == n;
    }
    forall n | n in Held(fits) ensures n in m {
      assert fits[Find(fits, n)].name == n;
    }
  }

  lemma HeldAt(fits: seq<Fit>, n: string)
    requires Distinct(fits)
    ensures n in Held(fits) <==> Find(fits, n) < |fits|
    ensures n in Held(fits) <==> exists i :: 0 <= i < |fits| && fits[i].name == n
  {
    hide Held, Find, Distinct;
    if Find(fits, n) < |fits| {
      assert fits[Find(fits, n)].name == n;
    }
  }

  lemma HeldPlaced(fits: seq<Fit>, fit: Fit)
    requires Distinct(fits) && fit.name !in Held(fits)
    ensures Distinct(Placed(fits, fit)) && Held(Placed(fits, fit)) == Held(fits)[fit.name := fit.contents]
  {
    hide Place, Placed, Held, Distinct, Find;
    var k, all, m := Place(fits, fit.name), Placed(fits, fit), Held(fits)[fit.name := fit.contents];
    HeldAt(fits, fit.name);
    PlacedDistinct(fits, fit);
    PlacedAt(fits, fit, 0);
    forall i | 0 <= i < |all| ensures all[i].name in m && m[all[i].name] == all[i].contents {
      PlacedAt(fits, fit, i);
    }
    forall n | n in m ensures exists i :: 0 <= i < |all| && all[i].name == n {
      var j := Find(fits, n);
      var i := if n == fit.name then k else if j < k then j else j + 1;
      PlacedAt(fits, fit, i);
      assert all[i].name == n;
    }
    HeldIs(all, m);
  }

  /** The names of a range of fits. */
  ghost function NamesIn(fits: seq<Fit>, first: nat, last: nat): set<string>
    requires first <= last <= |fits|
  {
    set i | first <= i < last :: fits[i].name
  }

  lemma HeldWithoutRange(fits: seq<Fit>, first: nat, last: nat)
    requires Distinct(fits) && first <= last <= |fits|
    ensures var rest := fits[..first] + fits[last..];
            Distinct(rest) && Held(rest) == Held(fits) - NamesIn(fits, first, last)
  {
    hide Held, Find, Distinct;
    var rest, m := fits[..first] + fits[last..], Held(fits) - NamesIn(fits, first, last);
    RestDistinct(fits, first, last);
    forall i | 0 <= i < |rest| ensures rest[i].name in m && m[rest[i].name] == rest[i].contents {
      StaysHeld(fits, first, last, i);
    }
    forall n | n in m ensures exists i :: 0 <= i < |rest| && rest[i].name == n {
      var j := Find(fits, n);
      assert fits[j].name == n;
      assert rest[if j < first then j else j - (last - first)] == fits[j];
    }
    HeldIs(rest, m);
  }

  lemma StaysHeld(fits: seq<Fit>, first: nat, last: nat, i: nat)
    requires Distinct(fits) && first <= last <= |fits| && i < |fits| - (last - first)
    ensures var fit := (fits[..first] + fits[last..])[i];
            && fit.name in Held(fits) && Held(fits)[fit.name] == fit.contents
            && fit.name !in NamesIn(fits, first, last)
  {
    hide Held, Distinct;
    var j := if i < first then i else i + last - first;
    var fit := (fits[..first] + fits[last..])[i];
    assert fit == fits[j];
    if fit.name in NamesIn(fits, first, last) {
      var k :| first <= k < last && fits[k].name == fit.name;
      SameName(fits, j, k);
    }
  }

  lemma SameName(fits: seq<Fit>, j: nat, k: nat)
    requires Distinct(fits) && j < |fits| && k < |fits| && fits[j].name == fits[k].name
    ensures j == k
  {
  }

  lemma RestDistinct(fits: seq<Fit>, first: nat, last: nat)
    requires Distinct(fits) && first <= last <= |fits|
    ensures Distinct(fits[..first] + fits[last..])
  {
    var rest := fits[..first] + fits[last..];
    forall i, j | 0 <= i < j < |rest| ensures rest[i].name != rest[j].name {
      assert rest[i] == fits[if i < first then i else i + last - first];
      assert rest[j] == fits[if j < first then j else j + last - first];
    }
  }

  /** Only the contents of the fits have changed, and how. */
  ghost predicate Rewritten(before: seq<Fit>, after: seq<Fit>, from: nat, matches: string -> bool,
                            script: string -> Update) {
    |after| == |before| &&
    forall j :: 0 <= j < |before| ==>
      && after[j].name == before[j].name
      && after[j].contents == if from <= j && matches(before[j].name) then script(before[j].name).contents
                              else before[j].contents
  }

  lemma {:induction false} UpdatedRewrites<O>(d: Dictionary<O>, from: nat, matches: string -> bool,
                                              script: string -> Update)
    requires from <= |d.fits|
    ensures Rewritten(d.fits, UpdatedFrom(d, from, matches, script).fits, from, matches, script)
    decreases |d.fits| - from
  {
    if from < |d.fits| {
      UpdatedRewrites(UpdatedAt(d, from, matches, script), from + 1, matches, script);
    }
  }

  lemma HeldRewritten(before: seq<Fit>, after: seq<Fit>, matches: string -> bool, script: string -> Update)
    requires Distinct(before) && Rewritten(before, after, 0, matches, script)
    ensures Distinct(after)
    ensures Held(after) == map n | n in Held(before) :: if matches(n) then script(n).contents else Held(before)[n]
  {
    hide Held, Find;
    var m := map n | n in Held(before) :: if matches(n) then script(n).contents else Held(before)[n];
    forall n | n in m ensures exists i :: 0 <= i < |after| && after[i].name == n {
      assert after[Find(before, n)].name == n;
    }
    HeldIs(after, m);
  }

  /** The map that an operation leaves: a name added or replaced holds the new contents, what is
      deleted or erased is gone, and an update changes exactly the matching names. */
  ghost function HeldAfter<O>(fits: seq<Fit>, op: Operation<O>): Display
    requires Distinct(fits)
    requires op.Erase? ==> op.here < |fits|
    requires op.EraseRange? ==> op.first <= op.last <= |fits|
  {
    var held := Held(fits);
    match op
    case Add(n, c) => if n in held then held else held[n := c]
    case AddOrReplace(n, c) => held[n := c]
    case Delete(n) => held - {n}
    case Erase(here) => held - {fits[here].name}
    case EraseRange(first, last) => held - NamesIn(fits, first, last)
    case UpdateFits(matches, script) =>
      map n | n in held :: if matches(n) then script(n).contents else held[n]
    case _ => held
  }

  lemma HeldErased<O>(d: Dictionary<O>, here: nat)
    requires Distinct(d.fits) && here < |d.fits|
    ensures Distinct(Erased(d, here).fits) && Held(Erased(d, here).fits) == Held(d.fits) - {d.fits[here].name}
  {
    hide Held;
    HeldWithoutRange(d.fits, here, here + 1);
    assert NamesIn(d.fits, here, here + 1) == {d.fits[here].name};
  }

  lemma HeldReplaced<O>(d: Dictionary<O>, n: string, c: Contents)
    requires Distinct(d.fits)
    ensures Distinct(Replaced(d, n, c).fits) && Held(Replaced(d, n, c).fits) == Held(d.fits)[n := c]
  {
    hide Held, Placed, Without, Find, Distinct;
    HeldAt(d.fits, n);
    var i := Find(d.fits, n);
    if i < |d.fits| {
      HeldErased(d, i);
      HeldPlaced(Erased(d, i).fits, Fit(n, c, c));
      assert (Held(d.fits) - {n})[n := c] == Held(d.fits)[n := c];
    } else {
      HeldPlaced(d.fits, Fit(n, c, c));
    }
  }

  /** Every operation does to the fits by name what it does to a map; adding a name in use and
      deleting one that is not are all that is refused. */
  lemma ApplyHeld<O>(d: Dictionary<O>, op: Operation<O>)
    requires Sorted(d.fits) && GoodPosition(d, op)
    ensures Distinct(d.fits) && Distinct(Apply(d, op).fits)
    ensures Held(Apply(d, op).fits) == HeldAfter(d.fits, op)
    ensures Refused(d, op) <==>
              (op.Add? && op.name in Held(d.fits)) || (op.Delete? && op.name !in Held(d.fits))
  {
    hide Held, Replaced, Erased, UpdatedFrom, Find, Distinct, Sorted, Rewritten;
    SortedIsDistinct(d.fits);
    match op
    case Add(n, c) =>
      HeldAt(d.fits, n);
      HeldReplaced(d, n, c);
    case AddOrReplace(n, c) => HeldReplaced(d, n, c);
    case Delete(n) =>
      HeldAt(d.fits, n);
      if Find(d.fits, n) < |d.fits| {
        HeldErased(d, Find(d.fits, n));
      }
    case Erase(here) => HeldErased(d, here);
    case EraseRange(first, last) => HeldWithoutRange(d.fits, first, last);
    case UpdateFits(matches, script) =>
      UpdatedRewrites(d, 0, matches, script);
      HeldRewritten(d.fits, UpdatedFrom(d, 0, matches, script).fits, matches, script);
    case _ =>
  }

  /** Each observer hears of a notice once per registration, in the order of registrations. */
  lemma NotifiedInOrder<O>(d: Dictionary<O>, notice: Notice, k: nat)
    requires k < |d.observers|
    ensures var now := Notify(d, notice);
            && |now.log| == |d.log| + |d.observers| && now.log[..|d.log|] == d.log
            && now.log[|d.log| + k] == (d.observers[k], notice) && now.fits == d.fits
  {
  }
}
