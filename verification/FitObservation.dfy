/** The fit dictionary and what its observers are told (main/Core/CFitDictionary.cpp,
    main/Core/CHistogrammerFitObserver.cpp). */
module FitObservation {
  import opened Options

  type Contents = int

  /** A fit by name, with its contents and those that observers were last told of. */
  datatype Fit = Fit(name: string, contents: Contents, announced: Contents)

  datatype Notice = Added(fit: Fit) | Deleted(fit: Fit) | Updated(fit: Fit)

  /** How updating a fit goes; an exception may come after the contents have changed. */
  datatype Update = Succeeds(contents: Contents) | Throws(contents: Contents)

  datatype Dictionary<O> = Dictionary(fits: seq<Fit>, observers: seq<O>, log: seq<(O, Notice)>)

  datatype Operation<O> =
    | Add(name: string, contents: Contents)
    | AddOrReplace(name: string, contents: Contents)
    | Delete(name: string)
    | Erase(here: nat)
    | EraseRange(first: nat, last: nat)
    | UpdateFits(matches: string -> bool, script: string -> Update)
    | AddObserver(o: O)
    | RemoveObserver(o: O)

  // The order of names

  predicate Before(a: string, b: string) {
    b != "" && (a == "" || a[0] < b[0] || (a[0] == b[0] && Before(a[1..], b[1..])))
  }

  lemma {:induction false} BeforeIsStrict(a: string, b: string)
    ensures Before(a, b) ==> a != b
    ensures a != b ==> Before(a, b) || Before(b, a)
  {
    if a != "" && b != "" {
      BeforeIsStrict(a[1..], b[1..]);
      if a[0] == b[0] && a[1..] == b[1..] {
        assert a == [a[0]] + a[1..] && b == [b[0]] + b[1..];
      }
    }
  }

  lemma {:induction false} BeforeIsTransitive(a: string, b: string, c: string)
    requires Before(a, b) && Before(b, c)
    ensures Before(a, c)
  {
    if a != "" && a[0] == b[0] == c[0] {
      BeforeIsTransitive(a[1..], b[1..], c[1..]);
    }
  }

  /** Two names agree up to some place, where the first one ends or has the lesser character. */
  predicate LessAt(a: string, b: string, k: nat) {
    k <= |a| && k < |b| && a[..k] == b[..k] && (k == |a| || a[k] < b[k])
  }

  lemma {:induction false} BeforeIsLexicographic(a: string, b: string)
    ensures Before(a, b) <==> exists k: nat :: LessAt(a, b, k)
  {
    forall k: nat | LessAt(a, b, k) && k > 0 ensures a != "" && a[0] == b[0] {
      SameStart(a, b, k);
    }
    if a == "" || b == "" || a[0] != b[0] {
      assert LessAt(a, b, 0) <==> Before(a, b);
    } else {
      BeforeIsLexicographic(a[1..], b[1..]);
      forall k: nat | LessAt(a[1..], b[1..], k) ensures LessAt(a, b, k + 1) {
        assert a[..k + 1] == [a[0]] + a[1..][..k] && b[..k + 1] == [b[0]] + b[1..][..k];
      }
      forall k: nat | LessAt(a, b, k) ensures k > 0 && LessAt(a[1..], b[1..], k - 1) {
        assert a[1..][..k - 1] == a[..k][1..] && b[1..][..k - 1] == b[..k][1..];
      }
    }
  }

  lemma SameStart(a: string, b: string, k: nat)
    requires LessAt(a, b, k) && k > 0
    ensures a != "" && a[0] == b[0]
  {
    assert a[0] == a[..k][0] && b[0] == b[..k][0];
  }

  ghost predicate Sorted(fits: seq<Fit>) {
    forall i, j :: 0 <= i < j < |fits| ==> Before(fits[i].name, fits[j].name)
  }

  ghost predicate Distinct(fits: seq<Fit>) {
    forall i, j :: 0 <= i < j < |fits| ==> fits[i].name != fits[j].name
  }

  lemma SortedIsDistinct(fits: seq<Fit>)
    requires Sorted(fits)
    ensures Distinct(fits)
  {
    forall i, j | 0 <= i < j < |fits| ensures fits[i].name != fits[j].name {
      BeforeIsStrict(fits[i].name, fits[j].name);
    }
  }

  /** The position of a name, or the end. */
  function Find(fits: seq<Fit>, name: string): (i: nat)
    ensures i <= |fits| && (i < |fits| ==> fits[i].name == name)
    ensures forall j :: 0 <= j < i ==> fits[j].name != name
  {
    if fits == [] || fits[0].name == name then 0 else 1 + Find(fits[1..], name)
  }

  /** Where a new name goes. */
  function Place(fits: seq<Fit>, name: string): (i: nat)
    ensures i <= |fits| && forall j :: 0 <= j < i ==> Before(fits[j].name, name)
    ensures i < |fits| ==> !Before(fits[i].name, name)
  {
    if fits == [] || !Before(fits[0].name, name) then 0 else 1 + Place(fits[1..], name)
  }

  function Placed(fits: seq<Fit>, fit: Fit): seq<Fit> {
    var i := Place(fits, fit.name);
    fits[..i] + [fit] + fits[i..]
  }

  lemma PlacedAt(fits: seq<Fit>, fit: Fit, i: nat)
    requires i <= |fits|
    ensures |Placed(fits, fit)| == |fits| + 1
    ensures var k := Place(fits, fit.name);
            Placed(fits, fit)[i] == if i < k then fits[i] else if i == k then fit else fits[i - 1]
  {
  }

  lemma PlacedSorted(fits: seq<Fit>, fit: Fit)
    requires Sorted(fits) && Find(fits, fit.name) == |fits|
    ensures Sorted(Placed(fits, fit))
  {
    hide Before, Place, Placed;
    var k, all := Place(fits, fit.name), Placed(fits, fit);
    PlacedAt(fits, fit, 0);
    forall i, j | 0 <= i < j < |all| ensures Before(all[i].name, all[j].name) {
      PlacedAt(fits, fit, i);
      PlacedAt(fits, fit, j);
      if i == k {
        FollowsPlace(fits, fit.name, j - 1);
      }
    }
  }

  lemma FollowsPlace(fits: seq<Fit>, name: string, i: nat)
    requires Sorted(fits) && Find(fits, name) == |fits| && Place(fits, name) <= i < |fits|
    ensures Before(name, fits[i].name)
  {
    var k := Place(fits, name);
    BeforeIsStrict(name, fits[k].name);
    if i > k {
      BeforeIsTransitive(name, fits[k].name, fits[i].name);
    }
  }

  // Telling the observers

  function ToAll<O>(observers: seq<O>, notice: Notice): (entries: seq<(O, Notice)>)
    ensures |entries| == |observers|
  {
    seq(|observers|, i requires 0 <= i < |observers| => (observers[i], notice))
  }

  function Notify<O>(d: Dictionary<O>, notice: Notice): Dictionary<O> {
    d.(log := d.log + ToAll(d.observers, notice))
  }

  function NotifyDeletions<O>(d: Dictionary<O>, fits: seq<Fit>): Dictionary<O>
    decreases |fits|
  {
    if fits == [] then d else NotifyDeletions(Notify(d, Deleted(fits[0])), fits[1..])
  }

  // Operations

  function Without(fits: seq<Fit>, i: nat): (rest: seq<Fit>)
    requires i < |fits|
    ensures |rest| == |fits| - 1
  {
    fits[..i] + fits[i + 1..]
  }

  function Erased<O>(d: Dictionary<O>, here: nat): Dictionary<O>
    requires here < |d.fits|
  {
    Notify(d, Deleted(d.fits[here])).(fits := Without(d.fits, here))
  }

  /** All the observers are told of the whole range before any of it goes. */
  function RangeErased<O>(d: Dictionary<O>, first: nat, last: nat): Dictionary<O>
    requires first <= last <= |d.fits|
  {
    NotifyDeletions(d, d.fits[first..last]).(fits := d.fits[..first] + d.fits[last..])
  }

  function Entered<O>(d: Dictionary<O>, name: string, contents: Contents): Dictionary<O> {
    var fit := Fit(name, contents, contents);
    Notify(d.(fits := Placed(d.fits, fit)), Added(fit))
  }

  function Replaced<O>(d: Dictionary<O>, name: string, contents: Contents): Dictionary<O> {
    var i := Find(d.fits, name);
    Entered(if i < |d.fits| then Erased(d, i) else d, name, contents)
  }

  /** Update one fit; observers hear of it unless there was an exception. */
  function UpdatedAt<O>(d: Dictionary<O>, i: nat, matches: string -> bool, script: string -> Update): Dictionary<O>
    requires i < |d.fits|
  {
    var fit := d.fits[i];
    if !matches(fit.name) then d
    else
      match script(fit.name)
      case Throws(c) => d.(fits := d.fits[i := fit.(contents := c)])
      case Succeeds(c) => Notify(d.(fits := d.fits[i := Fit(fit.name, c, c)]), Updated(Fit(fit.name, c, c)))
  }

  function UpdatedFrom<O>(d: Dictionary<O>, i: nat, matches: string -> bool, script: string -> Update): Dictionary<O>
    requires i <= |d.fits|
    decreases |d.fits| - i
  {
    if i == |d.fits| then d else UpdatedFrom(UpdatedAt(d, i, matches, script), i + 1, matches, script)
  }

  /** The list without the first occurrence of an observer. */
  function WithoutFirst<O(==)>(observers: seq<O>, o: O): seq<O> {
    if observers == [] then []
    else if observers[0] == o then observers[1..]
    else [observers[0]] + WithoutFirst(observers[1..], o)
  }

  /** Positions must be ones of the dictionary. */
  predicate GoodPosition<O>(d: Dictionary<O>, op: Operation<O>) {
    match op
    case Erase(here) => here < |d.fits|
    case EraseRange(first, last) => first <= last <= |d.fits|
    case _ => true
  }

  /** Adding a name twice and deleting a missing one are refused. */
  predicate Refused<O>(d: Dictionary<O>, op: Operation<O>) {
    match op
    case Add(name, _) => Find(d.fits, name) < |d.fits|
    case Delete(name) => Find(d.fits, name) == |d.fits|
    case _ => false
  }

  function Apply<O(==)>(d: Dictionary<O>, op: Operation<O>): Dictionary<O>
    requires GoodPosition(d, op)
  {
    if Refused(d, op) then d else
    match op
    case Add(name, contents) => Replaced(d, name, contents)
    case AddOrReplace(name, contents) => Replaced(d, name, contents)
    case Delete(name) => Erased(d, Find(d.fits, name))
    case Erase(here) => Erased(d, here)
    case EraseRange(first, last) => RangeErased(d, first, last)
    case UpdateFits(matches, script) => UpdatedFrom(d, 0, matches, script)
    case AddObserver(o) => d.(observers := d.observers + [o])
    case RemoveObserver(o) => d.(observers := WithoutFirst(d.observers, o))
  }

  predicate IsRun<O(==)>(d: Dictionary<O>, ops: seq<Operation<O>>)
    decreases |ops|
  {
    ops == [] || (GoodPosition(d, ops[0]) && IsRun(Apply(d, ops[0]), ops[1..]))
  }

  function Run<O(==)>(d: Dictionary<O>, ops: seq<Operation<O>>): Dictionary<O>
    requires IsRun(d, ops)
    decreases |ops|
  {
    if ops == [] then d else Run(Apply(d, ops[0]), ops[1..])
  }

  // The histogrammer's observer

  datatype DisplayCall = AddFit(name: string, contents: Contents) | DeleteFit(name: string)

  function CallsOf(notice: Notice): seq<DisplayCall> {
    match notice
    case Added(fit) => [AddFit(fit.name, fit.contents)]
    case Deleted(fit) => [DeleteFit(fit.name)]
    case Updated(fit) => [DeleteFit(fit.name), AddFit(fit.name, fit.contents)]
  }

  /** The calls an observer makes for what it hears. */
  function Heard<O(==)>(log: seq<(O, Notice)>, o: O): seq<DisplayCall> {
    if log == [] then [] else (if log[0].0 == o then CallsOf(log[0].1) else []) + Heard(log[1..], o)
  }

  type Display = map<string, Contents>

  /** What a display shows after some calls; None once it is to add what it shows already or
      delete what it does not show. */
  function Show(display: Display, calls: seq<DisplayCall>): Option<Display>
    decreases |calls|
  {
    if calls == [] then Some(display)
    else
      match calls[0]
      case AddFit(name, contents) =>
        if name in display then None else Show(display[name := contents], calls[1..])
      case DeleteFit(name) =>
        if name !in display then None else Show(display - {name}, calls[1..])
  }

  function Times<O(==)>(observers: seq<O>, o: O): nat {
    if observers == [] then 0 else (if observers[0] == o then 1 else 0) + Times(observers[1..], o)
  }

  lemma {:induction false} ShowAppend(display: Display, a: seq<DisplayCall>, b: seq<DisplayCall>)
    ensures Show(display, a + b) == if Show(display, a).None? then None else Show(Show(display, a).value, b)
    decreases |a|
  {
    if a == [] {
      assert a + b == b;
    } else {
      assert (a + b)[1..] == a[1..] + b;
      match a[0]
      case AddFit(name, contents) => ShowAppend(display[name := contents], a[1..], b);
      case DeleteFit(name) => ShowAppend(display - {name}, a[1..], b);
    }
  }

  lemma {:induction false} HeardAppend<O>(a: seq<(O, Notice)>, b: seq<(O, Notice)>, o: O)
    ensures Heard(a + b, o) == Heard(a, o) + Heard(b, o)
    decreases |a|
  {
    if a == [] {
      assert a + b == b;
    } else {
      assert (a + b)[1..] == a[1..] + b;
      HeardAppend(a[1..], b, o);
    }
  }

  function Repeated(calls: seq<DisplayCall>, n: nat): seq<DisplayCall> {
    if n == 0 then [] else calls + Repeated(calls, n - 1)
  }

  lemma {:induction false} HeardOfAll<O>(observers: seq<O>, notice: Notice, o: O)
    ensures Heard(ToAll(observers, notice), o) == Repeated(CallsOf(notice), Times(observers, o))
  {
    if observers != [] {
      assert ToAll(observers, notice)[1..] == ToAll(observers[1..], notice);
      HeardOfAll(observers[1..], notice, o);
    }
  }

  /** What an observer's display shows, of all that was logged from some point on. */
  function Seen<O(==)>(d: Dictionary<O>, base: Display, start: nat, o: O): Option<Display>
    requires start <= |d.log|
  {
    Show(base, Heard(d.log[start..], o))
  }

  lemma NotifySeen<O>(d: Dictionary<O>, notice: Notice, base: Display, start: nat, o: O)
    requires start <= |d.log|
    ensures start <= |Notify(d, notice).log|
    ensures Seen(Notify(d, notice), base, start, o) ==
              if Seen(d, base, start, o).None? then None
              else Show(Seen(d, base, start, o).value, Repeated(CallsOf(notice), Times(d.observers, o)))
  {
    hide Show, Heard, CallsOf, Repeated, Times;
    var more := ToAll(d.observers, notice);
    assert Notify(d, notice).log[start..] == d.log[start..] + more;
    HeardAppend(d.log[start..], more, o);
    HeardOfAll(d.observers, notice, o);
    ShowAppend(base, Heard(d.log[start..], o), Heard(more, o));
  }

  /** The announced contents by name. */
  ghost function Mirror(fits: seq<Fit>): (m: Display)
    requires Distinct(fits)
    ensures forall i :: 0 <= i < |fits| ==> fits[i].name in m && m[fits[i].name] == fits[i].announced
    ensures forall n :: n in m ==> Find(fits, n) < |fits|
  {
    var names := set i | 0 <= i < |fits| :: fits[i].name;
    map n | n in names :: fits[Find(fits, n)].announced
  }

  lemma MirrorIs(fits: seq<Fit>, m: Display)
    requires Distinct(fits)
    requires forall i :: 0 <= i < |fits| ==> fits[i].name in m && m[fits[i].name] == fits[i].announced
    requires forall n :: n in m ==> Find(fits, n) < |fits|
    ensures Mirror(fits) == m
  {
    hide Mirror, Find, Distinct;
    forall n | n in m ensures n in Mirror(fits) && Mirror(fits)[n] == m[n] {
      assert fits[Find(fits, n)].name == n;
    }
    forall n | n in Mirror(fits) ensures n in m {
      assert fits[Find(fits, n)].name == n;
    }
  }

  lemma PlacedDistinct(fits: seq<Fit>, fit: Fit)
    requires Distinct(fits) && Find(fits, fit.name) == |fits|
    ensures Distinct(Placed(fits, fit)) && fit.name !in Mirror(fits)
  {
    hide Place, Placed;
    var all := Placed(fits, fit);
    PlacedAt(fits, fit, 0);
    forall i, j | 0 <= i < j < |all| ensures all[i].name != all[j].name {
      PlacedAt(fits, fit, i);
      PlacedAt(fits, fit, j);
    }
  }

  lemma MirrorPlaced(fits: seq<Fit>, fit: Fit)
    requires Distinct(fits) && Find(fits, fit.name) == |fits|
    ensures Distinct(Placed(fits, fit)) && fit.name !in Mirror(fits)
    ensures Mirror(Placed(fits, fit)) == Mirror(fits)[fit.name := fit.announced]
  {
    hide Place, Placed, Mirror, Distinct, Find;
    var k, all, m := Place(fits, fit.name), Placed(fits, fit), Mirror(fits)[fit.name := fit.announced];
    PlacedDistinct(fits, fit);
    PlacedAt(fits, fit, 0);
    forall i | 0 <= i < |all| ensures all[i].name in m && m[all[i].name] == all[i].announced {
      PlacedAt(fits, fit, i);
    }
    forall n | n in m ensures Find(all, n) < |all| {
      var j := Find(fits, n);
      PlacedAt(fits, fit, if n == fit.name then k else if j < k then j else j + 1);
    }
    MirrorIs(all, m);
  }

  lemma WithoutAt(fits: seq<Fit>, i: nat, j: nat)
    requires i < |fits| && j < |fits| - 1
    ensures Without(fits, i)[j] == fits[if j < i then j else j + 1]
  {
  }

  lemma WithoutDistinct(fits: seq<Fit>, i: nat)
    requires Distinct(fits) && i < |fits|
    ensures Distinct(Without(fits, i)) && fits[i].name in Mirror(fits)
    ensures Find(Without(fits, i), fits[i].name) == |fits| - 1
  {
    var rest := Without(fits, i);
    assert forall j :: 0 <= j < |rest| ==> rest[j] == fits[if j < i then j else j + 1];
  }

  lemma MirrorWithout(fits: seq<Fit>, i: nat)
    requires Distinct(fits) && i < |fits|
    ensures Distinct(Without(fits, i)) && fits[i].name in Mirror(fits)
    ensures Find(Without(fits, i), fits[i].name) == |fits| - 1
    ensures Mirror(Without(fits, i)) == Mirror(fits) - {fits[i].name}
  {
    hide Without, Mirror, Find;
    var rest, m := Without(fits, i), Mirror(fits) - {fits[i].name};
    WithoutDistinct(fits, i);
    forall j | 0 <= j < |rest| ensures rest[j].name in m && m[rest[j].name] == rest[j].announced {
      WithoutAt(fits, i, j);
    }
    forall n | n in m ensures Find(rest, n) < |rest| {
      var j := Find(fits, n);
      WithoutAt(fits, i, if j < i then j else j - 1);
    }
    MirrorIs(rest, m);
  }

  lemma MirrorSet(fits: seq<Fit>, i: nat, fit: Fit)
    requires Distinct(fits) && i < |fits| && fit.name == fits[i].name
    ensures Distinct(fits[i := fit]) && fit.name in Mirror(fits)
    ensures Mirror(fits[i := fit]) == Mirror(fits)[fit.name := fit.announced]
  {
    var all, m := fits[i := fit], Mirror(fits)[fit.name := fit.announced];
    assert forall j :: 0 <= j < |all| ==> all[j].name == fits[j].name;
    assert Distinct(all);
    forall n | n in m ensures Find(all, n) < |all| {
      assert all[Find(fits, n)].name == n;
    }
    MirrorIs(all, m);
  }

  /** The contents by name. */
  ghost function Held(fits: seq<Fit>): (m: Display)
    requires Distinct(fits)
    ensures forall i :: 0 <= i < |fits| ==> fits[i].name in m && m[fits[i].name] == fits[i].contents
    ensures forall n :: n in m ==> Find(fits, n) < |fits|
  {
    var names := set i | 0 <= i < |fits| :: fits[i].name;
    map n | n in names :: fits[Find(fits, n)].contents
  }
}
