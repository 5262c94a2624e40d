/** Gamma spectra, their folds and the gamma gates (main/Core/CFold.cpp,
    main/Core/CGammaSpectrum.cpp, main/Core/CGammaBand.cpp, main/Core/CGammaContour.cpp). */
module GammaFolds {
  import opened Options

  /** A valid parameter of an event: its id and its value. */
  type Pair = (nat, real)

  /** An event: parameter values by id, None where not valid. */
  type Event = seq<Option<real>>

  /** Membership of a point in a band or contour; its geometry is a parameter. */
  type Area = (real, real) -> bool

  /** Gate types: slice, band, contour, and everything that cannot be a fold. */
  datatype Gate = GammaCut(inCut: real -> bool) | GammaBand(area: Area) | GammaContour(area: Area) | NotGamma

  predicate ValidIn(event: Event, id: nat) {
    id < |event| && event[id].Some?
  }

  /** The spectrum's parameters that the event has, in the spectrum's order. */
  function ParameterList(ids: seq<nat>, event: Event): (list: seq<Pair>)
    ensures |list| <= |ids|
  {
    if ids == [] then []
    else ParameterList(ids[..|ids| - 1], event) +
         var id := ids[|ids| - 1]; if ValidIn(event, id) then [(id, event[id].value)] else []
  }

  /** A pair makes the gate if it lies inside in either orientation. */
  predicate Makes(area: Area, a: real, b: real) {
    area(a, b) || area(b, a)
  }

  function Cut(list: seq<Pair>, remove: nat): seq<Pair> {
    if list == [] then []
    else Cut(list[..|list| - 1], remove) + if list[|list| - 1].0 != remove then [list[|list| - 1]] else []
  }

  function CutTwo(list: seq<Pair>, remove1: nat, remove2: nat): seq<Pair> {
    if list == [] then []
    else
      var last := list[|list| - 1];
      CutTwo(list[..|list| - 1], remove1, remove2) + if last.0 != remove1 && last.0 != remove2 then [last] else []
  }

  /** Index pairs (i, first), (i, first + 1), ... up to but not including (i, upto). */
  function RowTo(i: nat, first: nat, upto: nat): (row: seq<(nat, nat)>)
    requires first <= upto
    ensures |row| == upto - first
  {
    seq(upto - first, k requires 0 <= k < upto - first => (i, first + k))
  }

  function First(diagonal: bool, i: nat): nat {
    if diagonal then i + 1 else 0
  }

  /** The rows below `i`: above the diagonal for one list, complete for two. */
  function Rows(diagonal: bool, i: nat, n: nat): seq<(nat, nat)>
    requires diagonal ==> i <= n
  {
    if i == 0 then [] else Rows(diagonal, i - 1, n) + RowTo(i - 1, First(diagonal, i - 1), n)
  }

  predicate Before(p: (nat, nat), q: (nat, nat)) {
    p.0 < q.0 || (p.0 == q.0 && p.1 < q.1)
  }

  ghost predicate Ordered(pairs: seq<(nat, nat)>) {
    forall k, l :: 0 <= k < l < |pairs| ==> Before(pairs[k], pairs[l])
  }

  /** Rows lists each index pair once, in lexicographic order. */
  lemma {:induction false} RowsExact(diagonal: bool, i: nat, n: nat)
    requires diagonal ==> i <= n
    ensures Ordered(Rows(diagonal, i, n))
    ensures forall p :: p in Rows(diagonal, i, n) <==> p.0 < i && First(diagonal, p.0) <= p.1 < n
  {
    if i != 0 {
      RowsExact(diagonal, i - 1, n);
      var before, row := Rows(diagonal, i - 1, n), RowTo(i - 1, First(diagonal, i - 1), n);
      forall p ensures p in row <==> p.0 == i - 1 && First(diagonal, i - 1) <= p.1 < n {
        if p.0 == i - 1 && First(diagonal, i - 1) <= p.1 < n {
          assert row[p.1 - First(diagonal, i - 1)] == p;
        }
      }
    }
  }

  /** The pairs of a list that satisfy a test, in order. */
  function Choose(test: ((nat, nat)) -> bool, pairs: seq<(nat, nat)>): seq<(nat, nat)> {
    if pairs == [] then []
    else Choose(test, pairs[..|pairs| - 1]) + if test(pairs[|pairs| - 1]) then [pairs[|pairs| - 1]] else []
  }

  lemma {:induction false} ChooseExact(test: ((nat, nat)) -> bool, pairs: seq<(nat, nat)>)
    requires Ordered(pairs)
    ensures Ordered(Choose(test, pairs)) && |Choose(test, pairs)| <= |pairs|
    ensures forall p :: p in Choose(test, pairs) <==> p in pairs && test(p)
  {
    if pairs != [] {
      var init, last := pairs[..|pairs| - 1], pairs[|pairs| - 1];
      assert pairs == init + [last];
      ChooseExact(test, init);
      forall k | 0 <= k < |Choose(test, init)| ensures Before(Choose(test, init)[k], last) {
        var p := Choose(test, init)[k];
        assert p in init;
      }
    }
  }

  lemma ChooseMore(test: ((nat, nat)) -> bool, pairs: seq<(nat, nat)>, p: (nat, nat))
    ensures Choose(test, pairs + [p]) == Choose(test, pairs) + if test(p) then [p] else []
  {
    assert (pairs + [p])[..|pairs|] == pairs;
  }

  lemma {:induction false} RowsCount(i: nat, n: nat)
    requires i <= n
    ensures 2 * |Rows(true, i, n)| == i * (2 * n - i - 1)
  {
    hide RowTo;
    if i != 0 {
      RowsCount(i - 1, n);
      assert |RowTo(i - 1, First(true, i - 1), n)| == n - i;
      OneRowMore(i, n);
    }
  }

  lemma OneRowMore(i: int, n: int)
    ensures (i - 1) * (2 * n - (i - 1) - 1) + 2 * (n - i) == i * (2 * n - i - 1)
  {
    calc {
      (i - 1) * (2 * n - i);
      i * (2 * n - i) - (2 * n - i);
      i * (2 * n - i - 1) + i - (2 * n - i);
    }
  }

  lemma AllPairsCount(n: nat)
    requires 0 < n
    ensures 2 * |Rows(true, n - 1, n)| == n * (n - 1)
  {
    RowsCount(n - 1, n);
    assert (n - 1) * (2 * n - (n - 1) - 1) == (n - 1) * n == n * (n - 1);
  }

  // One list

  function PairTest(area: Area, list: seq<Pair>): ((nat, nat)) -> bool {
    (p: (nat, nat)) => p.0 < |list| && p.1 < |list| && Makes(area, list[p.0].1, list[p.1].1)
  }

  /** The pairs of the list that make the gate. */
  function FoldPairs(area: Area, list: seq<Pair>): seq<(nat, nat)>
    requires list != []
  {
    Choose(PairTest(area, list), Rows(true, |list| - 1, |list|))
  }

  /** The list without the pair's two parameters, one per pair. */
  function CutAll(list: seq<Pair>, pairs: seq<(nat, nat)>): (cuts: seq<seq<Pair>>)
    ensures |cuts| == |pairs|
    ensures forall k :: 0 <= k < |pairs| ==> cuts[k] == CutPair(list, pairs[k])
  {
    if pairs == [] then [] else CutAll(list, pairs[..|pairs| - 1]) + [CutPair(list, pairs[|pairs| - 1])]
  }

  function CutPair(list: seq<Pair>, p: (nat, nat)): seq<Pair> {
    if p.0 < |list| && p.1 < |list| then CutTwo(list, list[p.0].0, list[p.1].0) else list
  }

  lemma CutAllMore(list: seq<Pair>, pairs: seq<(nat, nat)>, p: (nat, nat))
    ensures CutAll(list, pairs + [p]) == CutAll(list, pairs) + [CutPair(list, p)]
  {
    assert (pairs + [p])[..|pairs|] == pairs;
  }

  /** The fold increments once per unordered pair of indices that makes the gate in either
      orientation, in lexicographic order, n(n-1)/2 times at most. */
  lemma FoldPairsExact(area: Area, list: seq<Pair>)
    requires list != []
    ensures var chosen := FoldPairs(area, list);
            && Ordered(chosen)
            && 2 * |chosen| <= |list| * (|list| - 1)
            && forall p :: p in chosen <==> p.0 < p.1 < |list| && Makes(area, list[p.0].1, list[p.1].1)
  {
    hide Rows, RowTo, Choose, Makes, Ordered, Before;
    var n := |list|;
    var test, all := PairTest(area, list), Rows(true, n - 1, n);
    RowsExact(true, n - 1, n);
    AllPairsCount(n);
    ChooseExact(test, all);
    forall p ensures p in Choose(test, all) <==> p.0 < p.1 < n && Makes(area, list[p.0].1, list[p.1].1) {
      assert p in all <==> p.0 < n - 1 && First(true, p.0) <= p.1 < n;
    }
  }

  /** One pass with two ids is two passes with one id each. */
  lemma {:induction false} CutTwoComposes(list: seq<Pair>, a: nat, b: nat)
    ensures CutTwo(list, a, b) == Cut(Cut(list, a), b)
  {
    if list != [] {
      var init, last := list[..|list| - 1], list[|list| - 1];
      CutTwoComposes(init, a, b);
      var cut := Cut(init, a);
      if last.0 != a {
        assert (cut + [last])[..|cut|] == cut;
      } else {
        assert Cut(list, a) == cut + [] == cut;
      }
    }
  }

  ghost predicate DistinctIds(list: seq<Pair>) {
    forall k, l :: 0 <= k < l < |list| ==> list[k].0 != list[l].0
  }

  lemma InitDistinct(list: seq<Pair>)
    requires list != [] && DistinctIds(list)
    ensures DistinctIds(list[..|list| - 1])
  {
    var init := list[..|list| - 1];
    forall k, l | 0 <= k < l < |init| ensures init[k].0 != init[l].0 {
      assert init[k] == list[k] && init[l] == list[l];
    }
  }

  lemma {:induction false} CutTwoAbsent(list: seq<Pair>, a: nat, b: nat)
    requires forall k :: 0 <= k < |list| ==> list[k].0 != a && list[k].0 != b
    ensures CutTwo(list, a, b) == list
  {
    if list != [] {
      CutTwoAbsent(list[..|list| - 1], a, b);
    }
  }

  /** With distinct ids the cut removes exactly the two positions. */
  lemma {:induction false} CutTwoRemovesPair(list: seq<Pair>, i: nat, j: nat)
    requires i < j < |list| && DistinctIds(list)
    ensures CutTwo(list, list[i].0, list[j].0) == list[..i] + list[i + 1..j] + list[j + 1..]
  {
    hide CutTwo;
    var n := |list|;
    var init, last := list[..n - 1], list[n - 1];
    InitDistinct(list);
    CutTwoLast(list, list[i].0, list[j].0);
    if j < n - 1 {
      assert init[i] == list[i] && init[j] == list[j] && last.0 != list[i].0 && last.0 != list[j].0;
      CutTwoRemovesPair(init, i, j);
      assert init[..i] == list[..i] && init[i + 1..j] == list[i + 1..j];
      assert init[j + 1..] + [last] == list[j + 1..];
    } else {
      forall k | 0 <= k < |init| ensures init[k].0 != list[j].0 {
        assert init[k] == list[k];
      }
      CutOneOfTwo(init, i, list[j].0);
      assert init[i] == list[i] && init[i + 1..] == list[i + 1..j] && list[j + 1..] == [];
    }
  }

  lemma CutTwoLast(list: seq<Pair>, a: nat, b: nat)
    requires list != []
    ensures var last := list[|list| - 1];
            CutTwo(list, a, b) == CutTwo(list[..|list| - 1], a, b) + if last.0 != a && last.0 != b then [last] else []
  {
  }

  lemma {:induction false} CutOneOfTwo(list: seq<Pair>, i: nat, other: nat)
    requires i < |list| && DistinctIds(list) && forall k :: 0 <= k < |list| ==> list[k].0 != other
    ensures CutTwo(list, list[i].0, other) == list[..i] + list[i + 1..]
  {
    hide CutTwo;
    var n := |list|;
    var init, last := list[..n - 1], list[n - 1];
    InitDistinct(list);
    CutTwoLast(list, list[i].0, other);
    forall k | 0 <= k < |init| ensures init[k].0 != other {
      assert init[k] == list[k];
    }
    if i < n - 1 {
      assert init[i] == list[i] && last.0 != list[i].0;
      CutOneOfTwo(init, i, other);
      assert init[..i] == list[..i] && init[i + 1..] + [last] == list[i + 1..];
    } else {
      forall k | 0 <= k < |init| ensures init[k].0 != list[i].0 {
        assert init[k] == list[k];
      }
      CutTwoAbsent(init, list[i].0, other);
      assert list[i + 1..] == [] && list[..i] == init;
    }
  }

  // Fold and gate

  /** What a gamma gate answers: some pair of its parameters, both valid, makes the area. */
  ghost predicate InGate(ids: seq<nat>, event: Event, area: Area) {
    exists i, j :: 0 <= i < j < |ids| && PairMakes(area, ids, event, i, j)
  }

  predicate PairMakes(area: Area, ids: seq<nat>, event: Event, i: nat, j: nat)
    requires i < |ids| && j < |ids|
  {
    ValidIn(event, ids[i]) && ValidIn(event, ids[j]) && Makes(area, event[ids[i]].value, event[ids[j]].value)
  }

  ghost predicate SomeMakes(ids: seq<nat>, event: Event, area: Area, v: real) {
    exists i :: 0 <= i < |ids| && ValidIn(event, ids[i]) && Makes(area, event[ids[i]].value, v)
  }

  ghost predicate ListMakes(list: seq<Pair>, area: Area, v: real) {
    exists i :: 0 <= i < |list| && Makes(area, list[i].1, v)
  }

  ghost predicate PairInside(list: seq<Pair>, area: Area) {
    exists i, j :: 0 <= i < j < |list| && Makes(area, list[i].1, list[j].1)
  }

  lemma {:induction false} SomeMakesInList(ids: seq<nat>, event: Event, area: Area, v: real)
    ensures SomeMakes(ids, event, area, v) <==> ListMakes(ParameterList(ids, event), area, v)
  {
    if ids != [] {
      var init, last := ids[..|ids| - 1], ids[|ids| - 1];
      SomeMakesInList(init, event, area, v);
      var list := ParameterList(init, event);
      if SomeMakes(init, event, area, v) {
        var i :| 0 <= i < |init| && ValidIn(event, init[i]) && Makes(area, event[init[i]].value, v);
        assert ids[i] == init[i];
        var k :| 0 <= k < |list| && Makes(area, list[k].1, v);
        assert ParameterList(ids, event)[k] == list[k];
      } else if ValidIn(event, last) && Makes(area, event[last].value, v) {
        assert ParameterList(ids, event)[|list|] == (last, event[last].value);
        assert ids[|ids| - 1] == last;
      } else {
        forall i | 0 <= i < |ids| && ValidIn(event, ids[i]) ensures !Makes(area, event[ids[i]].value, v) {
          assert i < |init| ==> init[i] == ids[i];
        }
        assert forall k :: 0 <= k < |list| ==> !Makes(area, list[k].1, v);
      }
    }
  }

  lemma {:induction false} GateSeesPair(ids: seq<nat>, event: Event, area: Area)
    ensures InGate(ids, event, area) <==> PairInside(ParameterList(ids, event), area)
  {
    if ids != [] {
      var init, last := ids[..|ids| - 1], ids[|ids| - 1];
      GateSeesPair(init, event, area);
      GateByLast(ids, event, area);
      if ValidIn(event, last) {
        SomeMakesInList(init, event, area, event[last].value);
        PairByLast(ParameterList(init, event), (last, event[last].value), area);
      } else {
        assert ParameterList(ids, event) == ParameterList(init, event);
      }
    }
  }

  lemma GateByLast(ids: seq<nat>, event: Event, area: Area)
    requires ids != []
    ensures var init, last := ids[..|ids| - 1], ids[|ids| - 1];
            InGate(ids, event, area) <==>
              InGate(init, event, area) || (ValidIn(event, last) && SomeMakes(init, event, area, event[last].value))
  {
    var n := |ids|;
    var init, last := ids[..n - 1], ids[n - 1];
    if InGate(ids, event, area) {
      var i, j :| 0 <= i < j < n && PairMakes(area, ids, event, i, j);
      assert init[i] == ids[i];
      if j < n - 1 {
        assert init[j] == ids[j];
        assert PairMakes(area, init, event, i, j);
      }
    }
    if InGate(init, event, area) {
      var i, j :| 0 <= i < j < |init| && PairMakes(area, init, event, i, j);
      assert ids[i] == init[i] && ids[j] == init[j];
      assert PairMakes(area, ids, event, i, j);
    }
    if ValidIn(event, last) && SomeMakes(init, event, area, event[last].value) {
      var i :| 0 <= i < |init| && ValidIn(event, init[i]) && Makes(area, event[init[i]].value, event[last].value);
      assert ids[i] == init[i] && ids[n - 1] == last;
      assert PairMakes(area, ids, event, i, n - 1);
    }
  }

  lemma PairByLast(list: seq<Pair>, last: Pair, area: Area)
    ensures PairInside(list + [last], area) <==> PairInside(list, area) || ListMakes(list, area, last.1)
  {
    var all := list + [last];
    if PairInside(all, area) {
      var i, j :| 0 <= i < j < |all| && Makes(area, all[i].1, all[j].1);
      assert all[i] == list[i];
    }
    if PairInside(list, area) {
      var i, j :| 0 <= i < j < |list| && Makes(area, list[i].1, list[j].1);
      assert all[i] == list[i] && all[j] == list[j];
    }
    if ListMakes(list, area, last.1) {
      var i :| 0 <= i < |list| && Makes(area, list[i].1, last.1);
      assert all[i] == list[i] && all[|list|] == last;
    }
  }

  /** Fold and gate agree: over the same parameters, and with at least one of them valid, the
      fold increments the spectrum on an event exactly when the gate is true for it. */
  lemma FoldAgreesWithGate(ids: seq<nat>, event: Event, area: Area)
    requires ParameterList(ids, event) != []
    ensures FoldPairs(area, ParameterList(ids, event)) != [] <==> InGate(ids, event, area)
  {
    hide ParameterList, InGate, FoldPairs;
    var list := ParameterList(ids, event);
    GateSeesPair(ids, event, area);
    FoldPairsExact(area, list);
    if FoldPairs(area, list) != [] {
      assert FoldPairs(area, list)[0] in FoldPairs(area, list);
    }
    if PairInside(list, area) {
      var i: nat, j: nat :| 0 <= i < j < |list| && Makes(area, list[i].1, list[j].1);
      assert (i, j) in FoldPairs(area, list);
    }
  }

  // Two lists

  function GridTest(area: Area, xs: seq<Pair>, ys: seq<Pair>): ((nat, nat)) -> bool {
    (p: (nat, nat)) => p.0 < |xs| && p.1 < |ys| && area(xs[p.0].1, ys[p.1].1)
  }

  /** Two lists are tested in one orientation only, x against y. */
  function GridPairs(area: Area, xs: seq<Pair>, ys: seq<Pair>): seq<(nat, nat)> {
    Choose(GridTest(area, xs, ys), Rows(false, |xs|, |ys|))
  }

  function CutGrid(xs: seq<Pair>, ys: seq<Pair>, pairs: seq<(nat, nat)>): seq<(seq<Pair>, seq<Pair>)> {
    seq(|pairs|, k requires 0 <= k < |pairs| =>
      var p := pairs[k];
      if p.0 < |xs| && p.1 < |ys| then (Cut(xs, xs[p.0].0), Cut(ys, ys[p.1].0)) else ([], []))
  }

  lemma GridPairsExact(area: Area, xs: seq<Pair>, ys: seq<Pair>)
    ensures var chosen := GridPairs(area, xs, ys);
            Ordered(chosen) && forall p :: p in chosen <==> p.0 < |xs| && p.1 < |ys| && area(xs[p.0].1, ys[p.1].1)
  {
    RowsExact(false, |xs|, |ys|);
    ChooseExact(GridTest(area, xs, ys), Rows(false, |xs|, |ys|));
  }

  // The pairs that nested loops have visited

  function Visited(diagonal: bool, i: nat, j: nat, n: nat): seq<(nat, nat)>
    requires (diagonal ==> i <= n) && First(diagonal, i) <= j
  {
    Rows(diagonal, i, n) + RowTo(i, First(diagonal, i), j)
  }

  lemma VisitedSteps(diagonal: bool, i: nat, j: nat, n: nat)
    requires (diagonal ==> i < n) && First(diagonal, i) <= j
    ensures Visited(diagonal, i, First(diagonal, i), n) == Rows(diagonal, i, n)
    ensures Visited(diagonal, i, j + 1, n) == Visited(diagonal, i, j, n) + [(i, j)]
    ensures j == n ==> Visited(diagonal, i, j, n) == Rows(diagonal, i + 1, n)
  {
    assert RowTo(i, First(diagonal, i), j + 1) == RowTo(i, First(diagonal, i), j) + [(i, j)];
  }

  function CutsFor(area: Area, list: seq<Pair>, pairs: seq<(nat, nat)>): seq<seq<Pair>> {
    CutAll(list, Choose(PairTest(area, list), pairs))
  }

  lemma CutsMore(area: Area, list: seq<Pair>, pairs: seq<(nat, nat)>, i: nat, j: nat)
    requires i < |list| && j < |list|
    ensures CutsFor(area, list, pairs + [(i, j)]) == CutsFor(area, list, pairs) +
              if Makes(area, list[i].1, list[j].1) then [CutTwo(list, list[i].0, list[j].0)] else []
  {
    hide CutTwo, Choose, Makes;
    var test := PairTest(area, list);
    ChooseMore(test, pairs, (i, j));
    CutAllMore(list, Choose(test, pairs), (i, j));
  }

  function CutsForGrid(area: Area, xs: seq<Pair>, ys: seq<Pair>, pairs: seq<(nat, nat)>): seq<(seq<Pair>, seq<Pair>)> {
    CutGrid(xs, ys, Choose(GridTest(area, xs, ys), pairs))
  }

  lemma CutsMoreGrid(area: Area, xs: seq<Pair>, ys: seq<Pair>, pairs: seq<(nat, nat)>, i: nat, j: nat)
    requires i < |xs| && j < |ys|
    ensures CutsForGrid(area, xs, ys, pairs + [(i, j)]) == CutsForGrid(area, xs, ys, pairs) +
              if area(xs[i].1, ys[j].1) then [(Cut(xs, xs[i].0), Cut(ys, ys[j].0))] else []
  {
    ChooseMore(GridTest(area, xs, ys), pairs, (i, j));
  }

  lemma RowsNone(area: Area, list: seq<Pair>)
    ensures CutsFor(area, list, Rows(true, 0, |list|)) == []
  {
  }

  lemma GridNone(area: Area, xs: seq<Pair>, ys: seq<Pair>)
    ensures CutsForGrid(area, xs, ys, Rows(false, 0, |ys|)) == []
  {
  }

  lemma FoldPairsCuts(area: Area, list: seq<Pair>)
    requires list != []
    ensures CutsFor(area, list, Rows(true, |list| - 1, |list|)) == CutAll(list, FoldPairs(area, list))
  {
  }

  lemma GridPairsCuts(area: Area, xs: seq<Pair>, ys: seq<Pair>)
    ensures CutsForGrid(area, xs, ys, Rows(false, |xs|, |ys|)) == CutGrid(xs, ys, GridPairs(area, xs, ys))
  {
  }

  // Slices

  /** A slice increments once per parameter inside it, with the others, unless none is left. */
  function SliceIncrements(inCut: real -> bool, list: seq<Pair>, upto: nat): seq<seq<Pair>>
    requires upto <= |list|
  {
    if upto == 0 then []
    else
      var p := list[upto - 1];
      SliceIncrements(inCut, list, upto - 1) + if inCut(p.1) && Cut(list, p.0) != [] then [Cut(list, p.0)] else []
  }

  /** What a fold's gate makes of one parameter list. */
  function FoldIncrements(gate: Gate, list: seq<Pair>): seq<seq<Pair>>
    requires gate.GammaBand? || gate.GammaContour? ==> list != []
  {
    match gate
    case GammaCut(inCut) => SliceIncrements(inCut, list, |list|)
    case GammaBand(area) => CutAll(list, FoldPairs(area, list))
    case GammaContour(area) => CutAll(list, FoldPairs(area, list))
    case NotGamma => [list]
  }

  method CutDownParameters(list: seq<Pair>, removeMe: nat) returns (cut: seq<Pair>)
    ensures cut == Cut(list, removeMe)
  {
    cut := [];
    for i := 0 to |list|
      invariant cut == Cut(list[..i], removeMe)
    {
      assert list[..i + 1][..i] == list[..i];
      if list[i].0 != removeMe {
        cut := cut + [list[i]];
      }
    }
    assert list[..|list|] == list;
  }

  method CutDownParametersTwo(list: seq<Pair>, remove1: nat, remove2: nat) returns (cut: seq<Pair>)
    ensures cut == CutTwo(list, remove1, remove2)
  {
    cut := [];
    for i := 0 to |list|
      invariant cut == CutTwo(list[..i], remove1, remove2)
    {
      assert list[..i + 1][..i] == list[..i];
      var id := list[i].0;
      if id != remove1 && id != remove2 {
        cut := cut + [list[i]];
      }
    }
    assert list[..|list|] == list;
  }

  class GammaSpectrum {
    const parameters: seq<nat>
    const yParameters: seq<nat>
    const deluxe: bool

    /** The gate of the fold. */
    var fold: Gate

    /** The parameter lists the spectrum has been incremented with. */
    var increments: seq<seq<Pair>>
    var increments2: seq<(seq<Pair>, seq<Pair>)>

    constructor (parameters: seq<nat>, yParameters: seq<nat>, deluxe: bool)
      ensures this.parameters == parameters && this.yParameters == yParameters && this.deluxe == deluxe
      ensures fold == NotGamma && increments == [] && increments2 == []
    {
      this.parameters, this.yParameters, this.deluxe := parameters, yParameters, deluxe;
      fold, increments, increments2 := NotGamma, [], [];
    }

    method Fold(gate: Gate)
      modifies `fold
      ensures fold == gate
    {
      fold := gate;
    }

    method CreateParameterList(ids: seq<nat>, event: Event) returns (list: seq<Pair>)
      ensures list == ParameterList(ids, event)
    {
      list := [];
      for i := 0 to |ids|
        invariant list == ParameterList(ids[..i], event)
      {
        assert ids[..i + 1][..i] == ids[..i];
        var id := ids[i];
        if id < |event| {
          if event[id].Some? {
            list := list + [(id, event[id].value)];
          }
        }
      }
      assert ids[..|ids|] == ids;
    }

    /** Sort one event into the spectrum. An empty list makes the loop bound of a band or
        contour fold wrap around, so those need a valid parameter. */
    method Increment(event: Event)
      requires !deluxe && (fold.GammaBand? || fold.GammaContour? ==> ParameterList(parameters, event) != [])
      modifies `increments
      ensures increments == old(increments) + FoldIncrements(fold, ParameterList(parameters, event))
      ensures fold.NotGamma? ==> increments == old(increments) + [ParameterList(parameters, event)]
      ensures fold.GammaBand? || fold.GammaContour? ==>
                (increments != old(increments) <==> InGate(parameters, event, fold.area))
    {
      if fold.GammaBand? || fold.GammaContour? {
        FoldAgreesWithGate(parameters, event, fold.area);
      }
      var list := CreateParameterList(parameters, event);
      match fold
      case GammaCut(inCut) => FoldSlice(inCut, list);
      case GammaBand(area) => FoldArea(area, list);
      case GammaContour(area) => FoldArea(area, list);
      case NotGamma => increments := increments + [list];
    }

    /** Sort one event into a deluxe spectrum; slices are left out. */
    method IncrementDeluxe(event: Event)
      requires deluxe && !fold.GammaCut?
      modifies `increments2
      ensures var xs, ys := ParameterList(parameters, event), ParameterList(yParameters, event);
              increments2 == old(increments2) +
                match fold
                case GammaBand(area) => CutGrid(xs, ys, GridPairs(area, xs, ys))
                case GammaContour(area) => CutGrid(xs, ys, GridPairs(area, xs, ys))
                case _ => [(xs, ys)]
    {
      var xs := CreateParameterList(parameters, event);
      var ys := CreateParameterList(yParameters, event);
      match fold
      case GammaBand(area) => FoldGrid(area, xs, ys);
      case GammaContour(area) => FoldGrid(area, xs, ys);
      case NotGamma => increments2 := increments2 + [(xs, ys)];
    }

    method FoldSlice(inCut: real -> bool, list: seq<Pair>)
      modifies `increments
      ensures increments == old(increments) + SliceIncrements(inCut, list, |list|)
    {
      for i := 0 to |list|
        invariant increments == old(increments) + SliceIncrements(inCut, list, i)
      {
        if inCut(list[i].1) {
          var cut := CutDownParameters(list, list[i].0);
          if |cut| != 0 {
            increments := increments + [cut];
          }
        }
      }
    }

    method FoldArea(area: Area, list: seq<Pair>)
      requires list != []
      modifies `increments
      ensures increments == old(increments) + CutAll(list, FoldPairs(area, list))
    {
      hide CutsFor, Rows, RowTo;
      ghost var n := |list|;
      var i := 0;
      assert CutsFor(area, list, Rows(true, 0, n)) == [] by { RowsNone(area, list); }
      while i < |list| - 1
        invariant 0 <= i <= n - 1
        invariant increments == old(increments) + CutsFor(area, list, Rows(true, i, n))
      {
        var j := i + 1;
        VisitedSteps(true, i, j, n);
        while j < |list|
          invariant i < j <= n
          invariant increments == old(increments) + CutsFor(area, list, Visited(true, i, j, n))
        {
          CutsMore(area, list, Visited(true, i, j, n), i, j);
          VisitedSteps(true, i, j, n);
          if area(list[i].1, list[j].1) || area(list[j].1, list[i].1) {
            var cut := CutDownParametersTwo(list, list[i].0, list[j].0);
            increments := increments + [cut];
          }
          j := j + 1;
        }
        VisitedSteps(true, i, n, n);
        i := i + 1;
      }
      FoldPairsCuts(area, list);
    }

    /** A deluxe spectrum folds its x list against its y list. */
    method FoldGrid(area: Area, xs: seq<Pair>, ys: seq<Pair>)
      modifies `increments2
      ensures increments2 == old(increments2) + CutGrid(xs, ys, GridPairs(area, xs, ys))
    {
      hide CutsForGrid, Rows, RowTo;
      ghost var n := |ys|;
      var i := 0;
      assert CutsForGrid(area, xs, ys, Rows(false, 0, n)) == [] by { GridNone(area, xs, ys); }
      while i < |xs|
        invariant 0 <= i <= |xs|
        invariant increments2 == old(increments2) + CutsForGrid(area, xs, ys, Rows(false, i, n))
      {
        var j := 0;
        VisitedSteps(false, i, j, n);
        while j < |ys|
          invariant 0 <= j <= n
          invariant increments2 == old(increments2) + CutsForGrid(area, xs, ys, Visited(false, i, j, n))
        {
          CutsMoreGrid(area, xs, ys, Visited(false, i, j, n), i, j);
          VisitedSteps(false, i, j, n);
          if area(xs[i].1, ys[j].1) {
            var xCut := CutDownParameters(xs, xs[i].0);
            var yCut := CutDownParameters(ys, ys[j].0);
            increments2 := increments2 + [(xCut, yCut)];
          }
          j := j + 1;
        }
        VisitedSteps(false, i, n, n);
        i := i + 1;
      }
      GridPairsCuts(area, xs, ys);
    }
  }

  /** inGate of a gamma band or contour. */
  method EvaluateGate(area: Area, parameters: seq<nat>, event: Event) returns (inGate: bool)
    requires parameters != []
    ensures inGate <==> InGate(parameters, event, area)
  {
    var i := 0;
    while i < |parameters| - 1
      invariant 0 <= i <= |parameters| - 1
      invariant forall k, l :: 0 <= k < i && k < l < |parameters| ==> !PairMakes(area, parameters, event, k, l)
    {
      var j := i + 1;
      while j < |parameters|
        invariant i < j <= |parameters|
        invariant forall l :: i < l < j ==> !PairMakes(area, parameters, event, i, l)
      {
        var iPar, jPar := parameters[i], parameters[j];
        if iPar < |event| && jPar < |event| {
          if event[iPar].Some? && event[jPar].Some? {
            if area(event[iPar].value, event[jPar].value) || area(event[jPar].value, event[iPar].value) {
              assert PairMakes(area, parameters, event, i, j);
              return true;
            }
          }
        }
        j := j + 1;
      }
      i := i + 1;
    }
    inGate := false;
  }
}
