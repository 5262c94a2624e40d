/** What an event adds to a gamma spectrum: which lists, of which parameters, in which order
    (main/Core/CFold.cpp:170-387, main/Core/CGammaSpectrum.cpp:170-188, 262-278). */
module GammaIncrements {
  import opened Sequences
  import opened GammaFolds

  /** A list without one place. */
  function Dropped(list: seq<Pair>, i: nat): (rest: seq<Pair>)
    requires i < |list|
    ensures |rest| == |list| - 1
  {
    list[..i] + list[i + 1..]
  }

  // The list of an event

  function ValidAt(ids: seq<nat>, event: Event): nat -> bool {
    (i: nat) => i < |ids| && ids[i] < |event| && event[ids[i]].Some?
  }

  /** Each pair of the list is the parameter at its place, with its own value. */
  ghost predicate PairsAt(list: seq<Pair>, ids: seq<nat>, event: Event, at: seq<nat>) {
    |list| == |at| &&
    forall k :: 0 <= k < |at| ==>
      && at[k] < |ids| && ids[at[k]] < |event| && event[ids[at[k]]].Some?
      && list[k] == (ids[at[k]], event[ids[at[k]]].value)
  }

  /** The list holds exactly the spectrum's parameters that are valid, in their order. */
  lemma {:induction false} ParameterListExact(ids: seq<nat>, event: Event) returns (at: seq<nat>)
    ensures Selects(at, |ids|, ValidAt(ids, event)) && PairsAt(ParameterList(ids, event), ids, event, at)
  {
    hide Selects, ValidAt, PairsAt, ParameterList;
    at := [];
    ListLast(ids, event);
    if ids == [] {
      SelectsNone(ValidAt(ids, event));
    } else {
      var n := |ids| - 1;
      var init, test := ids[..n], ValidAt(ids, event);
      at := ParameterListExact(init, event);
      forall i: nat | i < n ensures ValidAt(init, event)(i) == test(i) {
        ValidSame(ids, event, n, i);
      }
      SelectsSame(at, n, ValidAt(init, event), test);
      SelectsMore(at, n, test);
      PairsMore(ParameterList(init, event), ids, event, at);
      assert ParameterList(init, event) + [] == ParameterList(init, event);
      if test(n) {
        at := at + [n];
      }
    }
  }

  lemma PairsMore(list: seq<Pair>, ids: seq<nat>, event: Event, at: seq<nat>)
    requires ids != [] && PairsAt(list, ids[..|ids| - 1], event, at)
    ensures PairsAt(list, ids, event, at)
    ensures var n := |ids| - 1;
            ids[n] < |event| && event[ids[n]].Some? ==>
              PairsAt(list + [(ids[n], event[ids[n]].value)], ids, event, at + [n])
  {
    forall k | 0 <= k < |at| ensures at[k] < |ids| - 1 && ids[..|ids| - 1][at[k]] == ids[at[k]] {
    }
  }

  lemma ValidSame(ids: seq<nat>, event: Event, n: nat, i: nat)
    requires i < n <= |ids|
    ensures ValidAt(ids[..n], event)(i) == ValidAt(ids, event)(i) && ids[..n][i] == ids[i]
  {
  }

  lemma ListLast(ids: seq<nat>, event: Event)
    ensures ids == [] ==> ParameterList(ids, event) == [] && PairsAt([], ids, event, [])
    ensures ids != [] ==>
              var n := |ids| - 1;
              && (ValidAt(ids, event)(n) <==> ids[n] < |event| && event[ids[n]].Some?)
              && ParameterList(ids, event)
                 == ParameterList(ids[..n], event) +
                    if ValidAt(ids, event)(n) then [(ids[n], event[ids[n]].value)] else []
  {
  }

  /** Parameters that differ make for a list whose ids differ. */
  lemma ListHasDistinctIds(ids: seq<nat>, event: Event)
    requires forall i, j :: 0 <= i < j < |ids| ==> ids[i] != ids[j]
    ensures DistinctIds(ParameterList(ids, event))
  {
    hide ParameterList, Selects;
    var list := ParameterList(ids, event);
    var at := ParameterListExact(ids, event);
    forall k, l | 0 <= k < l < |list| ensures list[k].0 != list[l].0 {
      assert at[k] < at[l] by { Ascending(at, |ids|, ValidAt(ids, event), k, l); }
    }
  }

  lemma Ascending(at: seq<nat>, n: nat, test: nat -> bool, k: nat, l: nat)
    requires Selects(at, n, test) && k < l < |at|
    ensures at[k] < at[l]
  {
  }

  // Bands and contours

  /** A band or contour fold adds, for every pair of places that lies inside in either
      orientation, in lexicographic order, the list without those two places. */
  lemma AreaIncrementsExact(gate: Gate, list: seq<Pair>) returns (pairs: seq<(nat, nat)>)
    requires (gate.GammaBand? || gate.GammaContour?) && list != [] && DistinctIds(list)
    ensures Ordered(pairs) && |FoldIncrements(gate, list)| == |pairs|
    ensures forall p :: p in pairs <==>
              p.0 < p.1 < |list| && (gate.area(list[p.0].1, list[p.1].1) || gate.area(list[p.1].1, list[p.0].1))
    ensures forall k :: 0 <= k < |pairs| ==>
              var i, j := pairs[k].0, pairs[k].1;
              i < j < |list| && FoldIncrements(gate, list)[k] == list[..i] + list[i + 1..j] + list[j + 1..]
  {
    hide FoldPairs, CutTwo, DistinctIds, Ordered;
    pairs := FoldPairs(gate.area, list);
    FoldPairsExact(gate.area, list);
    forall k | 0 <= k < |pairs|
      ensures var i, j := pairs[k].0, pairs[k].1;
              i < j < |list| && FoldIncrements(gate, list)[k] == list[..i] + list[i + 1..j] + list[j + 1..]
    {
      assert pairs[k] in pairs;
      CutTwoRemovesPair(list, pairs[k].0, pairs[k].1);
    }
  }

  // Slices

  lemma {:induction false} CutAbsent(list: seq<Pair>, id: nat)
    requires forall k :: 0 <= k < |list| ==> list[k].0 != id
    ensures Cut(list, id) == list
  {
    if list != [] {
      CutAbsent(list[..|list| - 1], id);
    }
  }

  /** With distinct ids the cut removes exactly one place. */
  lemma {:induction false} CutRemovesOne(list: seq<Pair>, i: nat)
    requires i < |list| && DistinctIds(list)
    ensures Cut(list, list[i].0) == Dropped(list, i)
  {
    var n := |list|;
    var init, last := list[..n - 1], list[n - 1];
    InitDistinct(list);
    if i < n - 1 {
      assert init[i] == list[i] && last.0 != list[i].0;
      CutRemovesOne(init, i);
      assert init[..i] == list[..i] && init[i + 1..] + [last] == list[i + 1..];
    } else {
      forall k | 0 <= k < |init| ensures init[k].0 != last.0 {
        assert init[k] == list[k];
      }
      CutAbsent(init, last.0);
      assert list[..i] == init && list[i + 1..] == [];
    }
  }

  function InSlice(inCut: real -> bool, list: seq<Pair>): nat -> bool {
    (i: nat) => i < |list| && 1 < |list| && inCut(list[i].1)
  }

  ghost predicate SlicesOf(inc: seq<seq<Pair>>, inCut: real -> bool, list: seq<Pair>, upto: nat, at: seq<nat>) {
    && Selects(at, upto, InSlice(inCut, list)) && |inc| == |at|
    && forall k :: 0 <= k < |at| ==> at[k] < |list| && inc[k] == Dropped(list, at[k])
  }

  lemma {:induction false} SlicesUpTo(inCut: real -> bool, list: seq<Pair>, upto: nat) returns (at: seq<nat>)
    requires upto <= |list| && DistinctIds(list)
    ensures SlicesOf(SliceIncrements(inCut, list, upto), inCut, list, upto, at)
  {
    hide DistinctIds, Cut, Selects, Dropped;
    at := [];
    if upto != 0 {
      var i := upto - 1;
      var before := SlicesUpTo(inCut, list, i);
      CutRemovesOne(list, i);
      SelectsMore(before, i, InSlice(inCut, list));
      at := if InSlice(inCut, list)(i) then before + [i] else before;
      assert Dropped(list, i) == [] <==> |list| == 1;
    } else {
      SelectsNone(InSlice(inCut, list));
    }
  }

  /** A slice adds, for each place whose value lies inside it, in order, the list without that
      place; nothing for a list of one, as nothing would be left. */
  lemma SliceIncrementsExact(inCut: real -> bool, list: seq<Pair>) returns (at: seq<nat>)
    requires DistinctIds(list)
    ensures SlicesOf(FoldIncrements(GammaCut(inCut), list), inCut, list, |list|, at)
  {
    at := SlicesUpTo(inCut, list, |list|);
  }

  // Deluxe spectra

  /** A deluxe spectrum's fold adds, for every x and y inside, in lexicographic order, the x list
      without the one and the y list without the other. */
  lemma GridIncrementsExact(area: Area, xs: seq<Pair>, ys: seq<Pair>) returns (pairs: seq<(nat, nat)>)
    requires DistinctIds(xs) && DistinctIds(ys)
    ensures Ordered(pairs) && |CutGrid(xs, ys, GridPairs(area, xs, ys))| == |pairs|
    ensures forall p :: p in pairs <==> p.0 < |xs| && p.1 < |ys| && area(xs[p.0].1, ys[p.1].1)
    ensures forall k :: 0 <= k < |pairs| ==>
              var i, j := pairs[k].0, pairs[k].1;
              && i < |xs| && j < |ys|
              && CutGrid(xs, ys, GridPairs(area, xs, ys))[k] == (Dropped(xs, i), Dropped(ys, j))
  {
    hide GridPairs, Cut, DistinctIds, Ordered, Dropped;
    pairs := GridPairs(area, xs, ys);
    GridPairsExact(area, xs, ys);
    forall k | 0 <= k < |pairs|
      ensures var i, j := pairs[k].0, pairs[k].1;
              && i < |xs| && j < |ys|
              && CutGrid(xs, ys, pairs)[k] == (Dropped(xs, i), Dropped(ys, j))
    {
      assert pairs[k] in pairs;
      CutRemovesOne(xs, pairs[k].0);
      CutRemovesOne(ys, pairs[k].1);
    }
  }
}
