/** Projections of two-dimensional spectra onto an axis
    (main/Core/CProjectionCommand.cpp:592-836, main/Core/CContourROI.cpp). */
module Projections {

  /** Channel number to parameter value. */
  type Axis = nat -> real

  /** Membership of a point in a contour; the crossing test is a parameter. */
  type Area = (real, real) -> bool

  /** A 2-d or gamma 2-d spectrum: counts by x and y channel, its axes, and for a plain 2-d
      spectrum its two parameters. */
  datatype Source = Source(xParam: nat, yParam: nat, xAxis: Axis, yAxis: Axis,
                           xSize: nat, ySize: nat, count: (nat, nat) -> nat)

  /** Gates by type: contours on two parameters, gamma contours, and the rest. */
  datatype Gate = Contour(xId: nat, yId: nat, inside: Area) | GammaContour(inside: Area) | Other

  /** parameterOrder: which source axis is the gate's x, and which its y. */
  function ParameterOrder(src: Source, gate: Gate): (nat, nat) {
    if gate.Contour? && src.xParam != gate.xId then (1, 0) else (0, 1)
  }

  datatype Roi = Everywhere | ContourRoi(inside: Area, xAxis: Axis, yAxis: Axis)

  /** selectROI: a contour is tested in parameter values, its axes taken in the gate's order. */
  function SelectRoi(src: Source, gate: Gate): Roi {
    var order := ParameterOrder(src, gate);
    var maps := [src.xAxis, src.yAxis];
    match gate
    case Contour(_, _, inside) => ContourRoi(inside, maps[order.0], maps[order.1])
    case GammaContour(inside) => ContourRoi(inside, maps[order.0], maps[order.1])
    case Other => Everywhere
  }

  predicate InRoi(roi: Roi, x: nat, y: nat) {
    match roi
    case Everywhere => true
    case ContourRoi(inside, xAxis, yAxis) => inside(xAxis(x), yAxis(y))
  }

  /** Both loops pass the channel numbers in the gate's order. */
  predicate Selected(src: Source, gate: Gate, x: nat, y: nat) {
    var order := ParameterOrder(src, gate);
    var indices := [x, y];
    InRoi(SelectRoi(src, gate), indices[order.0], indices[order.1])
  }

  /** The value of a parameter in a channel of the source. */
  function ValueOf(src: Source, id: nat, x: nat, y: nat): real {
    if id == src.xParam then src.xAxis(x) else src.yAxis(y)
  }

  /** A contour drawn on the source's two parameters, in either order, selects the channels
      whose parameter values lie inside it. */
  lemma SelectedByParameter(src: Source, gate: Gate, x: nat, y: nat)
    requires gate.Contour? && gate.xId != gate.yId && {gate.xId, gate.yId} == {src.xParam, src.yParam}
    ensures Selected(src, gate, x, y)
        <==> gate.inside(ValueOf(src, gate.xId, x, y), ValueOf(src, gate.yId, x, y))
  {
    assert gate.xId in {src.xParam, src.yParam} && gate.yId in {src.xParam, src.yParam};
    assert src.xParam in {gate.xId, gate.yId};
  }

  /** The same contour given with its axes swapped. */
  function Transposed(gate: Gate): Gate
    requires gate.Contour?
  {
    Contour(gate.yId, gate.xId, (a, b) => gate.inside(b, a))
  }

  /** Projecting through a contour or through the same contour with its axes swapped selects
      the same channels, if its two parameters differ. */
  lemma TransposedSelectsSame(src: Source, gate: Gate, x: nat, y: nat)
    requires gate.Contour? && gate.xId != gate.yId && {gate.xId, gate.yId} == {src.xParam, src.yParam}
    ensures Selected(src, Transposed(gate), x, y) <==> Selected(src, gate, x, y)
  {
    assert {gate.yId, gate.xId} == {gate.xId, gate.yId};
    SelectedByParameter(src, gate, x, y);
    SelectedByParameter(src, Transposed(gate), x, y);
  }

  // Sums

  function Masked(src: Source, gate: Gate, x: nat, y: nat): nat {
    if Selected(src, gate, x, y) then src.count(x, y) else 0
  }

  /** Selected counts in column x, rows below n. */
  function ColumnSum(src: Source, gate: Gate, x: nat, n: nat): nat {
    if n == 0 then 0 else ColumnSum(src, gate, x, n - 1) + Masked(src, gate, x, n - 1)
  }

  /** Selected counts in row y, columns below n. */
  function RowSum(src: Source, gate: Gate, y: nat, n: nat): nat {
    if n == 0 then 0 else RowSum(src, gate, y, n - 1) + Masked(src, gate, n - 1, y)
  }

  /** Selected counts in the first m columns and n rows. */
  function Total(src: Source, gate: Gate, m: nat, n: nat): nat {
    if m == 0 then 0 else Total(src, gate, m - 1, n) + ColumnSum(src, gate, m - 1, n)
  }

  function Sum(s: seq<nat>): nat {
    if s == [] then 0 else Sum(s[..|s| - 1]) + s[|s| - 1]
  }

  lemma {:induction false} TotalByRows(src: Source, gate: Gate, m: nat, n: nat)
    ensures Total(src, gate, m, n + 1) == Total(src, gate, m, n) + RowSum(src, gate, n, m)
  {
    if m != 0 {
      TotalByRows(src, gate, m - 1, n);
    }
  }

  lemma {:induction false} TotalNoRows(src: Source, gate: Gate, m: nat)
    ensures Total(src, gate, m, 0) == 0
  {
    if m != 0 {
      TotalNoRows(src, gate, m - 1);
    }
  }

  /** Without a contour every channel is selected; a gamma contour has the source's axes. */
  lemma SelectedOtherwise(src: Source, gate: Gate, x: nat, y: nat)
    ensures gate.Other? ==> Selected(src, gate, x, y)
    ensures gate.GammaContour? ==> (Selected(src, gate, x, y) <==> gate.inside(src.xAxis(x), src.yAxis(y)))
  {
  }

  /** Sums are additive in the counts. */
  lemma {:induction false} SumsAdd(src: Source, f: (nat, nat) -> nat, g: (nat, nat) -> nat, gate: Gate, c: nat, n: nat)
    requires forall x, y :: src.count(x, y) == f(x, y) + g(x, y)
    ensures ColumnSum(src, gate, c, n)
         == ColumnSum(src.(count := f), gate, c, n) + ColumnSum(src.(count := g), gate, c, n)
    ensures RowSum(src, gate, c, n) == RowSum(src.(count := f), gate, c, n) + RowSum(src.(count := g), gate, c, n)
  {
    hide Selected;
    if n != 0 {
      SumsAdd(src, f, g, gate, c, n - 1);
      SameSelection(src, f, gate, c, n - 1);
      SameSelection(src, g, gate, c, n - 1);
    }
  }

  lemma SameSelection(src: Source, f: (nat, nat) -> nat, gate: Gate, a: nat, b: nat)
    ensures Selected(src.(count := f), gate, a, b) == Selected(src, gate, a, b)
    ensures Selected(src.(count := f), gate, b, a) == Selected(src, gate, b, a)
  {
  }

  /** The counts of a single channel, if it is selected, come out in its column and its row and
      nowhere else. */
  lemma {:induction false} OneChannelProjects(src: Source, gate: Gate, a: nat, b: nat, c: nat, n: nat)
    requires forall x: nat, y: nat :: (x, y) != (a, b) ==> src.count(x, y) == 0
    ensures ColumnSum(src, gate, c, n) == if c == a && b < n && Selected(src, gate, a, b) then src.count(a, b) else 0
    ensures RowSum(src, gate, c, n) == if c == b && a < n && Selected(src, gate, a, b) then src.count(a, b) else 0
  {
    hide Selected;
    if n != 0 {
      OneChannelProjects(src, gate, a, b, c, n - 1);
      assert (c, n - 1) != (a, b) ==> src.count(c, n - 1) == 0;
      assert (n - 1, c) != (a, b) ==> src.count(n - 1, c) == 0;
    }
  }

  /** Sums are kept in an unsigned long, which wraps around at a limit: 2^64 where it is eight
      bytes wide, 2^32 where it is four. */
  type Limit = n: nat | 0 < n witness 1

  function Wrapped(limit: Limit, sum: nat): nat {
    sum % limit
  }

  /** How often a sum has wrapped around, and what those turns add up to. */
  function Wraps(limit: Limit, sum: nat): nat {
    sum / limit
  }

  function Turns(limit: Limit, n: nat): nat {
    limit * n
  }

  lemma Multiple(limit: Limit, k: int)
    ensures k >= 1 ==> limit * k >= limit
    ensures k <= -1 ==> limit * k + limit <= 0
  {
    if k >= 1 {
      assert limit * k == limit * (k - 1) + limit && limit * (k - 1) >= 0;
    }
    if k <= -1 {
      assert limit * k == limit * (k + 1) - limit && limit * (k + 1) <= 0;
    }
  }

  lemma Remainder(limit: Limit, k: nat, r: nat)
    requires r < limit
    ensures Wrapped(limit, Turns(limit, k) + r) == r
  {
    var m := limit * k + r;
    var q := m / limit;
    assert m == limit * q + m % limit;
    assert limit * (q - k) == limit * q - limit * k;
    Multiple(limit, q - k);
  }

  lemma TurnsAdd(limit: Limit, m: nat, n: nat)
    ensures Turns(limit, m + n) == Turns(limit, m) + Turns(limit, n)
  {
  }

  lemma WrappedIs(limit: Limit, sum: nat)
    ensures sum == Turns(limit, Wraps(limit, sum)) + Wrapped(limit, sum) && Wrapped(limit, sum) < limit
  {
  }

  lemma AddMod(limit: Limit, a: nat, b: nat)
    ensures Wrapped(limit, Wrapped(limit, a) + b) == Wrapped(limit, a + b)
  {
    hide Wraps, Turns, Wrapped;
    var part := Wrapped(limit, a) + b;
    WrappedIs(limit, a);
    WrappedIs(limit, part);
    TurnsAdd(limit, Wraps(limit, a), Wraps(limit, part));
    Remainder(limit, Wraps(limit, a) + Wraps(limit, part), Wrapped(limit, part));
  }

  lemma CarryMod(limit: Limit, sum: nat, total: nat, more: nat)
    requires sum % limit == total % limit && (total < limit ==> sum == total)
    ensures (sum + more % limit) % limit == (total + more) % limit
    ensures total + more < limit ==> sum + more % limit == total + more
  {
    AddMod(limit, sum, more);
    AddMod(limit, total, more);
    AddMod(limit, more, sum);
    if total + more < limit {
      Remainder(limit, 0, more);
    }
  }

  /** The channels of a projection onto x: one selected column sum per channel, reduced to the
      width of the summing variable. */
  ghost predicate IsProjectionX(limit: Limit, src: Source, gate: Gate, p: seq<nat>) {
    |p| == src.xSize && forall x :: 0 <= x < |p| ==> p[x] == Wrapped(limit, ColumnSum(src, gate, x, src.ySize))
  }

  ghost predicate IsProjectionY(limit: Limit, src: Source, gate: Gate, p: seq<nat>) {
    |p| == src.ySize && forall y :: 0 <= y < |p| ==> p[y] == Wrapped(limit, RowSum(src, gate, y, src.xSize))
  }

  lemma {:induction false} SumOfColumns(limit: Limit, src: Source, gate: Gate, n: nat, p: seq<nat>)
    requires forall x :: 0 <= x < |p| ==> p[x] == ColumnSum(src, gate, x, n) % limit
    ensures Sum(p) % limit == Total(src, gate, |p|, n) % limit
    ensures Total(src, gate, |p|, n) < limit ==> Sum(p) == Total(src, gate, |p|, n)
  {
    if p != [] {
      var m := |p| - 1;
      SumOfColumns(limit, src, gate, n, p[..m]);
      CarryMod(limit, Sum(p[..m]), Total(src, gate, m, n), ColumnSum(src, gate, m, n));
    }
  }

  lemma {:induction false} SumOfRows(limit: Limit, src: Source, gate: Gate, m: nat, p: seq<nat>)
    requires forall y :: 0 <= y < |p| ==> p[y] == RowSum(src, gate, y, m) % limit
    ensures Sum(p) % limit == Total(src, gate, m, |p|) % limit
    ensures Total(src, gate, m, |p|) < limit ==> Sum(p) == Total(src, gate, m, |p|)
  {
    hide RowSum;
    if p == [] {
      TotalNoRows(src, gate, m);
    } else {
      var n := |p| - 1;
      SumOfRows(limit, src, gate, m, p[..n]);
      TotalByRows(src, gate, m, n);
      CarryMod(limit, Sum(p[..n]), Total(src, gate, m, n), RowSum(src, gate, n, m));
    }
  }

  /** Projection conserves counts: for any spectrum and region of interest the x-projection,
      the y-projection and the selected channels of the source have the same total, modulo the
      width of the sums; exactly the same when that total fits. */
  lemma ProjectionConserves(limit: Limit, src: Source, gate: Gate, px: seq<nat>, py: seq<nat>)
    requires IsProjectionX(limit, src, gate, px) && IsProjectionY(limit, src, gate, py)
    ensures var total := Total(src, gate, src.xSize, src.ySize);
            && Sum(px) % limit == Sum(py) % limit == total % limit
            && (total < limit ==> Sum(px) == Sum(py) == total)
  {
    SumOfColumns(limit, src, gate, src.ySize, px);
    SumOfRows(limit, src, gate, src.xSize, py);
  }

  // The loops

  class Target {
    const channels: array<nat>

    constructor (size: nat)
      ensures fresh(channels) && channels.Length == size
    {
      channels := new nat[size];
    }

    method Clear()
      modifies channels
      ensures forall i :: 0 <= i < channels.Length ==> channels[i] == 0
    {
      forall i | 0 <= i < channels.Length {
        channels[i] := 0;
      }
    }
  }

  /** One more channel of a column, and of a row. */
  lemma OneMoreChannel(limit: Limit, src: Source, gate: Gate, x: nat, y: nat)
    ensures Wrapped(limit, ColumnSum(src, gate, x, y + 1))
         == (if Selected(src, gate, x, y)
             then Wrapped(limit, Wrapped(limit, ColumnSum(src, gate, x, y)) + src.count(x, y))
             else Wrapped(limit, ColumnSum(src, gate, x, y)))
    ensures Wrapped(limit, RowSum(src, gate, y, x + 1))
         == (if Selected(src, gate, x, y)
             then Wrapped(limit, Wrapped(limit, RowSum(src, gate, y, x)) + src.count(x, y))
             else Wrapped(limit, RowSum(src, gate, y, x)))
  {
    hide Selected;
    AddMod(limit, ColumnSum(src, gate, x, y), src.count(x, y));
    AddMod(limit, RowSum(src, gate, y, x), src.count(x, y));
  }

  lemma NoChannels(limit: Limit, src: Source, gate: Gate, c: nat)
    ensures Wrapped(limit, ColumnSum(src, gate, c, 0)) == 0 == Wrapped(limit, RowSum(src, gate, c, 0))
  {
    Remainder(limit, 0, 0);
  }

  method ProjectX(limit: Limit, src: Source, target: Target, gate: Gate)
    requires target.channels.Length == src.xSize
    modifies target.channels
    ensures IsProjectionX(limit, src, gate, target.channels[..])
  {
    hide Wrapped, ColumnSum, RowSum, InRoi, SelectRoi;
    var order := ParameterOrder(src, gate);
    var roi := SelectRoi(src, gate);
    target.Clear();
    var x := 0;
    while x < src.xSize
      invariant 0 <= x <= src.xSize
      invariant forall k :: 0 <= k < x ==> target.channels[k] == Wrapped(limit, ColumnSum(src, gate, k, src.ySize))
    {
      var sum := 0;
      var y := 0;
      NoChannels(limit, src, gate, x);
      while y < src.ySize
        invariant 0 <= y <= src.ySize && sum == Wrapped(limit, ColumnSum(src, gate, x, y))
        invariant forall k :: 0 <= k < x ==> target.channels[k] == Wrapped(limit, ColumnSum(src, gate, k, src.ySize))
      {
        var indices := [x, y];
        var value := src.count(x, y);
        OneMoreChannel(limit, src, gate, x, y);
        if InRoi(roi, indices[order.0], indices[order.1]) {
          sum := Wrapped(limit, sum + value);
        }
        y := y + 1;
      }
      target.channels[x] := sum;
      x := x + 1;
    }
  }

  method ProjectY(limit: Limit, src: Source, target: Target, gate: Gate)
    requires target.channels.Length == src.ySize
    modifies target.channels
    ensures IsProjectionY(limit, src, gate, target.channels[..])
  {
    hide Wrapped, ColumnSum, RowSum, InRoi, SelectRoi;
    var order := ParameterOrder(src, gate);
    var roi := SelectRoi(src, gate);
    target.Clear();
    var y := 0;
    while y < src.ySize
      invariant 0 <= y <= src.ySize
      invariant forall k :: 0 <= k < y ==> target.channels[k] == Wrapped(limit, RowSum(src, gate, k, src.xSize))
    {
      var sum := 0;
      var x := 0;
      NoChannels(limit, src, gate, y);
      while x < src.xSize
        invariant 0 <= x <= src.xSize && sum == Wrapped(limit, RowSum(src, gate, y, x))
        invariant forall k :: 0 <= k < y ==> target.channels[k] == Wrapped(limit, RowSum(src, gate, k, src.xSize))
      {
        var indices := [x, y];
        var value := src.count(x, y);
        OneMoreChannel(limit, src, gate, x, y);
        if InRoi(roi, indices[order.0], indices[order.1]) {
          sum := Wrapped(limit, sum + value);
        }
        x := x + 1;
      }
      target.channels[y] := sum;
      y := y + 1;
    }
  }

  lemma {:induction false} SameSelectionSameColumn(src: Source, g1: Gate, g2: Gate, x: nat, n: nat)
    requires forall y: nat :: Selected(src, g1, x, y) <==> Selected(src, g2, x, y)
    ensures ColumnSum(src, g1, x, n) == ColumnSum(src, g2, x, n)
  {
    if n != 0 {
      SameSelectionSameColumn(src, g1, g2, x, n - 1);
    }
  }

  lemma {:induction false} SameSelectionSameRow(src: Source, g1: Gate, g2: Gate, y: nat, n: nat)
    requires forall x: nat :: Selected(src, g1, x, y) <==> Selected(src, g2, x, y)
    ensures RowSum(src, g1, y, n) == RowSum(src, g2, y, n)
  {
    if n != 0 {
      SameSelectionSameRow(src, g1, g2, y, n - 1);
    }
  }

  /** So the two forms of a contour give the same projections onto both axes. */
  lemma TransposedProjectsSame(limit: Limit, src: Source, gate: Gate, p: seq<nat>)
    requires gate.Contour? && gate.xId != gate.yId && {gate.xId, gate.yId} == {src.xParam, src.yParam}
    ensures IsProjectionX(limit, src, gate, p) <==> IsProjectionX(limit, src, Transposed(gate), p)
    ensures IsProjectionY(limit, src, gate, p) <==> IsProjectionY(limit, src, Transposed(gate), p)
  {
    hide Selected, Transposed, ColumnSum, RowSum;
    var other := Transposed(gate);
    forall x: nat, y: nat ensures Selected(src, gate, x, y) <==> Selected(src, other, x, y) {
      TransposedSelectsSame(src, gate, x, y);
    }
    forall x: nat | x < |p| ensures ColumnSum(src, gate, x, src.ySize) == ColumnSum(src, other, x, src.ySize) {
      SameSelectionSameColumn(src, gate, other, x, src.ySize);
    }
    forall y: nat | y < |p| ensures RowSum(src, gate, y, src.xSize) == RowSum(src, other, y, src.xSize) {
      SameSelectionSameRow(src, gate, other, y, src.xSize);
    }
  }
}
