/** The bank-suction coefficient lookup: src/hydrodynamics/bank_suction_lookup.py.
    Axes run over depth/draft (columns of a table) and wall distance/beam (rows). */
module BankSuction {
  import opened Common

  ghost predicate IsAxis(axis: seq<real>)
  {
    |axis| >= 2 && forall i, j :: 0 <= i < j < |axis| ==> axis[i] < axis[j]
  }

  ghost predicate IsTable(m: seq<seq<real>>, columns: nat, rows: nat)
  {
    |m| == rows && forall j :: 0 <= j < rows ==> |m[j]| == columns
  }

  function Clamp(axis: seq<real>, v: real): real
    requires |axis| > 0
  {
    Max(axis[0], Min(axis[|axis| - 1], v))
  }

  /** The leftmost insertion point of v at or after position i. */
  function SearchFrom(axis: seq<real>, v: real, i: nat): (k: nat)
    requires i <= |axis|
    ensures i <= k <= |axis|
    ensures forall n :: i <= n < k ==> axis[n] < v
    ensures k < |axis| ==> v <= axis[k]
    decreases |axis| - i
  {
    if i == |axis| || v <= axis[i] then i else SearchFrom(axis, v, i + 1)
  }

  /** The index of the interval used for v. */
  function Cell(axis: seq<real>, v: real): (c: nat)
    requires |axis| >= 2
    ensures c + 1 < |axis|
  {
    var k := SearchFrom(axis, v, 0) - 1;
    var k' := if k < |axis| - 2 then k else |axis| - 2;
    if k' < 0 then 0 else k'
  }

  /** The four-corner weighting in cell (i, j) at the point (x, y). */
  function CellValue(xs: seq<real>, ys: seq<real>, m: seq<seq<real>>, i: nat, j: nat, x: real, y: real): real
    requires IsAxis(xs) && IsAxis(ys) && IsTable(m, |xs|, |ys|)
    requires i + 1 < |xs| && j + 1 < |ys|
  {
    var x0, x1, y0, y1 := xs[i], xs[i + 1], ys[j], ys[j + 1];
    var wa := (x1 - x) * (y1 - y);
    var wb := (x - x0) * (y1 - y);
    var wc := (x1 - x) * (y - y0);
    var wd := (x - x0) * (y - y0);
    assert (x1 - x0) * (y1 - y0) != 0.0 by { ProductNonzero(x1 - x0, y1 - y0); }
    (wa * m[j][i] + wb * m[j][i + 1] + wc * m[j + 1][i] + wd * m[j + 1][i + 1]) / ((x1 - x0) * (y1 - y0))
  }

  function BilinearInterpolate(xs: seq<real>, ys: seq<real>, m: seq<seq<real>>, depth: real, distance: real): real
    requires IsAxis(xs) && IsAxis(ys) && IsTable(m, |xs|, |ys|)
  {
    var x, y := Clamp(xs, depth), Clamp(ys, distance);
    CellValue(xs, ys, m, Cell(xs, x), Cell(ys, y), x, y)
  }

  lemma ProductNonzero(a: real, b: real)
    requires a != 0.0 && b != 0.0
    ensures a * b != 0.0
  {
  }

  // ---------- One dimension ----------

  /** Linear interpolation between (a, p) and (b, q). */
  function Lerp(a: real, b: real, p: real, q: real, v: real): real
    requires a < b
  {
    ((b - v) * p + (v - a) * q) / (b - a)
  }

  /** The straight-line graph through the points (axis[i], values[i]). */
  function Graph(axis: seq<real>, values: seq<real>, v: real): real
    requires IsAxis(axis) && |values| == |axis|
  {
    var c := Cell(axis, v);
    Lerp(axis[c], axis[c + 1], values[c], values[c + 1], v)
  }

  predicate InRange(axis: seq<real>, v: real)
    requires |axis| >= 1
  {
    axis[0] <= v <= axis[|axis| - 1]
  }

  predicate InCell(axis: seq<real>, c: nat, v: real)
  {
    c + 1 < |axis| && axis[c] <= v <= axis[c + 1]
  }

  lemma ClampInRange(axis: seq<real>, v: real)
    requires IsAxis(axis)
    ensures InRange(axis, Clamp(axis, v))
    ensures InRange(axis, v) ==> Clamp(axis, v) == v
  {
  }

  lemma ClampMonotone(axis: seq<real>, v: real, w: real)
    requires IsAxis(axis) && v <= w
    ensures Clamp(axis, v) <= Clamp(axis, w)
  {
  }

  lemma CellContains(axis: seq<real>, v: real)
    requires IsAxis(axis) && InRange(axis, v)
    ensures InCell(axis, Cell(axis, v), v)
  {
  }

  lemma LerpEnds(a: real, b: real, p: real, q: real)
    requires a < b
    ensures Lerp(a, b, p, q, a) == p && Lerp(a, b, p, q, b) == q
  {
  }

  lemma DivMono(p: real, q: real, d: real)
    requires d > 0.0 && p <= q
    ensures p / d <= q / d
  {
  }

  /** Larger end values give a larger interpolated value. */
  lemma LerpMonotoneInValues(a: real, b: real, p: real, q: real, p': real, q': real, v: real)
    requires a < b && a <= v <= b && p <= p' && q <= q'
    ensures Lerp(a, b, p, q, v) <= Lerp(a, b, p', q', v)
  {
    MulMono(b - v, p, p');
    MulMono(v - a, q, q');
    DivMono((b - v) * p + (v - a) * q, (b - v) * p' + (v - a) * q', b - a);
  }

  lemma LerpConstant(a: real, b: real, p: real, v: real)
    requires a < b
    ensures Lerp(a, b, p, p, v) == p
  {
  }

  lemma LerpBetween(a: real, b: real, p: real, q: real, v: real)
    requires a < b && a <= v <= b
    ensures Min(p, q) <= Lerp(a, b, p, q, v) <= Max(p, q)
  {
    var lo, hi := Min(p, q), Max(p, q);
    LerpMonotoneInValues(a, b, lo, lo, p, q, v);
    LerpMonotoneInValues(a, b, p, q, hi, hi, v);
    LerpConstant(a, b, lo, v);
    LerpConstant(a, b, hi, v);
  }

  lemma LerpDecreasing(a: real, b: real, p: real, q: real, v: real, w: real)
    requires a < b && v <= w && p >= q
    ensures Lerp(a, b, p, q, v) >= Lerp(a, b, p, q, w)
  {
  }

  /** The value does not depend on which of the cells touching v is used, so it does not
      depend on how a tie in the search is broken. */
  lemma GraphAnyCell(axis: seq<real>, values: seq<real>, c: nat, v: real)
    requires IsAxis(axis) && |values| == |axis| && InCell(axis, c, v)
    ensures Graph(axis, values, v) == Lerp(axis[c], axis[c + 1], values[c], values[c + 1], v)
  {
    KnotsOrdered(axis, 0, c);
    KnotsOrdered(axis, c + 1, |axis| - 1);
    var d := Cell(axis, v);
    CellContains(axis, v);
    if d < c {
      KnotsOrdered(axis, d + 1, c);
      EdgeAgrees(axis, values, d, v);
    } else if c < d {
      KnotsOrdered(axis, c + 1, d);
      EdgeAgrees(axis, values, c, v);
    }
  }

  lemma KnotsOrdered(axis: seq<real>, i: nat, j: nat)
    requires IsAxis(axis) && i <= j < |axis|
    ensures if i == j then axis[i] == axis[j] else axis[i] < axis[j]
  {
  }

  lemma EdgeAgrees(axis: seq<real>, values: seq<real>, c: nat, v: real)
    requires IsAxis(axis) && |values| == |axis| && c + 2 < |axis| && v == axis[c + 1]
    ensures Lerp(axis[c], axis[c + 1], values[c], values[c + 1], v)
         == Lerp(axis[c + 1], axis[c + 2], values[c + 1], values[c + 2], v)
  {
    LerpEnds(axis[c], axis[c + 1], values[c], values[c + 1]);
    LerpEnds(axis[c + 1], axis[c + 2], values[c + 1], values[c + 2]);
  }

  lemma GraphAtKnot(axis: seq<real>, values: seq<real>, i: nat)
    requires IsAxis(axis) && |values| == |axis| && i < |axis|
    ensures Graph(axis, values, axis[i]) == values[i]
  {
    var c := Cell(axis, axis[i]);
    CellContains(axis, axis[i]);
    LerpEnds(axis[c], axis[c + 1], values[c], values[c + 1]);
  }

  predicate NonIncreasing(values: seq<real>)
  {
    forall i, j :: 0 <= i <= j < |values| ==> values[i] >= values[j]
  }

  /** Monotonicity across any number of cells. */
  lemma GraphDecreasing(axis: seq<real>, values: seq<real>, v: real, w: real)
    requires IsAxis(axis) && |values| == |axis| && NonIncreasing(values)
    requires InRange(axis, v) && InRange(axis, w) && v <= w
    ensures Graph(axis, values, v) >= Graph(axis, values, w)
  {
    var c, d := Cell(axis, v), Cell(axis, w);
    CellContains(axis, v);
    CellContains(axis, w);
    if c == d {
      LerpDecreasing(axis[c], axis[c + 1], values[c], values[c + 1], v, w);
    } else if c < d {
      LerpBetween(axis[c], axis[c + 1], values[c], values[c + 1], v);
      LerpBetween(axis[d], axis[d + 1], values[d], values[d + 1], w);
      assert values[c + 1] >= values[d];
    } else {
      assert false;
    }
  }

  lemma GraphMonotoneInValues(axis: seq<real>, values: seq<real>, values': seq<real>, v: real)
    requires IsAxis(axis) && |values| == |values'| == |axis| && InRange(axis, v)
    requires forall i :: 0 <= i < |axis| ==> values[i] <= values'[i]
    ensures Graph(axis, values, v) <= Graph(axis, values', v)
  {
    var c := Cell(axis, v);
    CellContains(axis, v);
    LerpMonotoneInValues(axis[c], axis[c + 1], values[c], values[c + 1], values'[c], values'[c + 1], v);
  }

  // ---------- Two dimensions ----------

  /** The table column at the depth ratio x, each entry interpolated along its row. */
  function Column(xs: seq<real>, m: seq<seq<real>>, rows: nat, x: real): (col: seq<real>)
    requires IsAxis(xs) && IsTable(m, |xs|, rows)
    ensures |col| == rows
  {
    seq(rows, j requires 0 <= j < rows => Graph(xs, m[j], x))
  }

  lemma CellIsNested(xs: seq<real>, ys: seq<real>, m: seq<seq<real>>, i: nat, j: nat, x: real, y: real)
    requires IsAxis(xs) && IsAxis(ys) && IsTable(m, |xs|, |ys|) && i + 1 < |xs| && j + 1 < |ys|
    ensures CellValue(xs, ys, m, i, j, x, y)
         == Lerp(ys[j], ys[j + 1],
              Lerp(xs[i], xs[i + 1], m[j][i], m[j][i + 1], x),
              Lerp(xs[i], xs[i + 1], m[j + 1][i], m[j + 1][i + 1], x), y)
  {
  }

  /** The four-corner weighting in any cell touching the point equals interpolating along
      the rows and then along the resulting column: the two-dimensional value is the same
      whichever of the adjacent cells is chosen. */
  lemma BilinearAnyCell(xs: seq<real>, ys: seq<real>, m: seq<seq<real>>, i: nat, j: nat, x: real, y: real)
    requires IsAxis(xs) && IsAxis(ys) && IsTable(m, |xs|, |ys|)
    requires InCell(xs, i, x) && InCell(ys, j, y)
    ensures CellValue(xs, ys, m, i, j, x, y) == Graph(ys, Column(xs, m, |ys|, x), y)
  {
    hide Graph, Lerp;
    GraphAnyCell(xs, m[j], i, x);
    GraphAnyCell(xs, m[j + 1], i, x);
    GraphAnyCell(ys, Column(xs, m, |ys|, x), j, y);
    CellIsNested(xs, ys, m, i, j, x, y);
  }

  lemma BilinearIsNested(xs: seq<real>, ys: seq<real>, m: seq<seq<real>>, depth: real, distance: real)
    requires IsAxis(xs) && IsAxis(ys) && IsTable(m, |xs|, |ys|)
    ensures BilinearInterpolate(xs, ys, m, depth, distance)
         == Graph(ys, Column(xs, m, |ys|, Clamp(xs, depth)), Clamp(ys, distance))
  {
    var x, y := Clamp(xs, depth), Clamp(ys, distance);
    ClampInRange(xs, depth);
    ClampInRange(ys, distance);
    CellContains(xs, x);
    CellContains(ys, y);
    BilinearAnyCell(xs, ys, m, Cell(xs, x), Cell(ys, y), x, y);
  }

  /** Shared edges and corners: every cell that touches the clamped point gives the
      interpolated value. */
  lemma EdgesAgree(xs: seq<real>, ys: seq<real>, m: seq<seq<real>>, depth: real, distance: real, i: nat, j: nat)
    requires IsAxis(xs) && IsAxis(ys) && IsTable(m, |xs|, |ys|)
    requires InCell(xs, i, Clamp(xs, depth)) && InCell(ys, j, Clamp(ys, distance))
    ensures CellValue(xs, ys, m, i, j, Clamp(xs, depth), Clamp(ys, distance))
         == BilinearInterpolate(xs, ys, m, depth, distance)
  {
    hide Graph, CellValue, BilinearInterpolate, Clamp;
    BilinearIsNested(xs, ys, m, depth, distance);
    BilinearAnyCell(xs, ys, m, i, j, Clamp(xs, depth), Clamp(ys, distance));
  }

  lemma KnotExact(xs: seq<real>, ys: seq<real>, m: seq<seq<real>>, i: nat, j: nat)
    requires IsAxis(xs) && IsAxis(ys) && IsTable(m, |xs|, |ys|)
    requires i < |xs| && j < |ys|
    ensures BilinearInterpolate(xs, ys, m, xs[i], ys[j]) == m[j][i]
  {
    hide Graph, BilinearInterpolate;
    BilinearIsNested(xs, ys, m, xs[i], ys[j]);
    KnotInRange(xs, i);
    KnotInRange(ys, j);
    GraphAtKnot(ys, Column(xs, m, |ys|, xs[i]), j);
    GraphAtKnot(xs, m[j], i);
  }

  lemma KnotInRange(axis: seq<real>, i: nat)
    requires IsAxis(axis) && i < |axis|
    ensures Clamp(axis, axis[i]) == axis[i]
  {
  }

  /** Between the least and greatest of the four surrounding table entries. */
  lemma BetweenCorners(xs: seq<real>, ys: seq<real>, m: seq<seq<real>>, i: nat, j: nat, x: real, y: real)
    requires IsAxis(xs) && IsAxis(ys) && IsTable(m, |xs|, |ys|)
    requires InCell(xs, i, x) && InCell(ys, j, y)
    ensures Min(Min(m[j][i], m[j][i + 1]), Min(m[j + 1][i], m[j + 1][i + 1]))
         <= CellValue(xs, ys, m, i, j, x, y)
         <= Max(Max(m[j][i], m[j][i + 1]), Max(m[j + 1][i], m[j + 1][i + 1]))
  {
    hide Lerp, CellValue;
    var l0 := Lerp(xs[i], xs[i + 1], m[j][i], m[j][i + 1], x);
    var l1 := Lerp(xs[i], xs[i + 1], m[j + 1][i], m[j + 1][i + 1], x);
    CellIsNested(xs, ys, m, i, j, x, y);
    LerpBetween(xs[i], xs[i + 1], m[j][i], m[j][i + 1], x);
    LerpBetween(xs[i], xs[i + 1], m[j + 1][i], m[j + 1][i + 1], x);
    LerpBetween(ys[j], ys[j + 1], l0, l1, y);
  }

  /** Non-increasing along every row and every column. */
  ghost predicate Descending(m: seq<seq<real>>, columns: nat)
    requires forall j :: 0 <= j < |m| ==> |m[j]| == columns
  {
    && (forall j :: 0 <= j < |m| ==> NonIncreasing(m[j]))
    && (forall i, j, k :: 0 <= i < columns && 0 <= j <= k < |m| ==> m[j][i] >= m[k][i])
  }

  /** Global monotonicity: over a descending table, deeper water or a more distant wall, by
      any amount and through any number of cells and the clamps, never raises the
      coefficient. */
  lemma GlobalMonotone(xs: seq<real>, ys: seq<real>, m: seq<seq<real>>, depth: real, depth': real, distance: real, distance': real)
    requires IsAxis(xs) && IsAxis(ys) && IsTable(m, |xs|, |ys|) && Descending(m, |xs|)
    requires depth <= depth' && distance <= distance'
    ensures BilinearInterpolate(xs, ys, m, depth, distance) >= BilinearInterpolate(xs, ys, m, depth', distance')
  {
    hide Graph, BilinearInterpolate, Clamp, Column;
    var x, x', y, y' := Clamp(xs, depth), Clamp(xs, depth'), Clamp(ys, distance), Clamp(ys, distance');
    ClampInRange(xs, depth);
    ClampInRange(xs, depth');
    ClampInRange(ys, distance);
    ClampInRange(ys, distance');
    ClampMonotone(xs, depth, depth');
    ClampMonotone(ys, distance, distance');
    BilinearIsNested(xs, ys, m, depth, distance);
    BilinearIsNested(xs, ys, m, depth', distance');
    var col, col' := Column(xs, m, |ys|, x), Column(xs, m, |ys|, x');
    ColumnFalls(xs, m, |ys|, x, x');
    ColumnNonIncreasing(xs, m, |ys|, x);
    GraphDecreasing(ys, col, y, y');
    GraphMonotoneInValues(ys, col', col, y');
  }

  lemma ColumnFalls(xs: seq<real>, m: seq<seq<real>>, rows: nat, x: real, x': real)
    requires IsAxis(xs) && IsTable(m, |xs|, rows) && Descending(m, |xs|)
    requires InRange(xs, x) && InRange(xs, x') && x <= x'
    ensures forall j :: 0 <= j < rows ==> Column(xs, m, rows, x')[j] <= Column(xs, m, rows, x)[j]
  {
    forall j | 0 <= j < rows ensures Column(xs, m, rows, x')[j] <= Column(xs, m, rows, x)[j] {
      GraphDecreasing(xs, m[j], x, x');
    }
  }

  lemma ColumnNonIncreasing(xs: seq<real>, m: seq<seq<real>>, rows: nat, x: real)
    requires IsAxis(xs) && IsTable(m, |xs|, rows) && Descending(m, |xs|) && InRange(xs, x)
    ensures NonIncreasing(Column(xs, m, rows, x))
  {
    forall j, k | 0 <= j <= k < rows ensures Column(xs, m, rows, x)[j] >= Column(xs, m, rows, x)[k] {
      GraphMonotoneInValues(xs, m[k], m[j], x);
    }
  }

  // ---------- The shipped tables ----------

  const DEPTH_TO_DRAFT_AXIS: seq<real> := [1.1, 1.3, 1.5, 2.0, 3.0, 4.0]
  const DISTANCE_TO_BEAM_AXIS: seq<real> := [0.5, 0.75, 1.0, 1.5, 2.0, 3.5, 5.0]

  const CY_LOOKUP_MATRIX: seq<seq<real>> := [
    [0.180, 0.145, 0.110, 0.075, 0.040, 0.020],
    [0.125, 0.098, 0.075, 0.050, 0.025, 0.012],
    [0.085, 0.065, 0.050, 0.032, 0.015, 0.008],
    [0.040, 0.032, 0.024, 0.015, 0.007, 0.003],
    [0.018, 0.014, 0.010, 0.006, 0.002, 0.001],
    [0.004, 0.003, 0.002, 0.001, 0.000, 0.000],
    [0.000, 0.000, 0.000, 0.000, 0.000, 0.000]
  ]

  const CN_LOOKUP_MATRIX: seq<seq<real>> := [
    [0.045, 0.038, 0.030, 0.020, 0.010, 0.005],
    [0.032, 0.026, 0.020, 0.014, 0.007, 0.003],
    [0.022, 0.018, 0.014, 0.009, 0.004, 0.002],
    [0.010, 0.008, 0.006, 0.004, 0.002, 0.001],
    [0.005, 0.004, 0.003, 0.002, 0.001, 0.000],
    [0.001, 0.001, 0.000, 0.000, 0.000, 0.000],
    [0.000, 0.000, 0.000, 0.000, 0.000, 0.000]
  ]

  /** A sequence whose neighbours are ordered is ordered. */
  lemma {:induction false} Adjacent(values: seq<real>)
    requires forall i :: 0 <= i < |values| - 1 ==> values[i] >= values[i + 1]
    ensures NonIncreasing(values)
  {
    if |values| > 0 {
      var n := |values| - 1;
      Adjacent(values[..n]);
      forall i, j | 0 <= i <= j < |values| ensures values[i] >= values[j] {
        if i <= j < n {
          assert values[..n][i] >= values[..n][j];
        } else if i < n {
          assert values[..n][i] >= values[..n][n - 1];
        }
      }
    }
  }

  ghost predicate DescendsInto(row: seq<real>, next: seq<real>)
    requires |row| == |next|
  {
    forall i :: 0 <= i < |row| ==> row[i] >= next[i]
  }

  lemma {:induction false} DescendingRows(m: seq<seq<real>>, columns: nat)
    requires forall j :: 0 <= j < |m| ==> |m[j]| == columns && NonIncreasing(m[j])
    requires forall j :: 0 <= j < |m| - 1 ==> DescendsInto(m[j], m[j + 1])
    ensures Descending(m, columns)
  {
    forall i, j, k | 0 <= i < columns && 0 <= j <= k < |m| ensures m[j][i] >= m[k][i] {
      ColumnOrdered(m, columns, i, j, k);
    }
  }

  lemma {:induction false} ColumnOrdered(m: seq<seq<real>>, columns: nat, i: nat, j: nat, k: nat)
    requires forall j :: 0 <= j < |m| ==> |m[j]| == columns
    requires forall j :: 0 <= j < |m| - 1 ==> DescendsInto(m[j], m[j + 1])
    requires i < columns && j <= k < |m|
    ensures m[j][i] >= m[k][i]
    decreases k
  {
    if j < k {
      ColumnOrdered(m, columns, i, j, k - 1);
      assert DescendsInto(m[k - 1], m[k - 1 + 1]);
    }
  }

  /** Both shipped tables fit the axes and descend along both of them. */
  lemma ShippedTables()
    ensures IsAxis(DEPTH_TO_DRAFT_AXIS) && IsAxis(DISTANCE_TO_BEAM_AXIS)
    ensures IsTable(CY_LOOKUP_MATRIX, 6, 7) && Descending(CY_LOOKUP_MATRIX, 6)
    ensures IsTable(CN_LOOKUP_MATRIX, 6, 7) && Descending(CN_LOOKUP_MATRIX, 6)
  {
    RowsDescend(CY_LOOKUP_MATRIX);
    RowsDescend(CN_LOOKUP_MATRIX);
  }

  lemma RowsDescend(m: seq<seq<real>>)
    requires m == CY_LOOKUP_MATRIX || m == CN_LOOKUP_MATRIX
    ensures IsTable(m, 6, 7) && Descending(m, 6)
  {
    forall j | 0 <= j < 7 ensures NonIncreasing(m[j]) {
      Adjacent(m[j]);
    }
    forall j | 0 <= j < 6 ensures DescendsInto(m[j], m[j + 1]) {
    }
    DescendingRows(m, 6);
  }

  // ---------- Bank forces ----------

  datatype Side = Starboard | Port

  datatype Hull = Hull(length: real, beam: real, draft: real)

  datatype BankForces = BankForces(suctionForce: real, cushionMoment: real, lockout: bool)

  function Coefficient(m: seq<seq<real>>, depthRatio: real, distanceRatio: real): real
    requires IsTable(m, 6, 7)
  {
    ShippedTables();
    BilinearInterpolate(DEPTH_TO_DRAFT_AXIS, DISTANCE_TO_BEAM_AXIS, m, depthRatio, distanceRatio)
  }

  /** Features 26 and 27 and the autopilot lockout; a positive suction force pulls to starboard. */
  function ProcessBankForces(hull: Hull, speed: real, depth: real, distance: real, side: Side): BankForces
    requires hull.draft > 0.0 && hull.beam > 0.0
  {
    ShippedTables();
    ForcesFrom(hull, speed,
      Coefficient(CY_LOOKUP_MATRIX, depth / hull.draft, distance / hull.beam),
      Coefficient(CN_LOOKUP_MATRIX, depth / hull.draft, distance / hull.beam), side)
  }

  function ForcesFrom(hull: Hull, speed: real, cy: real, cn: real, side: Side): BankForces
  {
    var pressure := 0.5 * 1025.0 * (speed * speed);
    var suction := cy * pressure * (hull.length * hull.draft);
    var cushion := cn * pressure * (hull.length * hull.length) * hull.draft;
    var severity := Max(0.0, Min(1.0, cy / 0.15));
    if side.Starboard? then BankForces(suction, -cushion, severity > 0.4)
    else BankForces(-suction, cushion, severity > 0.4)
  }

  /** Both coefficients stay between zero and the largest entry of their table. */
  lemma CoefficientRange(depthRatio: real, distanceRatio: real)
    ensures IsTable(CY_LOOKUP_MATRIX, 6, 7) && IsTable(CN_LOOKUP_MATRIX, 6, 7)
    ensures 0.0 <= Coefficient(CY_LOOKUP_MATRIX, depthRatio, distanceRatio) <= 0.180
    ensures 0.0 <= Coefficient(CN_LOOKUP_MATRIX, depthRatio, distanceRatio) <= 0.045
  {
    ShippedTables();
    CoefficientBounds(CY_LOOKUP_MATRIX, depthRatio, distanceRatio);
    CoefficientBounds(CN_LOOKUP_MATRIX, depthRatio, distanceRatio);
  }

  lemma CoefficientBounds(m: seq<seq<real>>, depthRatio: real, distanceRatio: real)
    requires IsTable(m, 6, 7) && Descending(m, 6)
    ensures m[6][5] <= Coefficient(m, depthRatio, distanceRatio) <= m[0][0]
  {
    hide BilinearInterpolate, Descending;
    ShippedTables();
    var xs, ys := DEPTH_TO_DRAFT_AXIS, DISTANCE_TO_BEAM_AXIS;
    var x, y := Clamp(xs, depthRatio), Clamp(ys, distanceRatio);
    KnotExact(xs, ys, m, 0, 0);
    KnotExact(xs, ys, m, 5, 6);
    ClampInRange(xs, depthRatio);
    ClampInRange(ys, distanceRatio);
    GlobalMonotone(xs, ys, m, xs[0], x, ys[0], y);
    GlobalMonotone(xs, ys, m, x, xs[5], y, ys[6]);
    ClampTwice(xs, ys, m, depthRatio, distanceRatio);
  }

  lemma ClampTwice(xs: seq<real>, ys: seq<real>, m: seq<seq<real>>, depth: real, distance: real)
    requires IsAxis(xs) && IsAxis(ys) && IsTable(m, |xs|, |ys|)
    ensures BilinearInterpolate(xs, ys, m, Clamp(xs, depth), Clamp(ys, distance)) == BilinearInterpolate(xs, ys, m, depth, distance)
  {
  }

  /** The bank law: the suction force is Cy/2 * rho * V^2 * L * T towards the bank, the cushion
      moment Cn/2 * rho * V^2 * L^2 * T away from it, with rho 1025; a bank to port mirrors a
      bank to starboard. The lockout engages exactly while Cy exceeds 0.06, on either side. */
  lemma BankLaw(hull: Hull, speed: real, depth: real, distance: real)
    requires hull.draft > 0.0 && hull.beam > 0.0
    ensures IsTable(CY_LOOKUP_MATRIX, 6, 7) && IsTable(CN_LOOKUP_MATRIX, 6, 7)
    ensures var s := ProcessBankForces(hull, speed, depth, distance, Starboard);
            var p := ProcessBankForces(hull, speed, depth, distance, Port);
            var cy := Coefficient(CY_LOOKUP_MATRIX, depth / hull.draft, distance / hull.beam);
            var cn := Coefficient(CN_LOOKUP_MATRIX, depth / hull.draft, distance / hull.beam);
            var drag := 1025.0 * speed * speed * hull.length * hull.draft;
      && 2.0 * s.suctionForce == cy * drag && 2.0 * s.cushionMoment == -cn * drag * hull.length
      && p == BankForces(-s.suctionForce, -s.cushionMoment, s.lockout)
      && (s.lockout <==> cy > 0.06)
  {
    ShippedTables();
    hide Coefficient;
    var cy := Coefficient(CY_LOOKUP_MATRIX, depth / hull.draft, distance / hull.beam);
    var cn := Coefficient(CN_LOOKUP_MATRIX, depth / hull.draft, distance / hull.beam);
    ForcesAre(hull, speed, cy, cn);
    hide ForcesFrom;
  }

  lemma ForcesAre(hull: Hull, speed: real, cy: real, cn: real)
    ensures var s, p := ForcesFrom(hull, speed, cy, cn, Starboard), ForcesFrom(hull, speed, cy, cn, Port);
            var drag := 1025.0 * speed * speed * hull.length * hull.draft;
      && 2.0 * s.suctionForce == cy * drag && 2.0 * s.cushionMoment == -cn * drag * hull.length
      && p == BankForces(-s.suctionForce, -s.cushionMoment, s.lockout)
      && (s.lockout <==> cy > 0.06)
  {
    var v, l := speed * speed, hull.length;
    Product(cy, v, l, hull.draft);
    Product(cn, v, l * l, hull.draft);
    assert 1025.0 * speed * speed * l * hull.draft == 1025.0 * (v * (l * hull.draft));
    assert cn * (1025.0 * (v * (l * hull.draft))) * l == 1025.0 * (cn * v * (l * l) * hull.draft);
  }

  lemma Product(c: real, v: real, l: real, t: real)
    ensures 2.0 * (c * (0.5 * 1025.0 * v) * (l * t)) == c * (1025.0 * (v * (l * t)))
    ensures 2.0 * (c * (0.5 * 1025.0 * v) * l * t) == 1025.0 * (c * v * l * t)
  {
  }

  /** Approaching the wall or shallow water at a fixed speed never weakens the force or the
      moment and never releases the lockout. */
  lemma ApproachTightens(hull: Hull, speed: real, depth: real, depth': real, distance: real, distance': real)
    requires hull.draft > 0.0 && hull.beam > 0.0 && hull.length > 0.0
    requires depth <= depth' && distance <= distance'
    ensures var near := ProcessBankForces(hull, speed, depth, distance, Starboard);
            var far := ProcessBankForces(hull, speed, depth', distance', Starboard);
            && near.suctionForce >= far.suctionForce >= 0.0
            && near.cushionMoment <= far.cushionMoment <= 0.0
            && (far.lockout ==> near.lockout)
  {
    ShippedTables();
    var p, q, p', q' := depth / hull.draft, distance / hull.beam, depth' / hull.draft, distance' / hull.beam;
    DivMono(depth, depth', hull.draft);
    DivMono(distance, distance', hull.beam);
    CoefficientMonotone(CY_LOOKUP_MATRIX, p, p', q, q');
    CoefficientMonotone(CN_LOOKUP_MATRIX, p, p', q, q');
    CoefficientRange(p', q');
    hide Coefficient, Descending, IsAxis, IsTable, ForcesFrom;
    ForcesTighten(hull, speed,
      Coefficient(CY_LOOKUP_MATRIX, p, q), Coefficient(CY_LOOKUP_MATRIX, p', q'),
      Coefficient(CN_LOOKUP_MATRIX, p, q), Coefficient(CN_LOOKUP_MATRIX, p', q'));
  }

  lemma ForcesTighten(hull: Hull, speed: real, cy: real, cy': real, cn: real, cn': real)
    requires hull.draft > 0.0 && hull.length > 0.0
    requires 0.0 <= cy' <= cy && 0.0 <= cn' <= cn
    ensures var near, far := ForcesFrom(hull, speed, cy, cn, Starboard), ForcesFrom(hull, speed, cy', cn', Starboard);
            && near.suctionForce >= far.suctionForce >= 0.0
            && near.cushionMoment <= far.cushionMoment <= 0.0
            && (far.lockout ==> near.lockout)
  {
  }

  lemma CoefficientMonotone(m: seq<seq<real>>, p: real, p': real, q: real, q': real)
    requires IsTable(m, 6, 7) && Descending(m, 6) && p <= p' && q <= q'
    ensures Coefficient(m, p, q) >= Coefficient(m, p', q')
  {
    hide BilinearInterpolate, Descending;
    ShippedTables();
    GlobalMonotone(DEPTH_TO_DRAFT_AXIS, DISTANCE_TO_BEAM_AXIS, m, p, p', q, q');
  }
}
