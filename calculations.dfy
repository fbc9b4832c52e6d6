/** The weighted-sum scoring engine of calculations.py: column-wise min-max
    normalisation of a strategies-by-criteria score table, the dot product with
    the weight vector, and the strategy-to-score record. Values are `real`s. */
module Calculations {

  /** Row r holds strategy r's raw score on every criterion (a numpy 2-d array). */
  type Matrix = seq<seq<real>>

  /** A non-empty rectangular table: numpy's column reductions need at least one row. */
  predicate IsMatrix(m: Matrix) {
    |m| > 0 && forall r :: 0 <= r < |m| ==> |m[r]| == |m[0]|
  }

  /** The number of criteria (columns). */
  function Width(m: Matrix): nat
    requires IsMatrix(m)
  {
    |m[0]|
  }

  function Column(m: Matrix, j: nat): (col: seq<real>)
    requires IsMatrix(m) && j < Width(m)
  {
    seq(|m|, r requires 0 <= r < |m| => m[r][j])
  }

  /** The least element of a non-empty sequence. */
  function Min(s: seq<real>): (lo: real)
    requires |s| > 0
    ensures forall k :: 0 <= k < |s| ==> lo <= s[k]
    ensures exists k :: 0 <= k < |s| && s[k] == lo
  {
    if |s| == 1 then s[0]
    else
      var rest := Min(s[1..]);
      assert forall k :: 1 <= k < |s| ==> s[k] == s[1..][k - 1];
      if s[0] <= rest then s[0] else rest
  }

  /** The greatest element of a non-empty sequence. */
  function Max(s: seq<real>): (hi: real)
    requires |s| > 0
    ensures forall k :: 0 <= k < |s| ==> s[k] <= hi
    ensures exists k :: 0 <= k < |s| && s[k] == hi
  {
    if |s| == 1 then s[0]
    else
      var rest := Max(s[1..]);
      assert forall k :: 1 <= k < |s| ==> s[k] == s[1..][k - 1];
      if s[0] >= rest then s[0] else rest
  }

  /** `np.min(scores, axis=0)[j]` */
  function ColumnMin(m: Matrix, j: nat): real
    requires IsMatrix(m) && j < Width(m)
  {
    Min(Column(m, j))
  }

  /** `np.max(scores, axis=0)[j]` */
  function ColumnMax(m: Matrix, j: nat): real
    requires IsMatrix(m) && j < Width(m)
  {
    Max(Column(m, j))
  }

  /** The column's range after a zero range has been replaced by 1; it is always positive. */
  function PatchedRange(m: Matrix, j: nat): (d: real)
    requires IsMatrix(m) && j < Width(m)
    ensures d > 0.0
  {
    var col := Column(m, j);
    assert col[0] == m[0][j];
    var range := ColumnMax(m, j) - ColumnMin(m, j);
    if range == 0.0 then 1.0 else range
  }

  /** The columns the final masked assignment overwrites with 0.5: those whose
      PATCHED range equals 1, so both the all-equal columns and those whose
      genuine range is exactly 1. */
  predicate Flattened(m: Matrix, j: nat)
    requires IsMatrix(m) && j < Width(m)
  {
    PatchedRange(m, j) == 1.0
  }

  /** An entry of `(scores - min_vals) / range_vals`, before the masked assignment. */
  function Scaled(m: Matrix, r: nat, j: nat): real
    requires IsMatrix(m) && r < |m| && j < Width(m)
  {
    (m[r][j] - ColumnMin(m, j)) / PatchedRange(m, j)
  }

  function NormalizedEntry(m: Matrix, r: nat, j: nat): real
    requires IsMatrix(m) && r < |m| && j < Width(m)
  {
    if Flattened(m, j) then 0.5 else Scaled(m, r, j)
  }

  /** What `normalize_data(scores)` returns; it has the input's shape. */
  function Normalized(m: Matrix): (n: Matrix)
    requires IsMatrix(m)
    ensures |n| == |m| && forall r :: 0 <= r < |n| ==> |n[r]| == |m[r]|
  {
    seq(|m|, r requires 0 <= r < |m| =>
      seq(Width(m), j requires 0 <= j < Width(m) => NormalizedEntry(m, r, j)))
  }

  /** `range_vals[range_vals == 0] = 1`: every zero range becomes 1, in place. */
  method PatchZeroRanges(rangeVals: array<real>)
    modifies rangeVals
    ensures forall k :: 0 <= k < rangeVals.Length ==>
      rangeVals[k] == if old(rangeVals[k]) == 0.0 then 1.0 else old(rangeVals[k])
  {
    for c := 0 to rangeVals.Length
      invariant forall k :: 0 <= k < c ==>
        rangeVals[k] == if old(rangeVals[k]) == 0.0 then 1.0 else old(rangeVals[k])
      invariant forall k :: c <= k < rangeVals.Length ==> rangeVals[k] == old(rangeVals[k])
    {
      if rangeVals[c] == 0.0 {
        rangeVals[c] := 1.0;
      }
    }
  }

  /** `normalized_scores[:, range_vals == 1] = 0.5`: every column whose range
      entry is 1 is overwritten with 0.5, in place; the others are untouched. */
  method FlattenUnitColumns(grid: array2<real>, rangeVals: array<real>)
    requires grid.Length1 == rangeVals.Length
    modifies grid
    ensures forall i, k :: 0 <= i < grid.Length0 && 0 <= k < grid.Length1 ==>
      grid[i, k] == if rangeVals[k] == 1.0 then 0.5 else old(grid[i, k])
  {
    for c := 0 to grid.Length1
      invariant forall i, k :: 0 <= i < grid.Length0 && 0 <= k < c ==>
        grid[i, k] == if rangeVals[k] == 1.0 then 0.5 else old(grid[i, k])
      invariant forall i, k :: 0 <= i < grid.Length0 && c <= k < grid.Length1 ==> grid[i, k] == old(grid[i, k])
    {
      if rangeVals[c] == 1.0 {
        for r := 0 to grid.Length0
          invariant forall i, k :: 0 <= i < grid.Length0 && 0 <= k < c ==>
            grid[i, k] == if rangeVals[k] == 1.0 then 0.5 else old(grid[i, k])
          invariant forall i, k :: 0 <= i < grid.Length0 && c < k < grid.Length1 ==> grid[i, k] == old(grid[i, k])
          invariant forall i :: 0 <= i < r ==> grid[i, c] == 0.5
          invariant forall i :: r <= i < grid.Length0 ==> grid[i, c] == old(grid[i, c])
        {
          grid[r, c] := 0.5;
        }
      }
    }
  }

  /** normalize_data: the column extrema, the range with its zeros patched to 1
      in place, the scaled table, and the in-place overwrite of every column
      whose patched range is 1 with 0.5. */
  method NormalizeData(scores: Matrix) returns (normalized: Matrix)
    requires IsMatrix(scores)
    ensures normalized == Normalized(scores)
  {
    var rows, cols := |scores|, Width(scores);
    var minVals := new real[cols](c requires 0 <= c < cols => ColumnMin(scores, c));
    var rangeVals := new real[cols](c requires 0 <= c < cols => ColumnMax(scores, c) - ColumnMin(scores, c));
    PatchZeroRanges(rangeVals);
    assert forall k :: 0 <= k < cols ==> rangeVals[k] == PatchedRange(scores, k);

    var grid := Scale(scores, minVals, rangeVals);
    assert forall i, k :: 0 <= i < rows && 0 <= k < cols ==> grid[i, k] == Scaled(scores, i, k);
    FlattenUnitColumns(grid, rangeVals);
    assert forall i, k :: 0 <= i < rows && 0 <= k < cols ==> grid[i, k] == NormalizedEntry(scores, i, k);

    normalized := RowsOf(grid);
    EntrywiseNormalized(scores, normalized);
  }

  /** A table of the input's shape holding the normalised entries is the
      normalised table. */
  lemma EntrywiseNormalized(m: Matrix, n: Matrix)
    requires IsMatrix(m) && |n| == |m|
    requires forall r :: 0 <= r < |n| ==> |n[r]| == Width(m)
    requires forall r, j :: 0 <= r < |n| && 0 <= j < Width(m) ==> n[r][j] == NormalizedEntry(m, r, j)
    ensures n == Normalized(m)
  {
    forall r | 0 <= r < |n|
      ensures n[r] == Normalized(m)[r]
    {
      assert |Normalized(m)[r]| == Width(m);
    }
  }

  /** `(scores - min_vals) / range_vals`: every entry shifted by its column's
      minimum and divided by its column's range, into a new table. */
  method Scale(scores: Matrix, minVals: array<real>, rangeVals: array<real>) returns (grid: array2<real>)
    requires IsMatrix(scores) && minVals.Length == Width(scores) && rangeVals.Length == Width(scores)
    requires forall k :: 0 <= k < rangeVals.Length ==> rangeVals[k] != 0.0
    ensures fresh(grid) && grid.Length0 == |scores| && grid.Length1 == Width(scores)
    ensures forall i, k :: 0 <= i < grid.Length0 && 0 <= k < grid.Length1 ==>
      grid[i, k] == (scores[i][k] - minVals[k]) / rangeVals[k]
  {
    var rows, cols := |scores|, Width(scores);
    grid := new real[rows, cols]((r, c) requires 0 <= r < rows && 0 <= c < cols && rangeVals[c] != 0.0
                                          reads minVals, rangeVals =>
      (scores[r][c] - minVals[c]) / rangeVals[c]);
  }

  /** The rows of a two-dimensional array, as a table. */
  method RowsOf(grid: array2<real>) returns (rows: Matrix)
    ensures |rows| == grid.Length0
    ensures forall i :: 0 <= i < |rows| ==> |rows[i]| == grid.Length1
    ensures forall i, k :: 0 <= i < |rows| && 0 <= k < grid.Length1 ==> rows[i][k] == grid[i, k]
  {
    rows := seq(grid.Length0, r requires 0 <= r < grid.Length0 reads grid =>
      seq(grid.Length1, c requires 0 <= c < grid.Length1 reads grid => grid[r, c]));
  }

  // ---------------------------------------------------------------------------
  // Properties of the normalised table

  lemma DivisionInUnitInterval(a: real, d: real)
    requires 0.0 <= a <= d && d > 0.0
    ensures 0.0 <= a / d <= 1.0
  {
    assert a / d * d == a;
  }

  lemma DivisionEndpoints(d: real)
    requires d != 0.0
    ensures 0.0 / d == 0.0 && d / d == 1.0
  {
  }

  lemma DivisionDistributes(a: real, b: real, d: real)
    requires d != 0.0
    ensures (a + b) / d == a / d + b / d
  {
  }

  lemma DivisionMonotone(a: real, b: real, d: real)
    requires d > 0.0
    ensures a <= b <==> a / d <= b / d
    ensures a < b <==> a / d < b / d
  {
    assert a / d * d == a && b / d * d == b;
    assert (b / d - a / d) * d == b - a;
  }

  /** Every entry of a column lies between the column's extrema, and both extrema occur in it. */
  lemma ColumnExtrema(m: Matrix, j: nat)
    requires IsMatrix(m) && j < Width(m)
    ensures forall r :: 0 <= r < |m| ==> ColumnMin(m, j) <= m[r][j] <= ColumnMax(m, j)
    ensures exists r :: 0 <= r < |m| && m[r][j] == ColumnMin(m, j)
    ensures exists r :: 0 <= r < |m| && m[r][j] == ColumnMax(m, j)
  {
    var col := Column(m, j);
    assert forall r :: 0 <= r < |m| ==> col[r] == m[r][j];
    var lo :| 0 <= lo < |col| && col[lo] == ColumnMin(m, j);
    var hi :| 0 <= hi < |col| && col[hi] == ColumnMax(m, j);
    assert m[lo][j] == ColumnMin(m, j);
    assert m[hi][j] == ColumnMax(m, j);
  }

  /** A column in which every strategy has the same raw score comes out as 0.5 in every row. */
  lemma ConstantColumnIsHalf(m: Matrix, j: nat)
    requires IsMatrix(m) && j < Width(m)
    requires forall r :: 0 <= r < |m| ==> m[r][j] == m[0][j]
    ensures ColumnMax(m, j) - ColumnMin(m, j) == 0.0
    ensures forall r :: 0 <= r < |m| ==> Normalized(m)[r][j] == 0.5
  {
    ColumnExtrema(m, j);
  }

  /** A column comes out as 0.5 in every row exactly when its raw range is 0 or
      1: the mask tests the range after zero ranges were patched to 1, so a
      genuine range of 1 is flattened as well. */
  lemma HalfColumnExactly(m: Matrix, j: nat)
    requires IsMatrix(m) && j < Width(m)
    ensures (forall r :: 0 <= r < |m| ==> Normalized(m)[r][j] == 0.5) <==>
            (ColumnMax(m, j) - ColumnMin(m, j) == 0.0 || ColumnMax(m, j) - ColumnMin(m, j) == 1.0)
  {
    if !Flattened(m, j) {
      ColumnExtrema(m, j);
      var lo :| 0 <= lo < |m| && m[lo][j] == ColumnMin(m, j);
      assert Normalized(m)[lo][j] == 0.0 / PatchedRange(m, j) == 0.0;
    }
  }

  /** Outside the flattened columns every entry is (s - min) / (max - min), the
      column's minimum maps to 0 and its maximum to 1. */
  lemma UnflattenedColumn(m: Matrix, j: nat)
    requires IsMatrix(m) && j < Width(m)
    requires !Flattened(m, j)
    ensures ColumnMax(m, j) - ColumnMin(m, j) > 0.0 && ColumnMax(m, j) - ColumnMin(m, j) != 1.0
    ensures forall r :: 0 <= r < |m| ==>
      Normalized(m)[r][j] == (m[r][j] - ColumnMin(m, j)) / (ColumnMax(m, j) - ColumnMin(m, j))
    ensures forall r :: 0 <= r < |m| && m[r][j] == ColumnMin(m, j) ==> Normalized(m)[r][j] == 0.0
    ensures forall r :: 0 <= r < |m| && m[r][j] == ColumnMax(m, j) ==> Normalized(m)[r][j] == 1.0
  {
    ColumnExtrema(m, j);
    var lo, d := ColumnMin(m, j), ColumnMax(m, j) - ColumnMin(m, j);
    assert d == PatchedRange(m, j);
    DivisionEndpoints(d);
    forall r | 0 <= r < |m|
      ensures Normalized(m)[r][j] == (m[r][j] - lo) / d
    {
      assert Normalized(m)[r][j] == NormalizedEntry(m, r, j);
    }
  }

  /** Every entry of the normalised table lies in [0, 1]. */
  lemma NormalizedInUnitInterval(m: Matrix)
    requires IsMatrix(m)
    ensures forall r, j :: 0 <= r < |m| && 0 <= j < Width(m) ==> 0.0 <= Normalized(m)[r][j] <= 1.0
  {
    forall r, j | 0 <= r < |m| && 0 <= j < Width(m)
      ensures 0.0 <= Normalized(m)[r][j] <= 1.0
    {
      if !Flattened(m, j) {
        ColumnExtrema(m, j);
        DivisionInUnitInterval(m[r][j] - ColumnMin(m, j), ColumnMax(m, j) - ColumnMin(m, j));
      }
    }
  }

  /** A higher raw score never gives a lower normalised value, and outside the
      flattened columns the order of raw scores is the order of normalised values. */
  lemma NormalizedPreservesOrder(m: Matrix, j: nat, a: nat, b: nat)
    requires IsMatrix(m) && j < Width(m) && a < |m| && b < |m|
    ensures m[a][j] <= m[b][j] ==> Normalized(m)[a][j] <= Normalized(m)[b][j]
    ensures !Flattened(m, j) ==> (m[a][j] < m[b][j] <==> Normalized(m)[a][j] < Normalized(m)[b][j])
  {
    if !Flattened(m, j) {
      DivisionMonotone(m[a][j] - ColumnMin(m, j), m[b][j] - ColumnMin(m, j), PatchedRange(m, j));
    }
  }

  // ---------------------------------------------------------------------------
  // calculate_final_scores: the dot product with the weight vector

  function Sum(w: seq<real>): real
  {
    if |w| == 0 then 0.0 else w[0] + Sum(w[1..])
  }

  /** Σ_c row[c] * w[c] */
  function Dot(row: seq<real>, w: seq<real>): real
    requires |row| == |w|
  {
    if |row| == 0 then 0.0 else row[0] * w[0] + Dot(row[1..], w[1..])
  }

  predicate NonNegative(w: seq<real>) {
    forall c :: 0 <= c < |w| ==> w[c] >= 0.0
  }

  predicate InUnitInterval(row: seq<real>) {
    forall c :: 0 <= c < |row| ==> 0.0 <= row[c] <= 1.0
  }

  /** `np.dot(normalized_scores, weights)`: one score per strategy. */
  function FinalScores(norm: Matrix, w: seq<real>): (f: seq<real>)
    requires forall r :: 0 <= r < |norm| ==> |norm[r]| == |w|
    ensures |f| == |norm|
    ensures forall r :: 0 <= r < |norm| && InUnitInterval(norm[r]) && NonNegative(w) ==> 0.0 <= f[r] <= Sum(w)
  {
    DotBoundsEveryRow(norm, w);
    seq(|norm|, r requires 0 <= r < |norm| => Dot(norm[r], w))
  }

  lemma DotBoundsEveryRow(norm: Matrix, w: seq<real>)
    requires forall r :: 0 <= r < |norm| ==> |norm[r]| == |w|
    ensures forall r :: 0 <= r < |norm| && InUnitInterval(norm[r]) && NonNegative(w) ==> 0.0 <= Dot(norm[r], w) <= Sum(w)
  {
    forall r | 0 <= r < |norm| && InUnitInterval(norm[r]) && NonNegative(w)
      ensures 0.0 <= Dot(norm[r], w) <= Sum(w)
    {
      DotBounds(norm[r], w);
    }
  }

  /** With entries in [0, 1] and non-negative weights, a dot product lies between 0 and the weight total. */
  lemma {:induction false} DotBounds(row: seq<real>, w: seq<real>)
    requires |row| == |w| && InUnitInterval(row) && NonNegative(w)
    ensures 0.0 <= Dot(row, w) <= Sum(w)
  {
    if |row| > 0 {
      var x, v := row[0], w[0];
      assert 0.0 <= x <= 1.0 && v >= 0.0;
      assert InUnitInterval(row[1..]) && NonNegative(w[1..]);
      DotBounds(row[1..], w[1..]);
      var rest, restSum := Dot(row[1..], w[1..]), Sum(w[1..]);
      ScaledWeightBounds(x, v);
      var p := x * v;
      assert Dot(row, w) == p + rest;
      assert Sum(w) == v + restSum;
    }
  }

  lemma ScaledWeightBounds(x: real, v: real)
    requires 0.0 <= x <= 1.0 && v >= 0.0
    ensures 0.0 <= x * v <= v
  {
    assert v - x * v == (1.0 - x) * v;
  }

  /** With non-negative weights, a row that is at least as high in every column scores at least as high. */
  lemma {:induction false} DotMonotone(lower: seq<real>, upper: seq<real>, w: seq<real>)
    requires |lower| == |upper| == |w| && NonNegative(w)
    requires forall c :: 0 <= c < |w| ==> lower[c] <= upper[c]
    ensures Dot(lower, w) <= Dot(upper, w)
  {
    if |w| > 0 {
      DotMonotone(lower[1..], upper[1..], w[1..]);
      assert upper[0] * w[0] - lower[0] * w[0] == (upper[0] - lower[0]) * w[0];
    }
  }

  /** Each final score is the dot product of the strategy's normalised row with
      the weights and, with non-negative weights, lies between 0 and the weight total. */
  lemma FinalScoresBounded(m: Matrix, w: seq<real>)
    requires IsMatrix(m) && |w| == Width(m) && NonNegative(w)
    ensures |FinalScores(Normalized(m), w)| == |m|
    ensures forall r :: 0 <= r < |m| ==> 0.0 <= FinalScores(Normalized(m), w)[r] <= Sum(w)
  {
    var n := Normalized(m);
    NormalizedInUnitInterval(m);
    forall r | 0 <= r < |m|
      ensures 0.0 <= FinalScores(n, w)[r] <= Sum(w)
    {
      assert InUnitInterval(n[r]);
      DotBounds(n[r], w);
    }
  }

  /** If strategy `a` has at least strategy `b`'s raw score on every criterion
      and no weight is negative, `a`'s final score is at least `b`'s. */
  lemma DominantStrategyScoresHigher(m: Matrix, w: seq<real>, a: nat, b: nat)
    requires IsMatrix(m) && |w| == Width(m) && NonNegative(w) && a < |m| && b < |m|
    requires forall c :: 0 <= c < Width(m) ==> m[b][c] <= m[a][c]
    ensures FinalScores(Normalized(m), w)[b] <= FinalScores(Normalized(m), w)[a]
  {
    var n := Normalized(m);
    forall c | 0 <= c < Width(m)
      ensures n[b][c] <= n[a][c]
    {
      NormalizedPreservesOrder(m, c, b, a);
    }
    DotMonotone(n[b], n[a], w);
  }

  // ---------------------------------------------------------------------------
  // evaluate_integration: the strategy-to-score record

  /** No later position holds the same name as position i. */
  predicate LastOccurrence<K(==)>(names: seq<K>, i: nat)
    requires i < |names|
  {
    forall j :: i < j < |names| ==> names[j] != names[i]
  }

  predicate Distinct<K(==)>(names: seq<K>) {
    forall i, j :: 0 <= i < j < |names| ==> names[i] != names[j]
  }

  /** `{names[i]: scores[i] for i in range(len(names))}`, inserting in index
      order; its keys are exactly the names. */
  function ResultMap<K(==)>(names: seq<K>, scores: seq<real>): (result: map<K, real>)
    requires |names| <= |scores|
    ensures result.Keys == Names(names)
  {
    if |names| == 0 then map[]
    else
      var k := |names| - 1;
      KeysOfSnoc(names);
      ResultMap(names[..k], scores)[names[k] := scores[k]]
  }

  /** A repeated name keeps the score of its last position: later entries overwrite earlier ones. */
  lemma {:induction false} LaterNameWins<K>(names: seq<K>, scores: seq<real>)
    requires |names| <= |scores|
    ensures forall i :: 0 <= i < |names| && LastOccurrence(names, i) ==> ResultMap(names, scores)[names[i]] == scores[i]
  {
    if |names| > 0 {
      var k := |names| - 1;
      var init := names[..k];
      LaterNameWins(init, scores);
      forall i | 0 <= i < |names| && LastOccurrence(names, i)
        ensures ResultMap(names, scores)[names[i]] == scores[i]
      {
        if i < k {
          assert names[i] != names[k] && init[i] == names[i];
          assert LastOccurrence(init, i);
        }
      }
    }
  }

  /** Every name has a last position at or after any position that holds it. */
  lemma {:induction false} LastOccurrenceExists<K>(names: seq<K>, i: nat)
    requires i < |names|
    ensures exists j :: i <= j < |names| && names[j] == names[i] && LastOccurrence(names, j)
    decreases |names| - i
  {
    if !LastOccurrence(names, i) {
      var j :| i < j < |names| && names[j] == names[i];
      LastOccurrenceExists(names, j);
    }
  }

  /** The distinct names of a sequence. */
  function Names<K(==)>(names: seq<K>): set<K> {
    set n | n in names
  }

  lemma KeysOfSnoc<K>(names: seq<K>)
    requires |names| > 0
    ensures Names(names) == Names(names[..|names| - 1]) + {names[|names| - 1]}
  {
    var init := names[..|names| - 1];
    assert names == init + [names[|names| - 1]];
  }

  /** The record holds one entry per distinct name, so it has as many entries as
      there are names exactly when no name repeats. */
  lemma {:induction false} ResultSize<K>(names: seq<K>, scores: seq<real>)
    requires |names| <= |scores|
    ensures |ResultMap(names, scores)| <= |names|
    ensures |ResultMap(names, scores)| == |names| <==> Distinct(names)
  {
    if |names| > 0 {
      var k := |names| - 1;
      var init := names[..k];
      ResultSize(init, scores);
      KeysOfSnoc(names);
      var keys := Names(names);
      var initKeys := Names(init);
      assert |ResultMap(names, scores)| == |keys|;
      assert |ResultMap(init, scores)| == |initKeys|;
      if names[k] in init {
        var i :| 0 <= i < k && init[i] == names[k];
        assert names[i] == names[k];
        assert keys == initKeys;
      } else {
        assert |keys| == |initKeys| + 1;
        DistinctSnoc(names);
      }
    }
  }

  lemma DistinctSnoc<K>(names: seq<K>)
    requires |names| > 0 && names[|names| - 1] !in names[..|names| - 1]
    ensures Distinct(names) <==> Distinct(names[..|names| - 1])
  {
    var k := |names| - 1;
    var init := names[..k];
    if Distinct(init) {
      forall i, j | 0 <= i < j < |names| ensures names[i] != names[j] {
        if j < k {
          assert names[i] == init[i] && names[j] == init[j];
        } else {
          assert init[i] in init;
        }
      }
    }
  }

  /** evaluate_integration: normalise, take the dot product with the weights,
      and record each strategy's score under its name; when names repeat, the
      later strategy's score wins. */
  function EvaluateIntegration(strategies: seq<string>, weights: seq<real>, scores: Matrix): (result: map<string, real>)
    requires IsMatrix(scores) && |weights| == Width(scores) && |strategies| <= |scores|
    ensures result.Keys == Names(strategies)
    ensures forall i :: 0 <= i < |strategies| && LastOccurrence(strategies, i) ==>
      result[strategies[i]] == Dot(Normalized(scores)[i], weights)
  {
    LaterNameWins(strategies, FinalScores(Normalized(scores), weights));
    ResultMap(strategies, FinalScores(Normalized(scores), weights))
  }

  /** With distinct names the record has one entry per strategy, each holding
      that strategy's own final score. */
  lemma DistinctNamesKeepEveryScore(strategies: seq<string>, weights: seq<real>, scores: Matrix)
    requires IsMatrix(scores) && |weights| == Width(scores) && |strategies| <= |scores|
    requires Distinct(strategies)
    ensures |EvaluateIntegration(strategies, weights, scores)| == |strategies|
    ensures forall i :: 0 <= i < |strategies| ==>
      EvaluateIntegration(strategies, weights, scores)[strategies[i]] == FinalScores(Normalized(scores), weights)[i]
  {
    var f := FinalScores(Normalized(scores), weights);
    ResultSize(strategies, f);
    LaterNameWins(strategies, f);
    assert forall i :: 0 <= i < |strategies| ==> LastOccurrence(strategies, i);
  }

  /** Every value in the record is the score of some position. */
  lemma RecordedValuesAreScores<K>(names: seq<K>, scores: seq<real>)
    requires |names| <= |scores|
    ensures forall n :: n in ResultMap(names, scores) ==>
      exists i :: 0 <= i < |names| && names[i] == n && ResultMap(names, scores)[n] == scores[i]
  {
    var result := ResultMap(names, scores);
    LaterNameWins(names, scores);
    forall n | n in result
      ensures exists i :: 0 <= i < |names| && names[i] == n && result[n] == scores[i]
    {
      var i :| 0 <= i < |names| && names[i] == n;
      LastOccurrenceExists(names, i);
      var j :| i <= j < |names| && names[j] == names[i] && LastOccurrence(names, j);
      assert result[n] == scores[j];
    }
  }

  /** With non-negative weights every recorded score lies between 0 and the weight total. */
  lemma RecordedScoresBounded(strategies: seq<string>, weights: seq<real>, scores: Matrix)
    requires IsMatrix(scores) && |weights| == Width(scores) && |strategies| <= |scores|
    requires NonNegative(weights)
    ensures forall n :: n in EvaluateIntegration(strategies, weights, scores) ==>
      0.0 <= EvaluateIntegration(strategies, weights, scores)[n] <= Sum(weights)
  {
    var f := FinalScores(Normalized(scores), weights);
    FinalScoresBounded(scores, weights);
    RecordedValuesAreScores(strategies, f);
  }

  // ---------------------------------------------------------------------------
  // The unit-range columns: the code as written against the rule its comment states

  /** Two strategies scoring 3 and 4 on one criterion: the code flattens the
      column to 0.5, where the stated rule gives 0 and 1. */
  lemma UnitRangeColumnFlattened()
    ensures Normalized([[3.0], [4.0]]) == [[0.5], [0.5]]
    ensures IntendedNormalized([[3.0], [4.0]]) == [[0.0], [1.0]]
  {
    var m: Matrix := [[3.0], [4.0]];
    assert Column(m, 0) == [3.0, 4.0];
    assert [3.0, 4.0][1..] == [4.0];
    assert ColumnMin(m, 0) == 3.0 && ColumnMax(m, 0) == 4.0;
    assert PatchedRange(m, 0) == 1.0;
    assert Normalized(m)[0] == [0.5] && Normalized(m)[1] == [0.5];
    assert IntendedEntry(m, 0, 0) == 0.0 && IntendedEntry(m, 1, 0) == 1.0;
    assert IntendedNormalized(m)[0] == [0.0] && IntendedNormalized(m)[1] == [1.0];
  }

  /** Normalisation as the comment on the masked assignment describes it: only
      a column in which every strategy scores the same is set to 0.5. */
  function IntendedEntry(m: Matrix, r: nat, j: nat): real
    requires IsMatrix(m) && r < |m| && j < Width(m)
  {
    var range := ColumnMax(m, j) - ColumnMin(m, j);
    if range == 0.0 then 0.5 else (m[r][j] - ColumnMin(m, j)) / range
  }

  function IntendedNormalized(m: Matrix): (n: Matrix)
    requires IsMatrix(m)
    ensures |n| == |m| && forall r :: 0 <= r < |n| ==> |n[r]| == |m[r]|
  {
    seq(|m|, r requires 0 <= r < |m| =>
      seq(Width(m), j requires 0 <= j < Width(m) => IntendedEntry(m, r, j)))
  }

  /** Under the stated rule, a column is 0.5 throughout exactly when all its scores are equal. */
  lemma IntendedHalfColumnExactly(m: Matrix, j: nat)
    requires IsMatrix(m) && j < Width(m)
    ensures (forall r :: 0 <= r < |m| ==> IntendedNormalized(m)[r][j] == 0.5) <==>
            (forall r :: 0 <= r < |m| ==> m[r][j] == m[0][j])
  {
    var n := IntendedNormalized(m);
    ColumnExtrema(m, j);
    var lo, hi := ColumnMin(m, j), ColumnMax(m, j);
    if hi != lo {
      var a :| 0 <= a < |m| && m[a][j] == lo;
      var b :| 0 <= b < |m| && m[b][j] == hi;
      DivisionEndpoints(hi - lo);
      assert n[a][j] == 0.0;
      assert m[a][j] != m[0][j] || m[b][j] != m[0][j];
    }
  }

  /** Under the stated rule, every column with differing scores spans [0, 1]
      from its minimum to its maximum. */
  lemma IntendedColumnSpan(m: Matrix, j: nat)
    requires IsMatrix(m) && j < Width(m)
    requires ColumnMax(m, j) != ColumnMin(m, j)
    ensures forall r :: 0 <= r < |m| ==> 0.0 <= IntendedNormalized(m)[r][j] <= 1.0
    ensures forall r :: 0 <= r < |m| && m[r][j] == ColumnMin(m, j) ==> IntendedNormalized(m)[r][j] == 0.0
    ensures forall r :: 0 <= r < |m| && m[r][j] == ColumnMax(m, j) ==> IntendedNormalized(m)[r][j] == 1.0
  {
    var n := IntendedNormalized(m);
    ColumnExtrema(m, j);
    var lo, hi := ColumnMin(m, j), ColumnMax(m, j);
    DivisionEndpoints(hi - lo);
    forall r | 0 <= r < |m|
      ensures 0.0 <= n[r][j] <= 1.0
    {
      DivisionInUnitInterval(m[r][j] - lo, hi - lo);
    }
  }

  /** The code as written and the stated rule agree on every column whose raw
      range is not exactly 1. */
  lemma AgreesWithIntendedOffUnitRange(m: Matrix, j: nat)
    requires IsMatrix(m) && j < Width(m)
    requires ColumnMax(m, j) - ColumnMin(m, j) != 1.0
    ensures forall r :: 0 <= r < |m| ==> Normalized(m)[r][j] == IntendedNormalized(m)[r][j]
  {
  }
}
