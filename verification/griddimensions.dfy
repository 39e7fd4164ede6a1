/** Grid sizing from the available width (hooks/useGridDimensions.ts): the
    column count, the cell size that fills the width, and the change check in
    the ResizeObserver callback. */
module GridDimensions {
  import opened Types

  datatype GridState = GridState(cellSize: int, columns: int)

  const MinColumns: int := 4
  const MaxColumns: int := 24

  /** The state before the first measurement. */
  const InitialGrid: GridState := GridState(MinTileSize, 12)

  /** Geometry the pixel-to-cell conversions can use: a column count in range
      and a positive cell pitch (`cellSize + GRID_GAP`). */
  predicate ValidGeometry(g: GridState) {
    MinColumns <= g.columns <= MaxColumns && g.cellSize + GridGap >= 1
  }

  /** `Math.max(4, Math.min(24, floor((width + GRID_GAP) / (MIN_TILE_SIZE + GRID_GAP))))`. */
  function ColumnsFor(width: real): (c: int)
    ensures MinColumns <= c <= MaxColumns
    ensures c * (MinTileSize + GridGap) <= (width + GridGap as real).Floor || c == MinColumns
    ensures (width + GridGap as real).Floor < (c + 1) * (MinTileSize + GridGap) || c == MaxColumns
  {
    var estimated := ((width + GridGap as real) / (MinTileSize + GridGap) as real).Floor;
    if estimated > MaxColumns then MaxColumns else if estimated < MinColumns then MinColumns else estimated
  }

  /** `Math.floor((width - (columns - 1) * GRID_GAP) / columns)`: the largest
      cell size whose row of cells and gaps fits in the width. */
  function CellSizeFor(width: real, columns: int): (cellSize: int)
    requires columns >= 1
    ensures (columns * cellSize + (columns - 1) * GridGap) as real <= width
    ensures width < (columns * (cellSize + 1) + (columns - 1) * GridGap) as real
  {
    var q := (width - ((columns - 1) * GridGap) as real) / columns as real;
    var cellSize := q.Floor;
    assert (columns as real) * q == width - ((columns - 1) * GridGap) as real;
    assert cellSize as real <= q < (cellSize + 1) as real;
    MulLeftMono(columns as real, cellSize as real, q);
    MulLeftMonoStrict(columns as real, q, (cellSize + 1) as real);
    cellSize
  }

  lemma MulLeftMono(c: real, a: real, b: real)
    requires c > 0.0 && a <= b
    ensures c * a <= c * b
  {
  }

  lemma MulLeftMonoStrict(c: real, a: real, b: real)
    requires c > 0.0 && a < b
    ensures c * a < c * b
  {
  }

  /** The state computed from one positive width. */
  function Measure(width: real): (g: GridState)
    requires width > 0.0
    ensures g.columns == ColumnsFor(width)
    ensures (g.columns * g.cellSize + (g.columns - 1) * GridGap) as real <= width
    ensures width < (g.columns * (g.cellSize + 1) + (g.columns - 1) * GridGap) as real
  {
    var columns := ColumnsFor(width);
    GridState(CellSizeFor(width, columns), columns)
  }

  /** Every measurement, like the initial state, is valid geometry. */
  lemma MeasureIsValid(width: real)
    requires width > 0.0
    ensures ValidGeometry(Measure(width))
  {
    var g := Measure(width);
    ColumnsFitWidth(width);
    PitchFromFit(g.columns, g.cellSize, width);
  }

  /** The width plus one gap holds at least one pixel per column. */
  lemma ColumnsFitWidth(width: real)
    requires width > 0.0
    ensures width + GridGap as real >= ColumnsFor(width) as real
  {
    var est := ((width + GridGap as real) / (MinTileSize + GridGap) as real).Floor;
    if est >= MinColumns {
      assert est as real <= (width + GridGap as real) / 78.0;
    }
  }

  /** A width that holds a pixel per column but not `columns` cells one pixel
      wider leaves a positive pitch. */
  lemma PitchFromFit(c: int, cellSize: int, width: real)
    requires c >= 1 && width + GridGap as real >= c as real
    requires width < (c * (cellSize + 1) + (c - 1) * GridGap) as real
    ensures cellSize + GridGap >= 1
  {
    var k := cellSize + GridGap + 1;
    assert c * (cellSize + 1) + (c - 1) * GridGap + GridGap == c * k;
    assert c < c * k;
    PositiveFactor(c, k);
  }

  lemma PositiveFactor(c: int, k: int)
    requires c >= 1 && c < c * k
    ensures k >= 2
  {
    assert c * (k - 2) >= -c * 1 + 1 - c;
  }

  lemma InitialIsValid()
    ensures ValidGeometry(InitialGrid)
  {
  }

  /** The outcome of one ResizeObserver entry: the state to keep and whether a
      new state object replaces the previous one. */
  datatype Update = Update(state: GridState, replaced: bool)

  /** One entry of the ResizeObserver callback. A width of zero or less is
      skipped; otherwise the state is replaced only when a value differs. */
  function ApplyEntry(prev: GridState, width: real): (u: Update)
    ensures width <= 0.0 ==> u == Update(prev, false)
    ensures width > 0.0 ==> u.state == Measure(width)
    ensures u.replaced <==> width > 0.0 && Measure(width) != prev
  {
    if width <= 0.0 then Update(prev, false)
    else
      var next := Measure(width);
      if next.cellSize == prev.cellSize && next.columns == prev.columns then Update(prev, false)
      else Update(next, true)
  }

  /** The whole callback: the entries in order. The state is either the
      previous one or the measurement of some positive width. */
  function ApplyEntries(prev: GridState, widths: seq<real>): (r: GridState)
    ensures r == prev || exists k :: 0 <= k < |widths| && widths[k] > 0.0 && r == Measure(widths[k])
    decreases |widths|
  {
    if |widths| == 0 then prev
    else ApplyEntries(ApplyEntry(prev, widths[0]).state, widths[1..])
  }

  /** The index of the last positive width, if any. */
  function LastPositive(widths: seq<real>): (r: Option<nat>)
    ensures r.Some? ==> r.value < |widths| && widths[r.value] > 0.0
                        && forall j :: r.value < j < |widths| ==> widths[j] <= 0.0
    ensures r.None? ==> forall j :: 0 <= j < |widths| ==> widths[j] <= 0.0
  {
    if |widths| == 0 then None
    else if widths[|widths| - 1] > 0.0 then Some(|widths| - 1)
    else LastPositive(widths[..|widths| - 1])
  }

  /** After the callback the state is the measurement of the last positive
      width, or the previous state when no entry had a positive width. */
  lemma {:induction false} ApplyEntriesKeepsLastMeasurement(prev: GridState, widths: seq<real>)
    ensures LastPositive(widths).None? ==> ApplyEntries(prev, widths) == prev
    ensures LastPositive(widths).Some? ==> ApplyEntries(prev, widths) == Measure(widths[LastPositive(widths).value])
    decreases |widths|
  {
    if |widths| > 0 {
      var next := ApplyEntry(prev, widths[0]).state;
      ApplyEntriesKeepsLastMeasurement(next, widths[1..]);
      var rest := LastPositive(widths[1..]);
      if rest.Some? {
        assert widths[rest.value + 1] == widths[1..][rest.value];
        assert LastPositive(widths) == Some(rest.value + 1) by {
          LastPositiveOfCons(widths, rest.value);
        }
      } else {
        assert forall j :: 1 <= j < |widths| ==> widths[j] == widths[1..][j - 1];
        if widths[0] > 0.0 {
          LastPositiveIsFirst(widths);
        } else {
          LastPositiveNone(widths);
        }
      }
    }
  }

  lemma LastPositiveOfCons(widths: seq<real>, i: nat)
    requires |widths| > 0 && i + 1 < |widths| && widths[i + 1] > 0.0
    requires forall j :: i + 1 < j < |widths| ==> widths[j] <= 0.0
    ensures LastPositive(widths) == Some(i + 1)
  {
    var r := LastPositive(widths);
    assert r.Some? && widths[r.value] > 0.0;
  }

  lemma LastPositiveIsFirst(widths: seq<real>)
    requires |widths| > 0 && widths[0] > 0.0
    requires forall j :: 1 <= j < |widths| ==> widths[j] <= 0.0
    ensures LastPositive(widths) == Some(0)
  {
    var r := LastPositive(widths);
    assert r.Some? && widths[r.value] > 0.0;
  }

  lemma LastPositiveNone(widths: seq<real>)
    requires forall j :: 0 <= j < |widths| ==> widths[j] <= 0.0
    ensures LastPositive(widths).None?
  {
  }

  /** The callback never leaves valid geometry. */
  lemma {:induction false} ApplyEntriesPreservesValidity(prev: GridState, widths: seq<real>)
    requires ValidGeometry(prev)
    ensures ValidGeometry(ApplyEntries(prev, widths))
  {
    ApplyEntriesKeepsLastMeasurement(prev, widths);
    var last := LastPositive(widths);
    if last.Some? {
      MeasureIsValid(widths[last.value]);
    }
  }
}
