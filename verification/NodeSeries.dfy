/** Chart series over a viewport: one built from tile aggregates, one built row by row. */
module NodeSeries {
  import opened Tiles
  import opened Bins
  import opened TraceIndex

  /** A plotted point: the rows it is labelled with and its value. */
  datatype Point = Point(startRow: nat, endRow: nat, xMid: real, y: real)

  function PointOver(startRow: nat, endRow: nat, y: real): Point
  {
    Point(startRow, endRow, (startRow + endRow) as real / 2.0, y)
  }

  function Average(rows: seq<TraceRow>, m: Measure): real
    requires rows != []
  {
    Total(rows, m) / |rows| as real
  }

  /** A point labelled with the rows `span` and valued at their average. */
  ghost predicate AveragesItsRows(p: Point, rows: seq<TraceRow>, span: (nat, nat), m: Measure)
  {
    && span.0 < span.1 <= |rows|
    && p == PointOver(span.0, span.1, Average(rows[span.0..span.1], m))
  }

  /** The points' labels are non-empty and follow each other from end to end of the viewport. */
  predicate LabelsTile(points: seq<Point>, view: Viewport)
  {
    && points != []
    && points[0].startRow == view.startRow && points[|points| - 1].endRow == view.endRow
    && (forall b :: 0 <= b < |points| - 1 ==> points[b].endRow == points[b + 1].startRow)
    && forall b :: 0 <= b < |points| ==> points[b].startRow < points[b].endRow
  }

  /** The labels tile the viewport, and each point's value is the average of the rows it is labelled with. */
  ghost predicate PlotsAverages(points: seq<Point>, rows: seq<TraceRow>, view: Viewport, m: Measure)
  {
    && LabelsTile(points, view)
    && forall b :: 0 <= b < |points| ==> AveragesItsRows(points[b], rows, (points[b].startRow, points[b].endRow), m)
  }

  // ---------- Edges between tiles ----------

  /** Row at which tile `k` starts; the end of the trace after the last tile. */
  function Edge(k: nat, coarse: nat, rowCount: nat): nat
  {
    AtMost(TileStart(k, coarse), rowCount)
  }

  lemma EdgeFacts(k: nat, coarse: nat, rowCount: nat)
    requires coarse > 0
    ensures Edge(0, coarse, rowCount) == 0
    ensures k < TileCount(coarse, rowCount) ==>
              Edge(k, coarse, rowCount) == TileStart(k, coarse)
              && Edge(k + 1, coarse, rowCount) == TileEnd(k, coarse, rowCount)
              && Edge(k, coarse, rowCount) < Edge(k + 1, coarse, rowCount)
    ensures TileCount(coarse, rowCount) <= k ==> Edge(k, coarse, rowCount) == rowCount
  {
    TileBounds(k, coarse, rowCount);
  }

  lemma {:induction false} EdgesIncrease(a: nat, b: nat, coarse: nat, rowCount: nat)
    requires coarse > 0 && a <= b
    ensures Edge(a, coarse, rowCount) <= Edge(b, coarse, rowCount)
    ensures a < b && a < TileCount(coarse, rowCount) ==> Edge(a, coarse, rowCount) < Edge(b, coarse, rowCount)
    decreases b
  {
    hide Edge, TileStart, TileEnd, TileCount;
    if a < b {
      EdgesIncrease(a, b - 1, coarse, rowCount);
      EdgeFacts(b - 1, coarse, rowCount);
      EdgeFacts(b, coarse, rowCount);
    }
  }

  lemma TileIs(tiles: seq<Tile>, rows: seq<TraceRow>, coarse: nat, nodeCount: nat, k: nat)
    requires coarse > 0 && Tiled(tiles, rows, coarse, nodeCount) && k < |tiles|
    ensures var from, to := Edge(k, coarse, |rows|), Edge(k + 1, coarse, |rows|);
            && from < to <= |rows| && to - from <= coarse
            && tiles[k] == TileOf(from, rows[from..to], nodeCount)
  {
    EdgeFacts(k, coarse, |rows|);
    TileBounds(k, coarse, |rows|);
  }

  /** What is needed for the figures of tiles to be plain sums. */
  predicate Summable(coarse: nat, nodeCount: nat, m: Measure)
  {
    coarse > 0 && m.Within(nodeCount) && (m.NodeWins? ==> coarse <= U32_MAX)
  }

  function SumOverTiles(tiles: seq<Tile>, nodeCount: nat, m: Measure): real
    requires m.Within(nodeCount) && forall k :: 0 <= k < |tiles| ==> Sized(tiles[k], nodeCount)
  {
    if tiles == [] then 0.0
    else
      var last := |tiles| - 1;
      assert Sized(tiles[last], nodeCount);
      SumOverTiles(tiles[..last], nodeCount, m) + TileValue(tiles[last], m)
  }

  function CountOverTiles(tiles: seq<Tile>): nat
  {
    if tiles == [] then 0 else CountOverTiles(tiles[..|tiles| - 1]) + tiles[|tiles| - 1].count
  }

  lemma TileFigures(tiles: seq<Tile>, rows: seq<TraceRow>, coarse: nat, nodeCount: nat, m: Measure, k: nat)
    requires Summable(coarse, nodeCount, m) && Tiled(tiles, rows, coarse, nodeCount) && k < |tiles|
    ensures var from, to := Edge(k, coarse, |rows|), Edge(k + 1, coarse, |rows|);
            && from < to <= |rows|
            && Sized(tiles[k], nodeCount)
            && tiles[k].startRow == from && tiles[k].endRow == to && tiles[k].count == to - from
            && TileValue(tiles[k], m) == Total(rows[from..to], m)
  {
    hide Edge, Tiled, TileValue, Total, TileOf;
    var from, to := Edge(k, coarse, |rows|), Edge(k + 1, coarse, |rows|);
    TileIs(tiles, rows, coarse, nodeCount, k);
    TileShape(from, rows[from..to], nodeCount);
    TileTotals(from, rows[from..to], nodeCount, m);
  }

  lemma AllSized(tiles: seq<Tile>, rows: seq<TraceRow>, coarse: nat, nodeCount: nat, m: Measure)
    requires Summable(coarse, nodeCount, m) && Tiled(tiles, rows, coarse, nodeCount)
    ensures forall k :: 0 <= k < |tiles| ==> Sized(tiles[k], nodeCount)
  {
    forall k | 0 <= k < |tiles| ensures Sized(tiles[k], nodeCount) {
      TileFigures(tiles, rows, coarse, nodeCount, m, k);
    }
  }

  /** The tiles' figures add up to the plain sum over rows `from` to `to`, and their counts to how many these are. */
  ghost predicate SumsRows(tiles: seq<Tile>, nodeCount: nat, m: Measure, rows: seq<TraceRow>, from: nat, to: nat)
    requires m.Within(nodeCount) && forall k :: 0 <= k < |tiles| ==> Sized(tiles[k], nodeCount)
  {
    && from <= to <= |rows|
    && SumOverTiles(tiles, nodeCount, m) == Total(rows[from..to], m)
    && CountOverTiles(tiles) == to - from
  }

  lemma RangeTotalsStep(tiles: seq<Tile>, rows: seq<TraceRow>, coarse: nat, nodeCount: nat, m: Measure, a: nat, b: nat)
    requires Summable(coarse, nodeCount, m) && Tiled(tiles, rows, coarse, nodeCount)
    requires forall k :: 0 <= k < |tiles| ==> Sized(tiles[k], nodeCount)
    requires a < b <= |tiles|
    requires SumsRows(tiles[a..b - 1], nodeCount, m, rows, Edge(a, coarse, |rows|), Edge(b - 1, coarse, |rows|))
    ensures SumsRows(tiles[a..b], nodeCount, m, rows, Edge(a, coarse, |rows|), Edge(b, coarse, |rows|))
  {
    hide Edge, Tiled, TileValue, Sized, SumOverTiles, CountOverTiles, Total;
    TileFigures(tiles, rows, coarse, nodeCount, m, b - 1);
    var from, mid, to := Edge(a, coarse, |rows|), Edge(b - 1, coarse, |rows|), Edge(b, coarse, |rows|);
    assert rows[from..to] == rows[from..mid] + rows[mid..to];
    TotalOfConcat(rows[from..mid], rows[mid..to], m);
    OneMoreTile(tiles, nodeCount, m, a, b);
  }

  lemma OneMoreTile(tiles: seq<Tile>, nodeCount: nat, m: Measure, a: nat, b: nat)
    requires m.Within(nodeCount) && forall k :: 0 <= k < |tiles| ==> Sized(tiles[k], nodeCount)
    requires a < b <= |tiles| && Sized(tiles[b - 1], nodeCount)
    ensures SumOverTiles(tiles[a..b], nodeCount, m)
         == SumOverTiles(tiles[a..b - 1], nodeCount, m) + TileValue(tiles[b - 1], m)
    ensures CountOverTiles(tiles[a..b]) == CountOverTiles(tiles[a..b - 1]) + tiles[b - 1].count
  {
    hide TileValue, Sized;
    assert tiles[a..b][..b - a - 1] == tiles[a..b - 1];
  }

  /** Summing consecutive tiles is summing the rows between their outer edges. */
  lemma {:induction false} RangeTotals(tiles: seq<Tile>, rows: seq<TraceRow>, coarse: nat, nodeCount: nat, m: Measure,
                                       a: nat, b: nat)
    requires Summable(coarse, nodeCount, m) && Tiled(tiles, rows, coarse, nodeCount)
    requires a <= b <= |tiles|
    ensures forall k :: 0 <= k < |tiles| ==> Sized(tiles[k], nodeCount)
    ensures SumsRows(tiles[a..b], nodeCount, m, rows, Edge(a, coarse, |rows|), Edge(b, coarse, |rows|))
    decreases b
  {
    hide Tiled, TileValue, Sized;
    AllSized(tiles, rows, coarse, nodeCount, m);
    if a == b {
      assert tiles[a..b] == [];
    } else {
      hide Edge, SumOverTiles, CountOverTiles, Total;
      RangeTotals(tiles, rows, coarse, nodeCount, m, a, b - 1);
      RangeTotalsStep(tiles, rows, coarse, nodeCount, m, a, b);
    }
  }

  /** Together the tiles account for every row exactly once. */
  lemma TilesConserve(tiles: seq<Tile>, rows: seq<TraceRow>, coarse: nat, nodeCount: nat, m: Measure)
    requires Summable(coarse, nodeCount, m) && Tiled(tiles, rows, coarse, nodeCount)
    ensures forall k :: 0 <= k < |tiles| ==> Sized(tiles[k], nodeCount)
    ensures SumOverTiles(tiles, nodeCount, m) == Total(rows, m) && CountOverTiles(tiles) == |rows|
  {
    hide Tiled, TileValue, SumOverTiles, CountOverTiles, Total;
    RangeTotals(tiles, rows, coarse, nodeCount, m, 0, |tiles|);
    EdgeFacts(0, coarse, |rows|);
    TiledCount(tiles, rows, coarse, nodeCount);
    EdgeFacts(|tiles|, coarse, |rows|);
    assert tiles[0..|tiles|] == tiles && rows[0..|rows|] == rows;
  }

  lemma TiledCount(tiles: seq<Tile>, rows: seq<TraceRow>, coarse: nat, nodeCount: nat)
    requires coarse > 0 && Tiled(tiles, rows, coarse, nodeCount)
    ensures |tiles| == TileCount(coarse, |rows|)
  {
  }

  // ---------- The series from tiles ----------

  predicate Overlaps(t: Tile, view: Viewport)
  {
    view.startRow < t.endRow && t.startRow < view.endRow
  }

  /** The tiles that overlap the viewport: those from `lo` up to `hi`. */
  ghost predicate OverlapSpan(tiles: seq<Tile>, view: Viewport, lo: nat, hi: nat)
  {
    lo <= hi <= |tiles| && forall k :: 0 <= k < |tiles| ==> (Overlaps(tiles[k], view) <==> lo <= k < hi)
  }

  /** Each tile starts where the one before ends. */
  ghost predicate Chained(tiles: seq<Tile>)
  {
    && (forall k :: 0 <= k < |tiles| ==> tiles[k].startRow < tiles[k].endRow)
    && forall j, k :: 0 <= j < k < |tiles| ==> tiles[j].endRow <= tiles[k].startRow
  }

  lemma TilesAreChained(tiles: seq<Tile>, rows: seq<TraceRow>, coarse: nat, nodeCount: nat, m: Measure)
    requires Summable(coarse, nodeCount, m) && Tiled(tiles, rows, coarse, nodeCount)
    ensures Chained(tiles)
  {
    hide Edge, Tiled, TileValue, Total;
    forall k | 0 <= k < |tiles| ensures tiles[k].startRow < tiles[k].endRow {
      TileFigures(tiles, rows, coarse, nodeCount, m, k);
    }
    forall j, k | 0 <= j < k < |tiles| ensures tiles[j].endRow <= tiles[k].startRow {
      TileFigures(tiles, rows, coarse, nodeCount, m, j);
      TileFigures(tiles, rows, coarse, nodeCount, m, k);
      EdgesIncrease(j + 1, k, coarse, |rows|);
    }
  }

  /** After a run of overlapping tiles, the next overlapping tile follows at once. */
  lemma NoGap(tiles: seq<Tile>, view: Viewport, lo: nat, count: nat, k: nat)
    requires Chained(tiles) && lo + count <= k < |tiles| && Overlaps(tiles[k], view)
    requires forall j :: 0 <= j < k ==> (Overlaps(tiles[j], view) <==> lo <= j < lo + count)
    ensures count == 0 || lo + count == k
  {
    assert count > 0 ==> Overlaps(tiles[lo], view);
    assert count > 0 ==> Overlaps(tiles[k - 1], view);
  }

  /** The indices of the overlapping tiles; they are consecutive. */
  method TileIndices(tiles: seq<Tile>, view: Viewport) returns (indices: seq<nat>)
    requires Chained(tiles)
    ensures forall i :: 0 <= i < |indices| ==> indices[i] == indices[0] + i
    ensures forall k: nat :: k in indices <==> k < |tiles| && Overlaps(tiles[k], view)
  {
    indices := [];
    ghost var lo := 0;
    for k := 0 to |tiles|
      invariant lo + |indices| <= k && (indices == [] ==> lo == k)
      invariant forall i :: 0 <= i < |indices| ==> indices[i] == lo + i
      invariant forall j :: 0 <= j < k ==> (Overlaps(tiles[j], view) <==> lo <= j < lo + |indices|)
    {
      if Overlaps(tiles[k], view) {
        NoGap(tiles, view, lo, |indices|, k);
        indices := indices + [k];
      } else if indices == [] {
        lo := k + 1;
      }
    }
    MembersOfRun(indices, lo);
  }

  lemma MembersOfRun(indices: seq<nat>, lo: nat)
    requires forall i :: 0 <= i < |indices| ==> indices[i] == lo + i
    ensures forall k: nat :: k in indices <==> lo <= k < lo + |indices|
  {
    forall k: nat | lo <= k < lo + |indices| ensures k in indices {
      assert indices[k - lo] == k;
    }
  }

  /** Bin `b` of `binCount` bins over tiles `lo` to `hi`: the rows its tiles hold. */
  function BinRows(lo: nat, hi: nat, binCount: nat, b: nat, coarse: nat, rowCount: nat): (nat, nat)
    requires lo <= hi && binCount > 0
  {
    (Edge(lo + Cut(hi - lo, binCount, b), coarse, rowCount), Edge(lo + Cut(hi - lo, binCount, b + 1), coarse, rowCount))
  }

  /** The point of a bin: labelled with its rows inside the viewport, valued at the average over all its rows. */
  ghost predicate TilePoint(p: Point, rows: seq<TraceRow>, span: (nat, nat), view: Viewport, m: Measure)
  {
    && span.0 < span.1 <= |rows|
    && p == PointOver(AtLeast(span.0, view.startRow), AtMost(span.1, view.endRow), Average(rows[span.0..span.1], m))
  }

  /** What `BuildTileSeries` returns for a viewport. */
  ghost predicate TileSeries(points: seq<Point>, rows: seq<TraceRow>, view: Viewport, m: Measure,
                             lo: nat, hi: nat, coarse: nat)
  {
    && lo <= hi && |points| == AtMost(hi - lo, DEFAULT_CHART_BINS)
    && forall b :: 0 <= b < |points| ==>
         TilePoint(points[b], rows, BinRows(lo, hi, |points|, b, coarse, |rows|), view, m)
  }

  /** `build_tile_node_metric_series`, for one node and metric. */
  method BuildTileSeries(tiles: seq<Tile>, view: Viewport, nodeCount: nat, m: Measure,
                         ghost rows: seq<TraceRow>, ghost coarse: nat)
    returns (points: seq<Point>)
    requires Summable(coarse, nodeCount, m) && Tiled(tiles, rows, coarse, nodeCount)
    ensures exists lo: nat, hi: nat ::
              OverlapSpan(tiles, view, lo, hi) && TileSeries(points, rows, view, m, lo, hi, coarse)
  {
    hide Tiled, Chained, OverlapSpan, TilePoint, BinRows, BinRange, Cut, Summable;
    TilesAreChained(tiles, rows, coarse, nodeCount, m);
    var indices := TileIndices(tiles, view);
    ghost var lo := if indices == [] then 0 else indices[0];
    ghost var hi := lo + |indices|;
    SpanOfIndices(tiles, view, indices, lo);
    points := [];
    if indices == [] {
      assert OverlapSpan(tiles, view, lo, hi) && TileSeries(points, rows, view, m, lo, hi, coarse);
      return;
    }
    var binCount := AtLeast(AtMost(|indices|, DEFAULT_CHART_BINS), 1);
    var whole := Viewport(0, |indices|);
    for bin := 0 to binCount
      invariant |points| == bin
      invariant forall b :: 0 <= b < bin ==>
                  TilePoint(points[b], rows, BinRows(lo, hi, binCount, b, coarse, |rows|), view, m)
    {
      var (start, end) := BinRange(whole, |indices|, binCount, bin);
      RangeIsCut(whole, binCount, bin);
      CutSteps(|indices|, binCount, bin);
      CutAtMost(|indices|, binCount, bin + 1);
      var point := BinPoint(tiles, view, nodeCount, m, indices[start..end], rows, coarse);
      BinRowsAre(lo, hi, binCount, bin, coarse, |rows|);
      points := points + [point];
    }
    assert OverlapSpan(tiles, view, lo, hi) && TileSeries(points, rows, view, m, lo, hi, coarse);
  }

  lemma SpanOfIndices(tiles: seq<Tile>, view: Viewport, indices: seq<nat>, lo: nat)
    requires forall i :: 0 <= i < |indices| ==> indices[i] == lo + i
    requires forall k: nat :: k in indices <==> k < |tiles| && Overlaps(tiles[k], view)
    requires indices == [] ==> lo == 0
    ensures OverlapSpan(tiles, view, lo, lo + |indices|)
  {
    MembersOfRun(indices, lo);
    if indices != [] {
      assert indices[|indices| - 1] in indices;
    }
  }

  lemma BinRowsAre(lo: nat, hi: nat, binCount: nat, b: nat, coarse: nat, rowCount: nat)
    requires lo <= hi && binCount > 0
    ensures BinRows(lo, hi, binCount, b, coarse, rowCount)
         == (Edge(lo + Cut(hi - lo, binCount, b), coarse, rowCount),
             Edge(lo + Cut(hi - lo, binCount, b + 1), coarse, rowCount))
  {
  }

  lemma CutAtMost(len: nat, binCount: nat, bin: nat)
    requires 1 <= bin <= binCount
    ensures Cut(len, binCount, bin) <= len
  {
    CutEnds(len, binCount);
    TimesMonotone(bin, binCount, len);
    FloorMonotone(bin * len, binCount * len, binCount);
  }

  /** One bin: the first and last tiles bound it, and the tiles' figures over the tiles' rows are its value. */
  method BinPoint(tiles: seq<Tile>, view: Viewport, nodeCount: nat, m: Measure, slice: seq<nat>,
                  ghost rows: seq<TraceRow>, ghost coarse: nat)
    returns (point: Point)
    requires Summable(coarse, nodeCount, m) && Tiled(tiles, rows, coarse, nodeCount)
    requires slice != [] && slice[0] + |slice| <= |tiles|
    requires forall i :: 0 <= i < |slice| ==> slice[i] == slice[0] + i
    ensures TilePoint(point, rows, (Edge(slice[0], coarse, |rows|), Edge(slice[0] + |slice|, coarse, |rows|)), view, m)
  {
    hide Tiled, TileValue, Edge, SumOverTiles, CountOverTiles, Total;
    ghost var first, next := slice[0], slice[0] + |slice|;
    AllSized(tiles, rows, coarse, nodeCount, m);
    var startRow := AtLeast(tiles[slice[0]].startRow, view.startRow);
    var endRow := AtMost(tiles[slice[|slice| - 1]].endRow, view.endRow);
    TileFigures(tiles, rows, coarse, nodeCount, m, first);
    TileFigures(tiles, rows, coarse, nodeCount, m, next - 1);
    var total, count := 0.0, 0;
    NothingSummed(tiles, nodeCount, m, first);
    for i := 0 to |slice|
      invariant total == SumOverTiles(tiles[first..first + i], nodeCount, m)
      invariant count == CountOverTiles(tiles[first..first + i])
    {
      assert Sized(tiles[slice[i]], nodeCount);
      TileFigures(tiles, rows, coarse, nodeCount, m, slice[i]);
      OneMoreTile(tiles, nodeCount, m, first, first + i + 1);
      total := total + TileValue(tiles[slice[i]], m);
      count := count + tiles[slice[i]].count;
    }
    RangeTotals(tiles, rows, coarse, nodeCount, m, first, next);
    EdgesIncrease(first + 1, next, coarse, |rows|);
    point := PointOver(startRow, endRow, total / AtLeast(count, 1) as real);
  }

  lemma NothingSummed(tiles: seq<Tile>, nodeCount: nat, m: Measure, a: nat)
    requires m.Within(nodeCount) && a <= |tiles|
    ensures SumOverTiles(tiles[a..a], nodeCount, m) == 0.0 && CountOverTiles(tiles[a..a]) == 0
  {
  }

  // ---------- When the labels are right ----------

  /** Both ends of the viewport are tile boundaries, the end of the trace being one. */
  predicate TileAligned(view: Viewport, coarse: nat, rowCount: nat)
    requires coarse > 0
  {
    OnBoundary(view.startRow, coarse) && (OnBoundary(view.endRow, coarse) || view.endRow == rowCount)
  }

  predicate OnBoundary(row: nat, coarse: nat)
    requires coarse > 0
  {
    row % coarse == 0
  }

  /** The tile a row is in. */
  function TileHolding(row: nat, coarse: nat): nat
    requires coarse > 0
  {
    row / coarse
  }

  lemma OverlapByEdges(tiles: seq<Tile>, rows: seq<TraceRow>, coarse: nat, nodeCount: nat, m: Measure, view: Viewport,
                       k: nat)
    requires Summable(coarse, nodeCount, m) && Tiled(tiles, rows, coarse, nodeCount) && k < |tiles|
    ensures Overlaps(tiles[k], view)
       <==> view.startRow < Edge(k + 1, coarse, |rows|) && Edge(k, coarse, |rows|) < view.endRow
  {
    hide Tiled, Edge, TileValue, Total;
    TileFigures(tiles, rows, coarse, nodeCount, m, k);
  }

  /** The overlapping tiles run from the one that holds the viewport's first row to the one that holds its last. */
  lemma SpanEnds(tiles: seq<Tile>, rows: seq<TraceRow>, coarse: nat, nodeCount: nat, m: Measure, view: Viewport,
                 lo: nat, hi: nat, first: nat, last: nat)
    requires Summable(coarse, nodeCount, m) && Tiled(tiles, rows, coarse, nodeCount)
    requires OverlapSpan(tiles, view, lo, hi)
    requires view.startRow < view.endRow <= |rows| && first <= last < |tiles|
    requires Edge(first, coarse, |rows|) <= view.startRow < Edge(first + 1, coarse, |rows|)
    requires Edge(last, coarse, |rows|) < view.endRow <= Edge(last + 1, coarse, |rows|)
    ensures lo == first && hi == last + 1
  {
    hide Tiled, Edge, TileCount, Overlaps;
    EdgesIncrease(first, last, coarse, |rows|);
    EdgesIncrease(first + 1, last + 1, coarse, |rows|);
    OverlapByEdges(tiles, rows, coarse, nodeCount, m, view, first);
    OverlapByEdges(tiles, rows, coarse, nodeCount, m, view, last);
    if first > 0 {
      OverlapByEdges(tiles, rows, coarse, nodeCount, m, view, first - 1);
    }
    if last + 1 < |tiles| {
      OverlapByEdges(tiles, rows, coarse, nodeCount, m, view, last + 1);
    }
    assert Overlaps(tiles[first], view) && Overlaps(tiles[last], view);
    assert first > 0 ==> !Overlaps(tiles[first - 1], view);
    assert last + 1 < |tiles| ==> !Overlaps(tiles[last + 1], view);
  }

  lemma HoldsRow(row: nat, coarse: nat, rowCount: nat)
    requires coarse > 0 && row < rowCount
    ensures var k := TileHolding(row, coarse);
            && k < TileCount(coarse, rowCount)
            && Edge(k, coarse, rowCount) <= row < Edge(k + 1, coarse, rowCount)
            && (row == Edge(k, coarse, rowCount) <==> OnBoundary(row, coarse))
  {
    var k := row / coarse;
    assert row == k * coarse + row % coarse;
    TileBounds(k, coarse, rowCount);
  }

  lemma HoldingIsMonotone(row: nat, later: nat, coarse: nat)
    requires coarse > 0 && row <= later
    ensures TileHolding(row, coarse) <= TileHolding(later, coarse)
  {
    FloorMonotone(row, later, coarse);
  }

  /** Tile `lo` holds the viewport's first row and tile `hi - 1` its last. */
  predicate Brackets(view: Viewport, lo: nat, hi: nat, coarse: nat, rowCount: nat)
  {
    && lo < hi
    && Edge(lo, coarse, rowCount) <= view.startRow < Edge(lo + 1, coarse, rowCount)
    && Edge(hi - 1, coarse, rowCount) < view.endRow <= Edge(hi, coarse, rowCount)
  }

  /** The first and the last tile that a viewport inside the trace touches. */
  lemma TouchedTiles(view: Viewport, coarse: nat, rowCount: nat) returns (lo: nat, hi: nat)
    requires coarse > 0 && view.startRow < view.endRow <= rowCount
    ensures Brackets(view, lo, hi, coarse, rowCount) && hi <= TileCount(coarse, rowCount)
    ensures TileAligned(view, coarse, rowCount)
       <==> Edge(lo, coarse, rowCount) == view.startRow && Edge(hi, coarse, rowCount) == view.endRow
  {
    hide Edge, TileCount, TileHolding, OnBoundary;
    lo, hi := TileHolding(view.startRow, coarse), TileHolding(view.endRow - 1, coarse) + 1;
    HoldsRow(view.startRow, coarse, rowCount);
    HoldsRow(view.endRow - 1, coarse, rowCount);
    HoldingIsMonotone(view.startRow, view.endRow - 1, coarse);
    EndEdge(hi, view.endRow, coarse, rowCount);
  }

  /** Those are the overlapping ones, and they do not stick out of the viewport exactly when it is aligned. */
  lemma AlignedEdges(tiles: seq<Tile>, rows: seq<TraceRow>, coarse: nat, nodeCount: nat, m: Measure, view: Viewport,
                     lo: nat, hi: nat)
    requires Summable(coarse, nodeCount, m) && Tiled(tiles, rows, coarse, nodeCount)
    requires view.startRow < view.endRow <= |rows|
    requires OverlapSpan(tiles, view, lo, hi)
    ensures Brackets(view, lo, hi, coarse, |rows|)
    ensures TileAligned(view, coarse, |rows|)
       <==> Edge(lo, coarse, |rows|) == view.startRow && Edge(hi, coarse, |rows|) == view.endRow
  {
    hide Tiled, OverlapSpan, Edge, TileCount, TileAligned;
    TiledCount(tiles, rows, coarse, nodeCount);
    var first, next := TouchedTiles(view, coarse, |rows|);
    SpanEnds(tiles, rows, coarse, nodeCount, m, view, lo, hi, first, next - 1);
  }

  lemma EndEdge(hi: nat, endRow: nat, coarse: nat, rowCount: nat)
    requires coarse > 0 && hi > 0 && endRow <= rowCount
    requires Edge(hi - 1, coarse, rowCount) < endRow <= Edge(hi, coarse, rowCount)
    ensures endRow == Edge(hi, coarse, rowCount) <==> OnBoundary(endRow, coarse) || endRow == rowCount
  {
    TileBounds(hi - 1, coarse, rowCount);
    var q := endRow / coarse;
    assert endRow == q * coarse + endRow % coarse;
    if endRow == hi * coarse {
      MultipleRemainder(hi, coarse);
    } else if endRow % coarse == 0 {
      FloorIs(endRow, coarse, hi - 1);
    }
  }

  lemma MultipleRemainder(q: nat, unit: nat)
    requires unit > 0
    ensures q * unit % unit == 0
  {
    FloorIs(q * unit, unit, q);
  }

  /** The bins' rows follow each other from the first tile's start to the last tile's end. */
  lemma BinRowsChain(lo: nat, hi: nat, binCount: nat, b: nat, coarse: nat, rowCount: nat)
    requires coarse > 0 && 1 <= binCount <= hi - lo && b < binCount
    ensures var span := BinRows(lo, hi, binCount, b, coarse, rowCount);
            && Edge(lo, coarse, rowCount) <= span.0 <= span.1 <= Edge(hi, coarse, rowCount)
            && (b == 0 ==> span.0 == Edge(lo, coarse, rowCount))
            && (b == binCount - 1 ==> span.1 == Edge(hi, coarse, rowCount))
            && (b < binCount - 1 ==> BinRows(lo, hi, binCount, b + 1, coarse, rowCount).0 == span.1)
  {
    hide Edge, Cut;
    CutEnds(hi - lo, binCount);
    CutSteps(hi - lo, binCount, b);
    CutAtMost(hi - lo, binCount, b + 1);
    var from, to := lo + Cut(hi - lo, binCount, b), lo + Cut(hi - lo, binCount, b + 1);
    EdgesIncrease(lo, from, coarse, rowCount);
    EdgesIncrease(from, to, coarse, rowCount);
    EdgesIncrease(to, hi, coarse, rowCount);
  }

  /** The label of each point is exactly the rows it averages. */
  ghost predicate LabelsMatch(points: seq<Point>, lo: nat, hi: nat, coarse: nat, rowCount: nat)
    requires lo <= hi
  {
    forall b :: 0 <= b < |points| ==>
      (points[b].startRow, points[b].endRow) == BinRows(lo, hi, |points|, b, coarse, rowCount)
  }

  lemma PointLabel(points: seq<Point>, rows: seq<TraceRow>, view: Viewport, m: Measure, lo: nat, hi: nat, coarse: nat,
                   b: nat)
    requires TileSeries(points, rows, view, m, lo, hi, coarse) && b < |points|
    ensures var span := BinRows(lo, hi, |points|, b, coarse, |rows|);
            && span.0 < span.1 <= |rows|
            && points[b] == PointOver(AtLeast(span.0, view.startRow), AtMost(span.1, view.endRow),
                                      Average(rows[span.0..span.1], m))
  {
  }

  /** A point's label is its tiles' rows, cut off at the ends of the viewport. */
  lemma LabelIs(points: seq<Point>, rows: seq<TraceRow>, view: Viewport, m: Measure, lo: nat, hi: nat, coarse: nat,
                b: nat)
    requires coarse > 0 && TileSeries(points, rows, view, m, lo, hi, coarse) && b < |points|
    requires Brackets(view, lo, hi, coarse, |rows|) && view.startRow < view.endRow
    ensures var span, last := BinRows(lo, hi, |points|, b, coarse, |rows|), |points| - 1;
            var startRow, endRow := if b == 0 then view.startRow else span.0, if b == last then view.endRow else span.1;
            && span.0 <= startRow < endRow <= span.1 <= |rows|
            && points[b] == PointOver(startRow, endRow, Average(rows[span.0..span.1], m))
  {
    assert 1 <= |points| <= hi - lo;
    hide TileSeries, Edge, Total;
    PointLabel(points, rows, view, m, lo, hi, coarse, b);
    BinRowsChain(lo, hi, |points|, b, coarse, |rows|);
    InnerEdges(view, lo, hi, |points|, b, coarse, |rows|);
    hide Average;
  }

  /** The edges between two bins lie strictly inside the viewport. */
  lemma InnerEdges(view: Viewport, lo: nat, hi: nat, binCount: nat, b: nat, coarse: nat, rowCount: nat)
    requires coarse > 0 && 1 <= binCount <= hi - lo && b < binCount && Brackets(view, lo, hi, coarse, rowCount)
    ensures var span := BinRows(lo, hi, binCount, b, coarse, rowCount);
            && span.0 < view.endRow && view.startRow < span.1
            && (b > 0 ==> view.startRow < span.0) && (b < binCount - 1 ==> span.1 < view.endRow)
  {
    hide Edge, Cut;
    var cut, next := Cut(hi - lo, binCount, b), Cut(hi - lo, binCount, b + 1);
    CutsInside(hi - lo, binCount, b);
    EdgesIncrease(lo + cut, hi - 1, coarse, rowCount);
    EdgesIncrease(lo + 1, lo + next, coarse, rowCount);
    if b > 0 {
      EdgesIncrease(lo + 1, lo + cut, coarse, rowCount);
    }
    if b < binCount - 1 {
      EdgesIncrease(lo + next, hi - 1, coarse, rowCount);
    }
  }

  /** Inner cuts leave at least one unit on either side. */
  lemma CutsInside(len: nat, binCount: nat, b: nat)
    requires 1 <= binCount <= len && b < binCount
    ensures Cut(len, binCount, b) < Cut(len, binCount, b + 1) <= len
    ensures b > 0 ==> 1 <= Cut(len, binCount, b)
    ensures b < binCount - 1 ==> Cut(len, binCount, b + 1) < len
  {
    hide Cut;
    CutEnds(len, binCount);
    CutSteps(len, binCount, b);
    CutAtMost(len, binCount, b + 1);
    if b > 0 {
      CutSteps(len, binCount, b - 1);
    }
    if b < binCount - 1 {
      CutSteps(len, binCount, b + 1);
      CutAtMost(len, binCount, b + 2);
    }
  }

  lemma LabelRows(points: seq<Point>, rows: seq<TraceRow>, view: Viewport, m: Measure, lo: nat, hi: nat, coarse: nat,
                  b: nat)
    requires coarse > 0 && TileSeries(points, rows, view, m, lo, hi, coarse) && b < |points|
    requires Brackets(view, lo, hi, coarse, |rows|) && view.startRow < view.endRow
    ensures var span, last := BinRows(lo, hi, |points|, b, coarse, |rows|), |points| - 1;
            && points[b].startRow == (if b == 0 then view.startRow else span.0)
            && points[b].endRow == (if b == last then view.endRow else span.1)
            && points[b].startRow < points[b].endRow
  {
    hide TileSeries, Brackets, BinRows, Average;
    LabelIs(points, rows, view, m, lo, hi, coarse, b);
  }

  /** Whatever the viewport, the labels tile it. */
  lemma TileLabels(points: seq<Point>, rows: seq<TraceRow>, view: Viewport, m: Measure, lo: nat, hi: nat, coarse: nat)
    requires coarse > 0 && TileSeries(points, rows, view, m, lo, hi, coarse)
    requires Brackets(view, lo, hi, coarse, |rows|) && view.startRow < view.endRow
    ensures LabelsTile(points, view)
  {
    var n := |points|;
    assert 1 <= n <= hi - lo;
    hide TileSeries, Brackets, BinRows;
    forall b | 0 <= b < n
      ensures points[b].startRow < points[b].endRow
      ensures b == 0 ==> points[b].startRow == view.startRow
      ensures b == n - 1 ==> points[b].endRow == view.endRow
      ensures b < n - 1 ==> points[b].endRow == points[b + 1].startRow
    {
      LabelRows(points, rows, view, m, lo, hi, coarse, b);
      if b < n - 1 {
        LabelRows(points, rows, view, m, lo, hi, coarse, b + 1);
        BinRowsChain(lo, hi, n, b, coarse, |rows|);
      }
    }
  }

  /** The label of each point is exactly the rows it averages if and only if no outer tile sticks out. */
  lemma LabelsMatchExactly(points: seq<Point>, rows: seq<TraceRow>, view: Viewport, m: Measure,
                           lo: nat, hi: nat, coarse: nat)
    requires coarse > 0 && TileSeries(points, rows, view, m, lo, hi, coarse)
    requires Brackets(view, lo, hi, coarse, |rows|) && view.startRow < view.endRow
    ensures LabelsMatch(points, lo, hi, coarse, |rows|)
       <==> Edge(lo, coarse, |rows|) == view.startRow && Edge(hi, coarse, |rows|) == view.endRow
  {
    var n := |points|;
    assert 1 <= n <= hi - lo;
    hide TileSeries, Brackets, BinRows, Total, Edge;
    BinRowsChain(lo, hi, n, 0, coarse, |rows|);
    BinRowsChain(lo, hi, n, n - 1, coarse, |rows|);
    LabelIs(points, rows, view, m, lo, hi, coarse, 0);
    LabelIs(points, rows, view, m, lo, hi, coarse, n - 1);
    forall b | 0 <= b < n
      ensures Edge(lo, coarse, |rows|) == view.startRow && Edge(hi, coarse, |rows|) == view.endRow ==>
                (points[b].startRow, points[b].endRow) == BinRows(lo, hi, n, b, coarse, |rows|)
    {
      LabelIs(points, rows, view, m, lo, hi, coarse, b);
      BinRowsChain(lo, hi, n, b, coarse, |rows|);
    }
  }

  /** When labels and averaged rows are the same, the series plots row averages. */
  lemma MatchingSeries(points: seq<Point>, rows: seq<TraceRow>, view: Viewport, m: Measure, lo: nat, hi: nat,
                       coarse: nat)
    requires coarse > 0 && TileSeries(points, rows, view, m, lo, hi, coarse)
    requires Brackets(view, lo, hi, coarse, |rows|) && view.startRow < view.endRow
    requires LabelsMatch(points, lo, hi, coarse, |rows|)
    ensures PlotsAverages(points, rows, view, m)
  {
    hide TileSeries, Brackets, BinRows, Total, LabelsTile;
    TileLabels(points, rows, view, m, lo, hi, coarse);
    forall b | 0 <= b < |points|
      ensures AveragesItsRows(points[b], rows, (points[b].startRow, points[b].endRow), m)
    {
      LabelIs(points, rows, view, m, lo, hi, coarse, b);
    }
  }

  /** On a tile-aligned viewport, and on no other, every point is labelled with exactly the rows it averages. */
  lemma TileSeriesIsExact(points: seq<Point>, tiles: seq<Tile>, rows: seq<TraceRow>, coarse: nat, nodeCount: nat,
                          m: Measure, view: Viewport, lo: nat, hi: nat)
    requires Summable(coarse, nodeCount, m) && Tiled(tiles, rows, coarse, nodeCount)
    requires view.startRow < view.endRow <= |rows|
    requires OverlapSpan(tiles, view, lo, hi) && TileSeries(points, rows, view, m, lo, hi, coarse)
    ensures LabelsTile(points, view)
    ensures TileAligned(view, coarse, |rows|) ==> PlotsAverages(points, rows, view, m)
    ensures LabelsMatch(points, lo, hi, coarse, |rows|) <==> TileAligned(view, coarse, |rows|)
  {
    hide Tiled, OverlapSpan, TileSeries, TileAligned, PlotsAverages, LabelsMatch, LabelsTile, Edge;
    AlignedEdges(tiles, rows, coarse, nodeCount, m, view, lo, hi);
    TileLabels(points, rows, view, m, lo, hi, coarse);
    LabelsMatchExactly(points, rows, view, m, lo, hi, coarse);
    if TileAligned(view, coarse, |rows|) {
      MatchingSeries(points, rows, view, m, lo, hi, coarse);
    }
  }

  // ---------- A series for every trace ----------

  /** The tiles of a trace. */
  function TilesOf(rows: seq<TraceRow>, coarse: nat, nodeCount: nat): (tiles: seq<Tile>)
    requires coarse > 0
    ensures Tiled(tiles, rows, coarse, nodeCount)
  {
    var n := TileCount(coarse, |rows|);
    assert forall k :: 0 <= k < n ==> TileStart(k, coarse) <= TileEnd(k, coarse, |rows|) <= |rows| by {
      forall k | 0 <= k < n ensures TileStart(k, coarse) <= TileEnd(k, coarse, |rows|) <= |rows| {
        TileBounds(k, coarse, |rows|);
      }
    }
    seq(n, k requires 0 <= k < n =>
      TileOf(TileStart(k, coarse), rows[TileStart(k, coarse)..TileEnd(k, coarse, |rows|)], nodeCount))
  }

  /** The tiles that hold the viewport's rows are exactly the overlapping ones. */
  lemma TouchedOverlap(tiles: seq<Tile>, rows: seq<TraceRow>, coarse: nat, nodeCount: nat, m: Measure, view: Viewport,
                       lo: nat, hi: nat)
    requires Summable(coarse, nodeCount, m) && Tiled(tiles, rows, coarse, nodeCount)
    requires Brackets(view, lo, hi, coarse, |rows|) && hi <= |tiles|
    ensures OverlapSpan(tiles, view, lo, hi)
  {
    hide Tiled, Edge, Overlaps;
    forall k | 0 <= k < |tiles| ensures Overlaps(tiles[k], view) <==> lo <= k < hi {
      OverlapByEdges(tiles, rows, coarse, nodeCount, m, view, k);
      if k < lo {
        EdgesIncrease(k + 1, lo, coarse, |rows|);
      } else if k < hi {
        EdgesIncrease(lo + 1, k + 1, coarse, |rows|);
        EdgesIncrease(k, hi - 1, coarse, |rows|);
      } else {
        EdgesIncrease(hi, k, coarse, |rows|);
      }
    }
  }

  /** The point that bin `b` of `n` gives. */
  function TilePointOf(rows: seq<TraceRow>, view: Viewport, m: Measure, lo: nat, hi: nat, n: nat, b: nat,
                       coarse: nat): Point
    requires coarse > 0 && lo <= hi && n > 0
  {
    var span := BinRows(lo, hi, n, b, coarse, |rows|);
    PointOver(AtLeast(span.0, view.startRow), AtMost(span.1, view.endRow),
              if span.0 < span.1 <= |rows| then Average(rows[span.0..span.1], m) else 0.0)
  }

  function TileSeriesOf(rows: seq<TraceRow>, view: Viewport, m: Measure, lo: nat, hi: nat, coarse: nat): seq<Point>
    requires coarse > 0 && lo < hi
  {
    var n := AtMost(hi - lo, DEFAULT_CHART_BINS);
    seq(n, b requires 0 <= b < n => TilePointOf(rows, view, m, lo, hi, n, b, coarse))
  }

  lemma TileSeriesOfIsOne(rows: seq<TraceRow>, view: Viewport, m: Measure, lo: nat, hi: nat, coarse: nat)
    requires coarse > 0 && lo < hi <= TileCount(coarse, |rows|)
    ensures TileSeries(TileSeriesOf(rows, view, m, lo, hi, coarse), rows, view, m, lo, hi, coarse)
  {
    hide TileCount, BinRows, Average;
    var n := AtMost(hi - lo, DEFAULT_CHART_BINS);
    forall b | 0 <= b < n
      ensures TilePoint(TilePointOf(rows, view, m, lo, hi, n, b, coarse), rows,
                        BinRows(lo, hi, n, b, coarse, |rows|), view, m)
    {
      SpanIsRows(rows, lo, hi, n, b, coarse);
    }
    hide TilePoint, TilePointOf;
  }

  /** Every trace has a series over every viewport inside it. */
  lemma TileSeriesExists(rows: seq<TraceRow>, coarse: nat, nodeCount: nat, m: Measure, view: Viewport)
    returns (points: seq<Point>, tiles: seq<Tile>, lo: nat, hi: nat)
    requires Summable(coarse, nodeCount, m) && view.startRow < view.endRow <= |rows|
    ensures Tiled(tiles, rows, coarse, nodeCount) && OverlapSpan(tiles, view, lo, hi)
    ensures TileSeries(points, rows, view, m, lo, hi, coarse)
  {
    tiles := TilesOf(rows, coarse, nodeCount);
    TiledCount(tiles, rows, coarse, nodeCount);
    hide TilesOf, Tiled, TileCount, OverlapSpan, TileAligned, TileSeries, TileSeriesOf, Edge;
    lo, hi := TouchedTiles(view, coarse, |rows|);
    TouchedOverlap(tiles, rows, coarse, nodeCount, m, view, lo, hi);
    points := TileSeriesOf(rows, view, m, lo, hi, coarse);
    TileSeriesOfIsOne(rows, view, m, lo, hi, coarse);
  }

  lemma SpanIsRows(rows: seq<TraceRow>, lo: nat, hi: nat, n: nat, b: nat, coarse: nat)
    requires coarse > 0 && 1 <= n <= hi - lo && b < n && hi <= TileCount(coarse, |rows|)
    ensures var span := BinRows(lo, hi, n, b, coarse, |rows|);
            span.0 < span.1 <= |rows|
  {
    hide Edge, Cut, TileCount;
    CutsInside(hi - lo, n, b);
    EdgesIncrease(lo + Cut(hi - lo, n, b), lo + Cut(hi - lo, n, b + 1), coarse, |rows|);
    EdgeAtMost(lo + Cut(hi - lo, n, b + 1), coarse, |rows|);
  }

  lemma EdgeAtMost(k: nat, coarse: nat, rowCount: nat)
    ensures Edge(k, coarse, rowCount) <= rowCount
  {
  }
}
