/** Exactly when a chart of a node metric plots, for every trace, the averages of the rows its points are labelled
    with. */
module SeriesLaws {
  import opened Tiles
  import opened Bins
  import opened TraceIndex
  import opened NodeSeries
  import opened ExactSeries

  // ---------- Traces with one odd row ----------

  /** All rows are `row`, but row `k` is `odd`. */
  ghost predicate OneOdd(rows: seq<TraceRow>, k: nat, odd: TraceRow, row: TraceRow)
  {
    k < |rows| && forall i :: 0 <= i < |rows| ==> rows[i] == if i == k then odd else row
  }

  function Repeated(x: real, n: nat): real
  {
    if n == 0 then 0.0 else Repeated(x, n - 1) + x
  }

  lemma {:induction false} RepeatedIsProduct(x: real, n: nat)
    ensures Repeated(x, n) == n as real * x
  {
    if n > 0 {
      RepeatedIsProduct(x, n - 1);
      assert n as real * x == (n - 1) as real * x + x;
    }
  }

  lemma {:induction false} OneOddTotal(rows: seq<TraceRow>, k: nat, odd: TraceRow, row: TraceRow, from: nat, end: nat,
                                       m: Measure)
    requires OneOdd(rows, k, odd, row) && from <= end <= |rows|
    ensures Total(rows[from..end], m)
         == Repeated(RowValue(row, m), end - from)
            + if from <= k < end then RowValue(odd, m) - RowValue(row, m) else 0.0
    decreases end
  {
    hide RowValue;
    if from < end {
      OneOddTotal(rows, k, odd, row, from, end - 1, m);
      assert rows[from..end][..end - from - 1] == rows[from..end - 1];
      assert rows[from..end][end - from - 1] == rows[end - 1];
    }
  }

  /** The odd row moves every average it enters, and no other. */
  lemma OneOddAverage(rows: seq<TraceRow>, k: nat, odd: TraceRow, row: TraceRow, from: nat, to: nat, m: Measure)
    requires OneOdd(rows, k, odd, row) && from < to <= |rows| && RowValue(odd, m) != RowValue(row, m)
    ensures Average(rows[from..to], m) == RowValue(row, m) <==> !(from <= k < to)
  {
    hide RowValue, Total, OneOdd;
    var v, d := RowValue(row, m), if from <= k < to then RowValue(odd, m) - RowValue(row, m) else 0.0;
    OneOddTotal(rows, k, odd, row, from, to, m);
    RepeatedIsProduct(v, to - from);
    assert |rows[from..to]| == to - from;
    ShiftedQuotient((to - from) as real, v, d, Total(rows[from..to], m));
  }

  lemma ShiftedQuotient(n: real, v: real, d: real, whole: real)
    requires n > 0.0 && whole == n * v + d
    ensures whole / n == v <==> d == 0.0
  {
    assert whole / n * n == whole;
  }

  /** A point that averages the odd row without being labelled with it is not its rows' average. */
  lemma OddRowExposes(p: Point, rows: seq<TraceRow>, span: (nat, nat), k: nat, odd: TraceRow, row: TraceRow, m: Measure)
    requires OneOdd(rows, k, odd, row) && RowValue(odd, m) != RowValue(row, m)
    requires span.0 <= k < span.1 <= |rows| && p.y == Average(rows[span.0..span.1], m)
    requires !(p.startRow <= k < p.endRow)
    ensures !AveragesItsRows(p, rows, (p.startRow, p.endRow), m)
  {
    hide RowValue, Average, OneOdd;
    OneOddAverage(rows, k, odd, row, span.0, span.1, m);
    if p.startRow < p.endRow <= |rows| {
      OneOddAverage(rows, k, odd, row, p.startRow, p.endRow, m);
    }
  }

  /** When all rows have the same value, every average is that value. */
  lemma {:induction false} SameTotal(rows: seq<TraceRow>, v: real, m: Measure)
    requires forall r <- rows :: RowValue(r, m) == v
    ensures Total(rows, m) == Repeated(v, |rows|)
  {
    if rows != [] {
      SameTotal(rows[..|rows| - 1], v, m);
    }
  }

  lemma SameAverage(rows: seq<TraceRow>, v: real, m: Measure)
    requires rows != [] && forall r <- rows :: RowValue(r, m) == v
    ensures Average(rows, m) == v
  {
    hide RowValue, Total;
    SameTotal(rows, v, m);
    RepeatedIsProduct(v, |rows|);
    ShiftedQuotient(|rows| as real, v, 0.0, Total(rows, m));
  }

  // ---------- Traces as they are loaded ----------

  /** A row as the loader makes it: one entry per node in every column, and a best node that exists. */
  predicate Parsed(r: TraceRow, nodeCount: nat)
  {
    && |r.nodeBits| == |r.nodeLocalWeights| == |r.nodeEffectiveWeights| == nodeCount
    && r.compact.oracleBestNodePos < nodeCount
  }

  /** Rows can differ in the measure; a single node wins every row. */
  predicate Varies(m: Measure, nodeCount: nat)
  {
    m.NodeWins? ==> nodeCount != 1
  }

  /** Two loadable rows that differ in the measure. */
  function Sample(m: Measure, nodeCount: nat, high: bool): TraceRow
  {
    var v := Indicator(high);
    var best := if m.NodeWins? then (if high then m.node else if m.node == 0 then 1 else 0) else 0;
    var column := seq(nodeCount, _ => v);
    TraceRow(CompactRow(0, v, 2.0 * v, v, v, v, v, best), column, column, column)
  }

  lemma SamplesDiffer(m: Measure, nodeCount: nat)
    requires nodeCount > 0 && m.Within(nodeCount) && Varies(m, nodeCount)
    ensures Parsed(Sample(m, nodeCount, true), nodeCount) && Parsed(Sample(m, nodeCount, false), nodeCount)
    ensures RowValue(Sample(m, nodeCount, true), m) != RowValue(Sample(m, nodeCount, false), m)
  {
  }

  /** A loadable trace with one odd row. */
  function OddTrace(n: nat, k: nat, m: Measure, nodeCount: nat): (rows: seq<TraceRow>)
    ensures |rows| == n
  {
    seq(n, i => Sample(m, nodeCount, i == k))
  }

  lemma OddTraceIsOne(n: nat, k: nat, m: Measure, nodeCount: nat)
    requires k < n && nodeCount > 0 && m.Within(nodeCount) && Varies(m, nodeCount)
    ensures OneOdd(OddTrace(n, k, m, nodeCount), k, Sample(m, nodeCount, true), Sample(m, nodeCount, false))
    ensures Loadable(OddTrace(n, k, m, nodeCount), nodeCount)
  {
    SamplesDiffer(m, nodeCount);
    hide Sample, Parsed;
  }

  ghost predicate Loadable(rows: seq<TraceRow>, nodeCount: nat)
  {
    forall i :: 0 <= i < |rows| ==> Parsed(rows[i], nodeCount)
  }

  /** Where every row has the same value, labels that tile the viewport are enough. */
  lemma OnlyNodeWins(points: seq<Point>, rows: seq<TraceRow>, view: Viewport, m: Measure, nodeCount: nat)
    requires m.Within(nodeCount) && !Varies(m, nodeCount) && Loadable(rows, nodeCount)
    requires LabelsTile(points, view)
    requires forall b :: 0 <= b < |points| ==> AveragesSome(points[b], rows, m)
    ensures PlotsAverages(points, rows, view, m)
  {
    hide Average, LabelsTile;
    assert forall r <- rows :: RowValue(r, m) == 1.0;
    forall b | 0 <= b < |points|
      ensures AveragesItsRows(points[b], rows, (points[b].startRow, points[b].endRow), m)
    {
      var p := points[b];
      assert AveragesSome(p, rows, m);
      var from: nat, to: nat :| from < to <= |rows| && AveragesRange(p, rows, m, from, to);
      SameAverage(rows[from..to], 1.0, m);
      SameAverage(rows[p.startRow..p.endRow], 1.0, m);
    }
  }

  /** The point is labelled with some rows inside the trace and valued at the average of rows `from` to `to`. */
  ghost predicate AveragesRange(p: Point, rows: seq<TraceRow>, m: Measure, from: nat, to: nat)
    requires from < to <= |rows|
  {
    && p.startRow < p.endRow <= |rows|
    && p == PointOver(p.startRow, p.endRow, Average(rows[from..to], m))
  }

  ghost predicate AveragesSome(p: Point, rows: seq<TraceRow>, m: Measure)
  {
    exists from: nat, to: nat :: from < to <= |rows| && AveragesRange(p, rows, m, from, to)
  }

  // ---------- Series from tiles ----------

  /** A series that the tile builder can return for a trace and viewport. */
  ghost predicate TileChart(points: seq<Point>, rows: seq<TraceRow>, coarse: nat, nodeCount: nat, view: Viewport,
                            m: Measure)
    requires coarse > 0
  {
    exists tiles: seq<Tile>, lo: nat, hi: nat ::
      Tiled(tiles, rows, coarse, nodeCount) && OverlapSpan(tiles, view, lo, hi)
      && TileSeries(points, rows, view, m, lo, hi, coarse)
  }

  /** A row that an outer tile holds but the viewport does not. */
  function CutOff(view: Viewport, coarse: nat): nat
    requires coarse > 0
  {
    if OnBoundary(view.startRow, coarse) then view.endRow else view.startRow - 1
  }

  lemma CutOffIsInTile(view: Viewport, coarse: nat, rowCount: nat, lo: nat, hi: nat)
    requires coarse > 0 && Brackets(view, lo, hi, coarse, rowCount) && view.startRow < view.endRow <= rowCount
    requires hi <= TileCount(coarse, rowCount)
    requires !TileAligned(view, coarse, rowCount)
    ensures if OnBoundary(view.startRow, coarse) then view.endRow < Edge(hi, coarse, rowCount) <= rowCount
            else 0 < view.startRow && Edge(lo, coarse, rowCount) < view.startRow
  {
    EdgeFacts(lo, coarse, rowCount);
    StartOnBoundary(lo, coarse);
    hide Edge;
    EndEdge(hi, view.endRow, coarse, rowCount);
    EdgeAtMost(hi, coarse, rowCount);
  }

  lemma StartOnBoundary(k: nat, coarse: nat)
    requires coarse > 0
    ensures OnBoundary(TileStart(k, coarse), coarse) && OnBoundary(0, coarse)
  {
    MultipleRemainder(k, coarse);
  }

  /** Off the tile boundaries, one odd row cut off by the viewport is enough to plot a wrong value. */
  lemma UnalignedPlotsWrong(points: seq<Point>, tiles: seq<Tile>, rows: seq<TraceRow>, coarse: nat, nodeCount: nat,
                            m: Measure, view: Viewport, lo: nat, hi: nat, odd: TraceRow, row: TraceRow)
    requires Summable(coarse, nodeCount, m) && Tiled(tiles, rows, coarse, nodeCount)
    requires view.startRow < view.endRow <= |rows|
    requires OverlapSpan(tiles, view, lo, hi) && TileSeries(points, rows, view, m, lo, hi, coarse)
    requires !TileAligned(view, coarse, |rows|)
    requires OneOdd(rows, CutOff(view, coarse), odd, row) && RowValue(odd, m) != RowValue(row, m)
    ensures !PlotsAverages(points, rows, view, m)
  {
    hide Tiled, OverlapSpan, TileSeries, TileAligned, OneOdd, Edge, Average, RowValue, OnBoundary, TileCount, BinRows;
    AlignedEdges(tiles, rows, coarse, nodeCount, m, view, lo, hi);
    SpanInTiles(tiles, rows, coarse, nodeCount, view, lo, hi);
    CutOffIsInTile(view, coarse, |rows|, lo, hi);
    SeriesSize(points, rows, view, m, lo, hi, coarse);
    var b := if OnBoundary(view.startRow, coarse) then |points| - 1 else 0;
    BinRowsChain(lo, hi, |points|, b, coarse, |rows|);
    LabelIs(points, rows, view, m, lo, hi, coarse, b);
    OddRowExposes(points[b], rows, BinRows(lo, hi, |points|, b, coarse, |rows|), CutOff(view, coarse), odd, row, m);
  }

  lemma SpanInTiles(tiles: seq<Tile>, rows: seq<TraceRow>, coarse: nat, nodeCount: nat, view: Viewport, lo: nat,
                    hi: nat)
    requires coarse > 0 && Tiled(tiles, rows, coarse, nodeCount) && OverlapSpan(tiles, view, lo, hi)
    ensures hi <= TileCount(coarse, |rows|)
  {
  }

  lemma SeriesSize(points: seq<Point>, rows: seq<TraceRow>, view: Viewport, m: Measure, lo: nat, hi: nat, coarse: nat)
    requires TileSeries(points, rows, view, m, lo, hi, coarse) && lo < hi
    ensures 1 <= |points| <= hi - lo
  {
  }

  lemma TilePointsAverage(points: seq<Point>, rows: seq<TraceRow>, view: Viewport, m: Measure, lo: nat, hi: nat,
                          coarse: nat)
    requires coarse > 0 && TileSeries(points, rows, view, m, lo, hi, coarse)
    requires Brackets(view, lo, hi, coarse, |rows|) && view.startRow < view.endRow
    ensures forall b :: 0 <= b < |points| ==> AveragesSome(points[b], rows, m)
  {
    assert lo < hi;
    hide TileSeries, Brackets, Average, BinRows;
    forall b | 0 <= b < |points| ensures AveragesSome(points[b], rows, m) {
      LabelIs(points, rows, view, m, lo, hi, coarse, b);
      var span := BinRows(lo, hi, |points|, b, coarse, |rows|);
      assert AveragesRange(points[b], rows, m, span.0, span.1);
    }
  }

  /** Every loadable trace of `n` rows is plotted from tiles as its row averages. */
  ghost predicate TilesAlwaysTrue(view: Viewport, coarse: nat, n: nat, nodeCount: nat, m: Measure)
    requires coarse > 0
  {
    forall points: seq<Point>, rows: seq<TraceRow> ::
      |rows| == n && Loadable(rows, nodeCount) && TileChart(points, rows, coarse, nodeCount, view, m) ==>
        PlotsAverages(points, rows, view, m)
  }

  lemma TileChartTrue(points: seq<Point>, rows: seq<TraceRow>, coarse: nat, nodeCount: nat, view: Viewport, m: Measure)
    requires Summable(coarse, nodeCount, m) && view.startRow < view.endRow <= |rows| && Loadable(rows, nodeCount)
    requires TileChart(points, rows, coarse, nodeCount, view, m)
    requires TileAligned(view, coarse, |rows|) || !Varies(m, nodeCount)
    ensures PlotsAverages(points, rows, view, m)
  {
    hide TileAligned, Loadable, PlotsAverages, LabelsTile, Varies, OverlapSpan, Tiled, TileSeries, Average;
    var tiles: seq<Tile>, lo: nat, hi: nat :|
      Tiled(tiles, rows, coarse, nodeCount) && OverlapSpan(tiles, view, lo, hi)
      && TileSeries(points, rows, view, m, lo, hi, coarse);
    TileSeriesIsExact(points, tiles, rows, coarse, nodeCount, m, view, lo, hi);
    if !Varies(m, nodeCount) {
      AlignedEdges(tiles, rows, coarse, nodeCount, m, view, lo, hi);
      TilePointsAverage(points, rows, view, m, lo, hi, coarse);
      OnlyNodeWins(points, rows, view, m, nodeCount);
    }
  }

  lemma TileChartWrong(view: Viewport, coarse: nat, n: nat, nodeCount: nat, m: Measure)
    returns (points: seq<Point>, rows: seq<TraceRow>)
    requires Summable(coarse, nodeCount, m) && nodeCount > 0 && view.startRow < view.endRow <= n
    requires !TileAligned(view, coarse, n) && Varies(m, nodeCount)
    ensures |rows| == n && Loadable(rows, nodeCount) && TileChart(points, rows, coarse, nodeCount, view, m)
    ensures !PlotsAverages(points, rows, view, m)
  {
    var k := CutOff(view, coarse);
    CutOffInside(view, coarse, n);
    hide CutOff, OddTrace, Sample, Loadable, Varies, TileAligned, OneOdd, Tiled, OverlapSpan, TileSeries, PlotsAverages,
         RowValue, Summable;
    rows := OddTrace(n, k, m, nodeCount);
    SummableMeasure(coarse, nodeCount, m);
    OddTraceIsOne(n, k, m, nodeCount);
    SamplesDiffer(m, nodeCount);
    var tiles, lo, hi;
    points, tiles, lo, hi := TileSeriesExists(rows, coarse, nodeCount, m, view);
    UnalignedPlotsWrong(points, tiles, rows, coarse, nodeCount, m, view, lo, hi,
                        Sample(m, nodeCount, true), Sample(m, nodeCount, false));
  }

  lemma SummableMeasure(coarse: nat, nodeCount: nat, m: Measure)
    requires Summable(coarse, nodeCount, m)
    ensures coarse > 0 && m.Within(nodeCount)
  {
  }

  lemma CutOffInside(view: Viewport, coarse: nat, n: nat)
    requires coarse > 0 && view.startRow < view.endRow <= n && !TileAligned(view, coarse, n)
    ensures CutOff(view, coarse) < n
  {
  }

  /** The tile series tells the truth about every trace if and only if the viewport is tile-aligned,
      or nothing can vary because one node wins every row. */
  lemma TilesTrueExactly(view: Viewport, coarse: nat, n: nat, nodeCount: nat, m: Measure)
    requires Summable(coarse, nodeCount, m) && nodeCount > 0 && view.startRow < view.endRow <= n
    ensures TilesAlwaysTrue(view, coarse, n, nodeCount, m) <==> TileAligned(view, coarse, n) || !Varies(m, nodeCount)
  {
    hide TileAligned, Varies, TileChart, Loadable, PlotsAverages, Summable;
    SummableMeasure(coarse, nodeCount, m);
    if TileAligned(view, coarse, n) || !Varies(m, nodeCount) {
      forall points: seq<Point>, rows: seq<TraceRow>
        | |rows| == n && Loadable(rows, nodeCount) && TileChart(points, rows, coarse, nodeCount, view, m)
        ensures PlotsAverages(points, rows, view, m)
      {
        TileChartTrue(points, rows, coarse, nodeCount, view, m);
      }
    } else {
      var points, rows := TileChartWrong(view, coarse, n, nodeCount, m);
    }
  }

  // ---------- Series row by row ----------

  ghost predicate ExactAlwaysTrue(view: Viewport, n: nat, nodeCount: nat, m: Measure)
  {
    forall points: seq<Point>, rows: seq<TraceRow> ::
      |rows| == n && Loadable(rows, nodeCount) && RowChart(points, rows, view, m) ==>
        PlotsAverages(points, rows, view, m)
  }

  /** The code's bins are equally wide: one row each, or a 240th of the viewport. */
  predicate EvenBins(view: Viewport)
  {
    view.Len() <= DEFAULT_CHART_BINS || view.Len() % DEFAULT_CHART_BINS == 0
  }

  lemma EvenBinsDivide(view: Viewport)
    requires view.Len() > 0
    ensures EvenBins(view) <==> view.Len() % BinCount(view) == 0
  {
    WholeRemainder(view.Len());
  }

  lemma WholeRemainder(n: nat)
    requires n > 0
    ensures n % n == 0
  {
    MultipleRemainder(1, n);
  }

  lemma ExactPointsAverage(points: seq<Point>, rows: seq<TraceRow>, view: Viewport, m: Measure)
    requires RowChart(points, rows, view, m) && LabelsTile(points, view)
    ensures forall b :: 0 <= b < |points| ==> AveragesSome(points[b], rows, m)
  {
    hide RowChart, Average, FirstCounted, BinRange;
    forall b | 0 <= b < |points| ensures AveragesSome(points[b], rows, m) {
      ExactPointIs(points, rows, view, m, b);
      ExactLabelInside(points, rows, view, m, b);
      var from, to := FirstCounted(view, |points|, b), FirstCounted(view, |points|, b + 1);
      assert AveragesRange(points[b], rows, m, from, to);
    }
  }

  /** A label lies inside the trace. */
  lemma ExactLabelInside(points: seq<Point>, rows: seq<TraceRow>, view: Viewport, m: Measure, b: nat)
    requires RowChart(points, rows, view, m) && b < |points|
    ensures points[b].startRow < points[b].endRow <= view.endRow <= |rows|
  {
    ExactPointIs(points, rows, view, m, b);
    RangeIsCut(view, |points|, b);
    CutsInside(view.Len(), |points|, b);
  }

  lemma ExactTrue(points: seq<Point>, rows: seq<TraceRow>, view: Viewport, m: Measure, nodeCount: nat)
    requires RowChart(points, rows, view, m) && Loadable(rows, nodeCount) && m.Within(nodeCount)
    requires EvenBins(view) || !Varies(m, nodeCount)
    ensures PlotsAverages(points, rows, view, m)
  {
    ExactSeriesLabels(points, rows, view, m);
    EvenBinsDivide(view);
    var n := |points|;
    assert n == BinCount(view);
    ExactLabels(view, n);
    hide EvenBins, BinCount, Loadable, Varies, LabelsTile, Average, FirstCounted, BinRange;
    if !Varies(m, nodeCount) {
      ExactPointsAverage(points, rows, view, m);
      OnlyNodeWins(points, rows, view, m, nodeCount);
    } else {
      hide RowChart;
      forall b | 0 <= b < n
        ensures AveragesItsRows(points[b], rows, (points[b].startRow, points[b].endRow), m)
      {
        ExactPointIs(points, rows, view, m, b);
        assert BinRange(view, view.Len(), n, b) == (FirstCounted(view, n, b), FirstCounted(view, n, b + 1));
      }
    }
  }

  /** In uneven bins the first one counts one row more than it is labelled with. */
  lemma FirstBinOverhangs(view: Viewport)
    requires view.Len() > 0 && !EvenBins(view)
    ensures BinCount(view) == DEFAULT_CHART_BINS < view.Len()
    ensures var end := BinRange(view, view.Len(), BinCount(view), 0).1;
            FirstCounted(view, BinCount(view), 0) == view.startRow < end < FirstCounted(view, BinCount(view), 1)
  {
    var len, n := view.Len(), DEFAULT_CHART_BINS;
    CountedEnds(view, n);
    RangeIsCut(view, n, 0);
    CutEnds(len, n);
    CutSteps(len, n, 0);
    CeilStep(len, n, n);
  }

  function ExactSeriesOf(rows: seq<TraceRow>, view: Viewport, m: Measure): (points: seq<Point>)
    requires view.startRow < view.endRow <= |rows|
  {
    var n := BinCount(view);
    seq(n, b requires 0 <= b < n =>
      var (from, to) := (FirstCounted(view, n, b), FirstCounted(view, n, b + 1));
      var (start, end) := BinRange(view, view.Len(), n, b);
      PointOver(start, end, if from < to <= |rows| then Average(rows[from..to], m) else 0.0))
  }

  lemma ExactSeriesExists(rows: seq<TraceRow>, view: Viewport, m: Measure)
    requires view.startRow < view.endRow <= |rows|
    ensures RowChart(ExactSeriesOf(rows, view, m), rows, view, m)
  {
    hide FirstCounted, BinRange, Average;
    var n := BinCount(view);
    var shown := rows[view.startRow..view.endRow];
    var points := ExactSeriesOf(rows, view, m);
    forall b | 0 <= b < n ensures ExactPoint(points[b], shown, view, n, b, m) {
      CountedInside(view, n, b);
      SliceOfSlice(rows, view.startRow, view.endRow, FirstCounted(view, n, b), FirstCounted(view, n, b + 1));
    }
    hide ExactPoint, ExactSeriesOf;
  }

  /** The rows counted in a bin lie inside the viewport. */
  lemma CountedInside(view: Viewport, n: nat, b: nat)
    requires 1 <= n <= view.Len() && b < n
    ensures view.startRow <= FirstCounted(view, n, b) < FirstCounted(view, n, b + 1) <= view.endRow
  {
    hide FirstCounted;
    CountedEnds(view, n);
    CountedIncreaseTo(view, n, 0, b);
    CountedIncrease(view, n, b);
    CountedIncreaseTo(view, n, b + 1, n);
  }

  /** In uneven bins, one odd row just past the first bin's label is enough to plot a wrong value. */
  lemma UnevenPlotsWrong(points: seq<Point>, rows: seq<TraceRow>, view: Viewport, m: Measure, odd: TraceRow,
                         row: TraceRow)
    requires RowChart(points, rows, view, m) && !EvenBins(view)
    requires var k := BinRange(view, view.Len(), BinCount(view), 0).1;
             OneOdd(rows, k, odd, row) && RowValue(odd, m) != RowValue(row, m)
    ensures !PlotsAverages(points, rows, view, m)
  {
    FirstBinOverhangs(view);
    ChartSize(points, rows, view, m);
    hide EvenBins, FirstCounted, BinRange, Average, OneOdd, RowChart, RowValue, LabelsTile, BinCount;
    ExactPointIs(points, rows, view, m, 0);
    var span := (FirstCounted(view, |points|, 0), FirstCounted(view, |points|, 1));
    OddRowExposes(points[0], rows, span, BinRange(view, view.Len(), BinCount(view), 0).1, odd, row, m);
  }

  lemma ChartSize(points: seq<Point>, rows: seq<TraceRow>, view: Viewport, m: Measure)
    requires RowChart(points, rows, view, m)
    ensures |points| == BinCount(view) > 0
  {
  }

  lemma ExactWrong(view: Viewport, n: nat, nodeCount: nat, m: Measure) returns (points: seq<Point>, rows: seq<TraceRow>)
    requires nodeCount > 0 && m.Within(nodeCount) && view.startRow < view.endRow <= n
    requires !EvenBins(view) && Varies(m, nodeCount)
    ensures |rows| == n && Loadable(rows, nodeCount) && RowChart(points, rows, view, m)
    ensures !PlotsAverages(points, rows, view, m)
  {
    var k := BinRange(view, view.Len(), BinCount(view), 0).1;
    OverhangInside(view);
    hide EvenBins, BinRange, OddTrace, Sample, Loadable, Varies, OneOdd, RowChart, RowValue, PlotsAverages,
         ExactSeriesOf, BinCount;
    rows := OddTrace(n, k, m, nodeCount);
    points := ExactSeriesOf(rows, view, m);
    ExactSeriesExists(rows, view, m);
    OddTraceIsOne(n, k, m, nodeCount);
    SamplesDiffer(m, nodeCount);
    UnevenPlotsWrong(points, rows, view, m, Sample(m, nodeCount, true), Sample(m, nodeCount, false));
  }

  lemma OverhangInside(view: Viewport)
    requires view.Len() > 0 && !EvenBins(view)
    ensures BinRange(view, view.Len(), BinCount(view), 0).1 < view.endRow
  {
    FirstBinOverhangs(view);
    CountedInside(view, BinCount(view), 0);
  }

  /** The row-by-row series tells the truth about every trace if and only if the bins are equally wide,
      or nothing can vary. */
  lemma ExactTrueExactly(view: Viewport, n: nat, nodeCount: nat, m: Measure)
    requires nodeCount > 0 && m.Within(nodeCount) && view.startRow < view.endRow <= n
    ensures ExactAlwaysTrue(view, n, nodeCount, m) <==> EvenBins(view) || !Varies(m, nodeCount)
  {
    hide EvenBins, Varies, RowChart, Loadable, PlotsAverages;
    if EvenBins(view) || !Varies(m, nodeCount) {
      forall points: seq<Point>, rows: seq<TraceRow>
        | |rows| == n && Loadable(rows, nodeCount) && RowChart(points, rows, view, m)
        ensures PlotsAverages(points, rows, view, m)
      {
        ExactTrue(points, rows, view, m, nodeCount);
      }
    } else {
      var points, rows := ExactWrong(view, n, nodeCount, m);
    }
  }
}
