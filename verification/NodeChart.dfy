/** The chart of one node metric: built row by row for small viewports and from tiles for large ones. */
module NodeChart {
  import opened Tiles
  import opened Bins
  import opened TraceLines
  import opened TraceIndex
  import opened NodeSeries
  import opened ExactSeries
  import opened SeriesLaws

  const EXACT_NODE_SCAN_ROW_LIMIT: nat := 131072

  predicate ScansRows(view: Viewport)
  {
    view.Len() <= EXACT_NODE_SCAN_ROW_LIMIT
  }

  /** A chart the code can show for a loaded trace. */
  ghost predicate Chart(points: seq<Point>, rows: seq<TraceRow>, nodeCount: nat, view: Viewport, m: Measure)
  {
    if ScansRows(view) then RowChart(points, rows, view, m)
    else TileChart(points, rows, CoarseRowsForLen(|rows|), nodeCount, view, m)
  }

  /** `build_node_metric_series`, for one node and metric of a trace that `LoadTrace` has loaded. */
  method BuildNodeMetricSeries(file: string, header: nat, parse: RowParser, rowOffsets: seq<nat>, tiles: seq<Tile>,
                               nodeCount: nat, view: Viewport, m: Measure, ghost rows: seq<TraceRow>)
    returns (result: Outcome<seq<Point>>)
    requires header <= |file| && ParseAll(Lines(file, header), parse) == Ok(rows)
    requires rowOffsets == Offsets(file, header)
    requires Tiled(tiles, rows, CoarseRowsForLen(|rows|), nodeCount)
    requires Summable(CoarseRowsForLen(|rows|), nodeCount, m) && view.endRow <= |rows|
    ensures result.Ok?
    ensures if view.Len() == 0 then result.value == [] else Chart(result.value, rows, nodeCount, view, m)
  {
    hide Offsets, Lines, Tiled, ExactPoints, OverlapSpan, TileSeries, CoarseRowsForLen, ParseAll, ScanOf, Summable;
    if view.Len() == 0 {
      return Ok([]);
    }
    if view.Len() <= EXACT_NODE_SCAN_ROW_LIMIT {
      LoadedSeries(Lines(file, header), parse, rows, view);
      result := BuildExactSeries(file, header, rowOffsets, view, parse, m);
    } else {
      var points := BuildTileSeries(tiles, view, nodeCount, m, rows, CoarseRowsForLen(|rows|));
      result := Ok(points);
    }
  }

  /** Even bins for a small viewport, tile boundaries for a large one. */
  predicate ChartIsTrue(view: Viewport, n: nat)
  {
    if ScansRows(view) then EvenBins(view) else TileAligned(view, CoarseRowsForLen(n), n)
  }

  /** Every loadable trace of `n` rows is shown as the averages of the rows its points are labelled with. */
  ghost predicate AlwaysTrue(view: Viewport, n: nat, nodeCount: nat, m: Measure)
  {
    forall points: seq<Point>, rows: seq<TraceRow> ::
      |rows| == n && Loadable(rows, nodeCount) && Chart(points, rows, nodeCount, view, m) ==>
        PlotsAverages(points, rows, view, m)
  }

  lemma SmallCharts(view: Viewport, n: nat, nodeCount: nat, m: Measure)
    requires ScansRows(view)
    ensures AlwaysTrue(view, n, nodeCount, m) <==> ExactAlwaysTrue(view, n, nodeCount, m)
  {
    hide RowChart, PlotsAverages, Loadable;
  }

  lemma LargeCharts(view: Viewport, n: nat, nodeCount: nat, m: Measure)
    requires !ScansRows(view)
    ensures AlwaysTrue(view, n, nodeCount, m) <==> TilesAlwaysTrue(view, CoarseRowsForLen(n), n, nodeCount, m)
  {
    hide TileChart, PlotsAverages, Loadable, CoarseRowsForLen;
  }

  /**
    Over a viewport inside the trace, the chart is true of every trace of that length if and only if its bins are
    equally wide, or, when it is built from tiles, the viewport lies on tile boundaries. The one exception is the
    win fraction of an only node, which is 1 in every row.
    */
  lemma ChartTrueExactly(view: Viewport, n: nat, nodeCount: nat, m: Measure)
    requires nodeCount > 0 && Summable(CoarseRowsForLen(n), nodeCount, m) && view.startRow < view.endRow <= n
    ensures AlwaysTrue(view, n, nodeCount, m) <==> ChartIsTrue(view, n) || !Varies(m, nodeCount)
  {
    SummableMeasure(CoarseRowsForLen(n), nodeCount, m);
    hide AlwaysTrue, ExactAlwaysTrue, TilesAlwaysTrue, EvenBins, TileAligned, Varies, CoarseRowsForLen, Summable;
    if ScansRows(view) {
      SmallCharts(view, n, nodeCount, m);
      ExactTrueExactly(view, n, nodeCount, m);
    } else {
      LargeCharts(view, n, nodeCount, m);
      TilesTrueExactly(view, CoarseRowsForLen(n), n, nodeCount, m);
    }
  }

  /** Scrolled one row into a large trace, the chart shows some trace wrongly. */
  lemma OneRowInMisleads(n: nat, nodeCount: nat, m: Measure)
    requires n > EXACT_NODE_SCAN_ROW_LIMIT + 1 && nodeCount > 0
    requires Summable(CoarseRowsForLen(n), nodeCount, m) && Varies(m, nodeCount)
    ensures !ScansRows(Viewport(1, n)) && !AlwaysTrue(Viewport(1, n), n, nodeCount, m)
  {
    hide AlwaysTrue, Varies, Summable;
    ChartTrueExactly(Viewport(1, n), n, nodeCount, m);
    assert 1 % CoarseRowsForLen(n) == 1;
  }

  // ---------- A wrong chart within reach ----------

  /** `zoom_out` around the rows of the selected point. */
  function ZoomOut(view: Viewport, point: (nat, nat), total: nat): Viewport
  {
    if total <= view.Len() then view
    else
      var center := (point.0 + point.1) / 2;
      var newLen := AtLeast(AtMost(2 * view.Len(), total), DEFAULT_COARSE_ROW_TARGET);
      var start := if center < newLen / 2 then 0 else center - newLen / 2;
      var end := AtMost(start + newLen, total);
      Viewport(if end < newLen then 0 else end - newLen, end)
  }

  /** Zooming out with the cursor on the first point of a row-by-row chart. */
  function ZoomOutOnFirst(view: Viewport, total: nat): Viewport
    requires view.Len() > 0
  {
    ZoomOut(view, BinRange(view, view.Len(), BinCount(view), 0), total)
  }

  const MILLION: nat := 1_000_000

  lemma TilesOfMillion()
    ensures CoarseRowsForLen(MILLION) == 1042
  {
  }

  lemma WholeSpan(lo: nat, hi: nat)
    requires Brackets(Viewport(0, MILLION), lo, hi, 1042, MILLION)
    ensures lo == 0 && hi == 960
  {
  }

  lemma HundredthBin()
    ensures BinRows(0, 960, 240, 100, 1042, MILLION) == (416_800, 420_968)
  {
    assert 100 * 960 / 240 == 400 && 101 * 960 / 240 == 404;
  }

  /** Point 100 of the chart of a whole trace of a million rows is labelled with rows 416800 to 420968. */
  lemma PointOfWholeTrace(points: seq<Point>, rows: seq<TraceRow>, nodeCount: nat, node: nat)
    requires node < nodeCount && |rows| == MILLION
    requires Chart(points, rows, nodeCount, Viewport(0, MILLION), NodeBits(node))
    ensures |points| == 240 && points[100].startRow == 416_800 && points[100].endRow == 420_968
  {
    hide Tiled, OverlapSpan, TileSeries, Brackets, BinRows, CoarseRowsForLen, TileAligned, Edge, RowChart;
    var view, m := Viewport(0, MILLION), NodeBits(node);
    TilesOfMillion();
    var tiles: seq<Tile>, lo: nat, hi: nat :|
      Tiled(tiles, rows, 1042, nodeCount) && OverlapSpan(tiles, view, lo, hi)
      && TileSeries(points, rows, view, m, lo, hi, 1042);
    AlignedEdges(tiles, rows, 1042, nodeCount, m, view, lo, hi);
    WholeSpan(lo, hi);
    WholeSeriesSize(points, rows, view, m, 1042);
    LabelRows(points, rows, view, m, 0, 960, 1042, 100);
    HundredthBin();
  }

  lemma WholeSeriesSize(points: seq<Point>, rows: seq<TraceRow>, view: Viewport, m: Measure, coarse: nat)
    requires TileSeries(points, rows, view, m, 0, 960, coarse)
    ensures |points| == 240
  {
  }

  lemma ZoomStep(view: Viewport, step: nat, next: Viewport)
    requires 1024 <= view.Len() && 2 * view.Len() <= MILLION
    requires 240 * step <= view.Len() < 240 * step + 240
    requires next.startRow + view.Len() == (view.startRow + (view.startRow + step)) / 2
    requires next.endRow == next.startRow + 2 * view.Len() <= MILLION
    ensures ZoomOutOnFirst(view, MILLION) == next
  {
    assert 1 * view.Len() / 240 == step;
    RangeIsCut(view, 240, 0);
  }

  /** The viewports met when zooming in on that point and then out again five times. */
  const ZOOMED: seq<Viewport> := [
    Viewport(416_800, 420_968), Viewport(412_640, 420_976), Viewport(404_321, 420_993),
    Viewport(387_683, 421_027), Viewport(354_408, 421_096), Viewport(287_858, 421_234)]

  /** They are what the code computes. */
  lemma ZoomingOut()
    ensures forall i :: 0 <= i < 5 ==> ZOOMED[i].Len() > 0 && ZOOMED[i + 1] == ZoomOutOnFirst(ZOOMED[i], MILLION)
  {
    hide ZoomOutOnFirst;
    ZoomStep(ZOOMED[0], 17, ZOOMED[1]);
    ZoomStep(ZOOMED[1], 34, ZOOMED[2]);
    ZoomStep(ZOOMED[2], 69, ZOOMED[3]);
    ZoomStep(ZOOMED[3], 138, ZOOMED[4]);
    ZoomStep(ZOOMED[4], 277, ZOOMED[5]);
  }

  /**
    The last of these viewports is large enough to be charted from tiles and lies off the tile boundaries,
    so that some trace of a million rows is shown wrongly.
    */
  lemma ZoomingMisleads(nodeCount: nat, node: nat)
    requires node < nodeCount
    ensures ScansRows(ZOOMED[4]) && !ScansRows(ZOOMED[5])
    ensures !AlwaysTrue(ZOOMED[5], MILLION, nodeCount, NodeBits(node))
  {
    hide AlwaysTrue, CoarseRowsForLen;
    TilesOfMillion();
    ChartTrueExactly(ZOOMED[5], MILLION, nodeCount, NodeBits(node));
  }
}
