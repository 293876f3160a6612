/** The row-by-row chart series: what each of its bins averages, and when that is what the bin is labelled with. */
module ExactSeries {
  import opened Tiles
  import opened Bins
  import opened NodeSeries
  import opened TraceLines
  import opened TraceIndex

  /** A bin counts exactly the rows from its first row to the next bin's. */
  lemma CountedRows(view: Viewport, binCount: nat, row: nat, bin: nat)
    requires 1 <= binCount <= view.Len() && view.startRow <= row < view.endRow && bin < binCount
    ensures RowToBin(view, view.Len(), binCount, row) == bin
       <==> FirstCounted(view, binCount, bin) <= row < FirstCounted(view, binCount, bin + 1)
  {
    var len, relative := view.Len(), row - view.startRow;
    CountedUnclamped(view, binCount, row);
    FloorAtLeast(relative * binCount, len, bin);
    FloorAtLeast(relative * binCount, len, bin + 1);
    CeilingAtMost(bin * len, binCount, relative);
    CeilingAtMost((bin + 1) * len, binCount, relative);
  }

  lemma CeilingAtMost(a: nat, unit: nat, q: nat)
    requires unit > 0
    ensures (a + (unit - 1)) / unit <= q <==> a <= q * unit
  {
    FloorAtLeast(a + (unit - 1), unit, q + 1);
    assert (q + 1) * unit == q * unit + unit;
  }

  lemma CountedEnds(view: Viewport, binCount: nat)
    requires 1 <= binCount && view.startRow <= view.endRow
    ensures FirstCounted(view, binCount, 0) == view.startRow
    ensures FirstCounted(view, binCount, binCount) == view.endRow
  {
    FloorIs(binCount - 1, binCount, 0);
    assert binCount * view.Len() == view.Len() * binCount;
    assert (view.Len() + 1) * binCount == view.Len() * binCount + binCount;
    FloorIs(binCount * view.Len() + (binCount - 1), binCount, view.Len());
  }

  lemma CountedIncrease(view: Viewport, binCount: nat, bin: nat)
    requires 1 <= binCount <= view.Len()
    ensures FirstCounted(view, binCount, bin) < FirstCounted(view, binCount, bin + 1)
  {
    var len := view.Len();
    var r := (bin * len + (binCount - 1)) / binCount;
    CeilingBounds(bin * len, binCount);
    assert (bin + 1) * len == bin * len + len;
    CeilingAtMost((bin + 1) * len, binCount, r);
  }

  lemma {:induction false} CountedIncreaseTo(view: Viewport, binCount: nat, a: nat, b: nat)
    requires 1 <= binCount <= view.Len() && a <= b
    ensures FirstCounted(view, binCount, a) <= FirstCounted(view, binCount, b)
    decreases b
  {
    hide FirstCounted;
    if a < b {
      CountedIncreaseTo(view, binCount, a, b - 1);
      CountedIncrease(view, binCount, b - 1);
    }
  }

  /** Rows `from` to `to` among those before `row`; `shown` holds the rows from `start` on. */
  function Part(shown: seq<TraceRow>, start: nat, from: nat, to: nat, row: nat): seq<TraceRow>
    requires start <= from <= to && start <= row <= start + |shown|
  {
    shown[AtMost(from, row) - start..AtMost(to, row) - start]
  }

  /** A bin of the accumulator. */
  datatype ExactBin = ExactBin(startRow: nat, endRow: nat, count: nat, sum: real)

  function NewBin(view: Viewport, binCount: nat, b: nat): ExactBin
    requires 1 <= binCount
  {
    var (start, end) := BinRange(view, view.Len(), binCount, b);
    ExactBin(start, end, 0, 0.0)
  }

  ghost predicate Accumulated(bins: seq<ExactBin>, shown: seq<TraceRow>, view: Viewport, m: Measure, row: nat)
    requires 1 <= |bins| <= view.Len() && view.startRow <= row <= view.startRow + |shown|
  {
    forall b :: 0 <= b < |bins| ==> Collected(bins[b], shown, view, |bins|, b, m, row)
  }

  /** A bin has counted and summed its rows before `row`. */
  ghost predicate Collected(bin: ExactBin, shown: seq<TraceRow>, view: Viewport, binCount: nat, b: nat, m: Measure,
                            row: nat)
    requires 1 <= binCount <= view.Len() && view.startRow <= row <= view.startRow + |shown|
  {
    var from, to := FirstCounted(view, binCount, b), FirstCounted(view, binCount, b + 1);
    && view.startRow <= from < to
    && (bin.startRow, bin.endRow) == BinRange(view, view.Len(), binCount, b)
    && var part := Part(shown, view.startRow, from, to, row);
       bin.count == |part| && bin.sum == Total(part, m)
  }

  lemma CollectRow(bin: ExactBin, shown: seq<TraceRow>, view: Viewport, binCount: nat, b: nat, m: Measure, row: nat)
    requires 1 <= binCount <= view.Len() && b < binCount
    requires view.startRow <= row < view.endRow && row < view.startRow + |shown|
    requires Collected(bin, shown, view, binCount, b, m, row)
    ensures Collected(if b == RowToBin(view, view.Len(), binCount, row)
                      then bin.(count := bin.count + 1, sum := bin.sum + RowValue(shown[row - view.startRow], m))
                      else bin,
                      shown, view, binCount, b, m, row + 1)
  {
    CountedRows(view, binCount, row, b);
    hide FirstCounted, RowToBin, BinRange, RowValue, Part, Total;
    PartGrows(shown, view.startRow, FirstCounted(view, binCount, b), FirstCounted(view, binCount, b + 1), row, m);
  }

  lemma PartGrows(shown: seq<TraceRow>, start: nat, from: nat, to: nat, row: nat, m: Measure)
    requires start <= from <= to && start <= row < start + |shown|
    ensures var part, more := Part(shown, start, from, to, row), Part(shown, start, from, to, row + 1);
            if from <= row < to then
              |more| == |part| + 1 && Total(more, m) == Total(part, m) + RowValue(shown[row - start], m)
            else more == part
  {
    hide RowValue;
    var part, more := Part(shown, start, from, to, row), Part(shown, start, from, to, row + 1);
    if from <= row < to {
      assert more == part + [shown[row - start]];
      assert more[..|more| - 1] == part;
    }
  }

  /** A bin is labelled with its shown range and valued at the average of the rows counted in it. */
  ghost predicate ExactPoint(p: Point, shown: seq<TraceRow>, view: Viewport, binCount: nat, b: nat, m: Measure)
    requires 1 <= binCount
  {
    var from, to := FirstCounted(view, binCount, b), FirstCounted(view, binCount, b + 1);
    var (start, end) := BinRange(view, view.Len(), binCount, b);
    && view.startRow <= from < to <= view.startRow + |shown|
    && p == PointOver(start, end, Average(shown[from - view.startRow..to - view.startRow], m))
  }

  /** The code's number of bins: at most 240, and at most one per row. */
  function BinCount(view: Viewport): nat
  {
    AtMost(view.Len(), DEFAULT_CHART_BINS)
  }

  /** One point per bin, over the rows of the viewport. */
  ghost predicate ExactPoints(points: seq<Point>, shown: seq<TraceRow>, view: Viewport, m: Measure)
  {
    && |points| == BinCount(view) > 0
    && forall b :: 0 <= b < |points| ==> ExactPoint(points[b], shown, view, |points|, b, m)
  }

  /** Count and sum every row in its bin, then average. */
  method AverageByBin(shown: seq<TraceRow>, view: Viewport, m: Measure) returns (points: seq<Point>)
    requires view.startRow < view.endRow && |shown| == view.Len()
    ensures ExactPoints(points, shown, view, m)
  {
    hide FirstCounted, BinRange, RowToBin, RowValue, Total, Collected, ExactPoint, NewBin;
    var len := view.Len();
    var binCount := AtLeast(AtMost(len, DEFAULT_CHART_BINS), 1);
    var bins := seq(binCount, b requires 0 <= b < binCount => NewBin(view, binCount, b));
    forall b | 0 <= b < binCount ensures Collected(bins[b], shown, view, binCount, b, m, view.startRow) {
      NothingCollected(shown, view, binCount, b, m);
    }
    for row := view.startRow to view.endRow
      invariant |bins| == binCount
      invariant Accumulated(bins, shown, view, m, row)
    {
      var bin := RowToBin(view, len, binCount, row);
      CountingIsMonotone(view, binCount, row, row);
      var value := RowValue(shown[row - view.startRow], m);
      forall b | 0 <= b < binCount
        ensures Collected(if b == bin then bins[b].(count := bins[b].count + 1, sum := bins[b].sum + value)
                          else bins[b], shown, view, binCount, b, m, row + 1)
      {
        CollectRow(bins[b], shown, view, binCount, b, m, row);
      }
      bins := bins[bin := bins[bin].(count := bins[bin].count + 1, sum := bins[bin].sum + value)];
    }
    points := [];
    for b := 0 to binCount
      invariant |points| == b
      invariant forall k :: 0 <= k < b ==> ExactPoint(points[k], shown, view, binCount, k, m)
    {
      AllCollected(bins[b], shown, view, binCount, b, m);
      if bins[b].count != 0 {
        points := points + [PointOver(bins[b].startRow, bins[b].endRow, bins[b].sum / bins[b].count as real)];
      }
    }
  }

  lemma NothingCollected(shown: seq<TraceRow>, view: Viewport, binCount: nat, b: nat, m: Measure)
    requires 1 <= binCount <= view.Len()
    ensures Collected(NewBin(view, binCount, b), shown, view, binCount, b, m, view.startRow)
  {
    CountedIncrease(view, binCount, b);
    hide FirstCounted, BinRange;
  }

  lemma AllCollected(bin: ExactBin, shown: seq<TraceRow>, view: Viewport, binCount: nat, b: nat, m: Measure)
    requires 1 <= binCount <= view.Len() == |shown| && b < binCount
    requires Collected(bin, shown, view, binCount, b, m, view.endRow)
    ensures bin.count > 0
    ensures ExactPoint(PointOver(bin.startRow, bin.endRow, bin.sum / bin.count as real), shown, view, binCount, b, m)
  {
    CountedEnds(view, binCount);
    CountedIncrease(view, binCount, b);
    CountedIncreaseTo(view, binCount, b + 1, binCount);
    hide FirstCounted, BinRange;
  }

  /**
    `build_exact_node_metric_series`, for one node and metric: scan the viewport's rows from the file and
    average them by bin. A row that fails to parse, or a file with too few rows, fails the series.
    */
  method BuildExactSeries(file: string, header: nat, rowOffsets: seq<nat>, view: Viewport, parse: RowParser, m: Measure)
    returns (result: Outcome<seq<Point>>)
    requires header <= |file| && rowOffsets == Offsets(file, header) && view.startRow < view.endRow
    ensures match ScanOf(Lines(file, header), view.startRow, view.endRow, parse)
            case Scanned(shown) => result.Ok? && |shown| == view.Len() && ExactPoints(result.value, shown, view, m)
            case VisitFailed(message) => result == Err(message)
            case _ => result.Err?
  {
    hide Offsets, Lines, VisitAll, ExactPoints;
    var scanned := ScanTraceRange(file, header, rowOffsets, view.startRow, view.endRow, parse);
    match scanned
    case Scanned(shown) =>
      var points := AverageByBin(shown, view, m);
      return Ok(points);
    case OffsetOutOfRange =>
      return Err("row offset out of range");
    case UnexpectedEof =>
      return Err("unexpected EOF");
    case VisitFailed(message) =>
      return Err(message);
  }

  /** The series of a loaded trace: each bin averages the trace's own rows. */
  ghost predicate RowChart(points: seq<Point>, rows: seq<TraceRow>, view: Viewport, m: Measure)
  {
    && view.startRow < view.endRow <= |rows|
    && ExactPoints(points, rows[view.startRow..view.endRow], view, m)
  }

  /** When the whole file parses, the series of any viewport inside it is built, from the rows that were loaded. */
  lemma LoadedSeries(lines: seq<string>, parse: RowParser, rows: seq<TraceRow>, view: Viewport)
    requires ParseAll(lines, parse) == Ok(rows) && view.startRow < view.endRow <= |rows|
    ensures ScanOf(lines, view.startRow, view.endRow, parse) == Scanned(rows[view.startRow..view.endRow])
  {
    ScanOfSound(lines, parse, rows, view.startRow, view.endRow);
  }

  /** What one point of a loaded trace's series averages. */
  lemma ExactPointIs(points: seq<Point>, rows: seq<TraceRow>, view: Viewport, m: Measure, b: nat)
    requires RowChart(points, rows, view, m) && b < |points|
    ensures var n := |points|;
            var from, to := FirstCounted(view, n, b), FirstCounted(view, n, b + 1);
            var (start, end) := BinRange(view, view.Len(), n, b);
            && view.startRow <= from < to <= |rows|
            && points[b] == PointOver(start, end, Average(rows[from..to], m))
  {
    hide FirstCounted, BinRange, Average;
    var shown := rows[view.startRow..view.endRow];
    var from, to := FirstCounted(view, |points|, b), FirstCounted(view, |points|, b + 1);
    assert ExactPoint(points[b], shown, view, |points|, b, m);
    SliceOfSlice(rows, view.startRow, view.endRow, from, to);
  }

  lemma SliceOfSlice(rows: seq<TraceRow>, a: nat, b: nat, from: nat, to: nat)
    requires a <= from <= to <= b <= |rows|
    ensures rows[a..b][from - a..to - a] == rows[from..to]
  {
    var part := rows[a..b];
    assert forall i :: 0 <= i < to - from ==> part[from - a..to - a][i] == part[from - a + i] == rows[from..to][i];
  }

  /** Its labels tile the viewport. */
  lemma ExactSeriesLabels(points: seq<Point>, rows: seq<TraceRow>, view: Viewport, m: Measure)
    requires RowChart(points, rows, view, m)
    ensures LabelsTile(points, view)
  {
    hide FirstCounted, BinRange, Average, ExactPoint;
    var n := |points|;
    RangesTileViewport(view, n);
    forall b | 0 <= b < n
      ensures (points[b].startRow, points[b].endRow) == BinRange(view, view.Len(), n, b)
    {
      ExactPointIs(points, rows, view, m, b);
    }
  }

  ghost predicate LabelledAsCounted(view: Viewport, binCount: nat)
    requires 1 <= binCount
  {
    forall b :: 0 <= b < binCount ==>
      BinRange(view, view.Len(), binCount, b) == (FirstCounted(view, binCount, b), FirstCounted(view, binCount, b + 1))
  }

  /** Each bin is labelled with the rows it averages exactly when the bins are equally wide. */
  lemma ExactLabels(view: Viewport, binCount: nat)
    requires 1 <= binCount <= view.Len()
    ensures view.Len() % binCount == 0 <==> LabelledAsCounted(view, binCount)
  {
    var len := view.Len();
    if len % binCount == 0 {
      forall b | 0 <= b < binCount
        ensures BinRange(view, len, binCount, b)
             == (FirstCounted(view, binCount, b), FirstCounted(view, binCount, b + 1))
      {
        RangeIsCut(view, binCount, b);
        EvenCut(len, binCount, b);
        EvenCut(len, binCount, b + 1);
      }
    } else {
      RangeIsCut(view, binCount, 0);
      CeilStep(len, binCount, binCount);
      assert BinRange(view, len, binCount, 0).1 != FirstCounted(view, binCount, 1);
    }
  }

  lemma EvenCut(len: nat, binCount: nat, b: nat)
    requires 1 <= binCount && len % binCount == 0
    ensures (b * len + (binCount - 1)) / binCount == b * len / binCount
  {
    var width := len / binCount;
    assert b * len == b * width * binCount by {
      assert len == width * binCount;
    }
    assert (b * width + 1) * binCount == b * width * binCount + binCount;
    FloorIs(b * len, binCount, b * width);
    FloorIs(b * len + (binCount - 1), binCount, b * width);
  }
}
