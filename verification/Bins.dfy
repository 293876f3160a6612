/** Chart bins over a viewport: the ranges shown for the bins, and the bin each row is counted in. */
module Bins {

  const DEFAULT_CHART_BINS: nat := 240

  datatype Viewport = Viewport(startRow: nat, endRow: nat)
  {
    function Len(): nat
    {
      if startRow <= endRow then endRow - startRow else 0
    }
  }

  function AtMost(x: nat, cap: nat): nat
  {
    if x < cap then x else cap
  }

  function AtLeast(x: nat, floor: nat): nat
  {
    if x < floor then floor else x
  }

  /** The rows shown for bin `bin`. */
  function BinRange(view: Viewport, len: nat, binCount: nat, bin: nat): (nat, nat)
    requires binCount > 0
  {
    var start := view.startRow + bin * len / binCount;
    var end := view.startRow + (bin + 1) * len / binCount;
    if end <= start then (start, AtMost(start + 1, view.endRow)) else (start, end)
  }

  /** The bin a row is counted in. */
  function RowToBin(view: Viewport, len: nat, binCount: nat, row: nat): nat
    requires binCount > 0
  {
    var relative := if row < view.startRow then 0 else row - view.startRow;
    var bin := relative * binCount / AtLeast(len, 1);
    if binCount <= bin then binCount - 1 else bin
  }

  // ---------- Floors of quotients ----------

  lemma TimesMonotone(a: nat, b: nat, c: nat)
    requires a <= b
    ensures a * c <= b * c
  {
  }

  lemma FloorIs(a: nat, unit: nat, q: nat)
    requires unit > 0 && q * unit <= a < (q + 1) * unit
    ensures a / unit == q
  {
    var d := a / unit;
    assert d * unit <= a < (d + 1) * unit;
    if d < q { TimesMonotone(d + 1, q, unit); }
    if q < d { TimesMonotone(q + 1, d, unit); }
  }

  /** `q <= a / unit` exactly when `q` units fit. */
  lemma FloorAtLeast(a: nat, unit: nat, q: nat)
    requires unit > 0
    ensures q <= a / unit <==> q * unit <= a
  {
    var d := a / unit;
    assert d * unit <= a < (d + 1) * unit;
    assert q <= d ==> q * unit <= d * unit;
    assert d < q ==> (d + 1) * unit <= q * unit;
  }

  lemma FloorMonotone(a: nat, b: nat, unit: nat)
    requires unit > 0 && a <= b
    ensures a / unit <= b / unit
  {
    assert a / unit * unit <= a;
    FloorAtLeast(b, unit, a / unit);
  }

  // ---------- The shown ranges ----------

  /** Relative row at which bin `bin` starts. */
  function Cut(len: nat, binCount: nat, bin: nat): nat
    requires binCount > 0
  {
    bin * len / binCount
  }

  lemma CutBelow(len: nat, binCount: nat, bin: nat, relative: nat)
    requires binCount > 0
    ensures relative < Cut(len, binCount, bin) <==> relative * binCount + binCount <= bin * len
  {
    FloorAtLeast(bin * len, binCount, relative + 1);
    assert (relative + 1) * binCount == relative * binCount + binCount;
  }

  lemma CutSteps(len: nat, binCount: nat, bin: nat)
    requires 1 <= binCount <= len
    ensures Cut(len, binCount, bin) < Cut(len, binCount, bin + 1)
  {
    var low := bin * len / binCount;
    assert low * binCount <= bin * len;
    assert (bin + 1) * len == bin * len + len;
    CutBelow(len, binCount, bin + 1, low);
  }

  /** With at least as many rows as bins, the shown ranges are cut from the viewport without the fallback. */
  lemma RangeIsCut(view: Viewport, binCount: nat, bin: nat)
    requires 1 <= binCount <= view.Len()
    ensures BinRange(view, view.Len(), binCount, bin)
         == (view.startRow + Cut(view.Len(), binCount, bin), view.startRow + Cut(view.Len(), binCount, bin + 1))
  {
    CutSteps(view.Len(), binCount, bin);
  }

  lemma CutEnds(len: nat, binCount: nat)
    requires binCount > 0
    ensures Cut(len, binCount, 0) == 0 && Cut(len, binCount, binCount) == len
  {
    FloorIs(binCount * len, binCount, len);
  }

  /** The shown ranges are non-empty, follow each other, and cover the viewport from end to end. */
  lemma RangesTileViewport(view: Viewport, binCount: nat)
    requires 1 <= binCount <= view.Len()
    ensures var len := view.Len();
            && BinRange(view, len, binCount, 0).0 == view.startRow
            && BinRange(view, len, binCount, binCount - 1).1 == view.endRow
            && (forall b :: 0 <= b < binCount ==>
                BinRange(view, len, binCount, b).0 < BinRange(view, len, binCount, b).1)
            && forall b :: 0 <= b < binCount - 1 ==>
                BinRange(view, len, binCount, b).1 == BinRange(view, len, binCount, b + 1).0
  {
    hide BinRange, Cut;
    var len := view.Len();
    CutEnds(len, binCount);
    RangeIsCut(view, binCount, 0);
    RangeIsCut(view, binCount, binCount - 1);
    forall b | 0 <= b < binCount
      ensures BinRange(view, len, binCount, b).0 < BinRange(view, len, binCount, b).1
    {
      RangeIsCut(view, binCount, b);
      CutSteps(len, binCount, b);
    }
    forall b | 0 <= b < binCount - 1
      ensures BinRange(view, len, binCount, b).1 == BinRange(view, len, binCount, b + 1).0
    {
      RangeIsCut(view, binCount, b);
      RangeIsCut(view, binCount, b + 1);
    }
  }

  function Scaled(relative: nat, binCount: nat): nat
  {
    relative * binCount
  }

  /** The bin in whose shown range a row falls. */
  function ShownBin(view: Viewport, binCount: nat, row: nat): nat
    requires 1 <= binCount <= view.Len() && view.startRow <= row
  {
    var scaled: nat := Scaled(row - view.startRow, binCount);
    (scaled + (binCount - 1)) / view.Len()
  }

  predicate InRange(row: nat, range: (nat, nat))
  {
    range.0 <= row < range.1
  }

  lemma ShownBinExists(len: nat, binCount: nat, relative: nat)
    requires 1 <= binCount <= len && relative < len
    ensures (relative * binCount + (binCount - 1)) / len < binCount
  {
    TimesMonotone(relative + 1, len, binCount);
    OneMore(relative, binCount);
    BelowCeiling(relative * binCount, binCount, len);
  }

  lemma OneMore(a: nat, b: nat)
    ensures (a + 1) * b == a * b + b
  {
  }

  lemma BelowCeiling(scaled: nat, binCount: nat, len: nat)
    requires 1 <= binCount <= len && scaled + binCount <= len * binCount
    ensures (scaled + (binCount - 1)) / len < binCount
  {
    FloorAtLeast(scaled + (binCount - 1), len, binCount);
  }

  lemma CutsAround(len: nat, binCount: nat, relative: nat, bin: nat)
    requires 1 <= binCount <= len
    ensures Cut(len, binCount, bin) <= relative < Cut(len, binCount, bin + 1)
       <==> bin == (relative * binCount + (binCount - 1)) / len
  {
    var a := relative * binCount + (binCount - 1);
    CutBelow(len, binCount, bin, relative);
    CutBelow(len, binCount, bin + 1, relative);
    FloorAtLeast(a, len, bin);
    FloorAtLeast(a, len, bin + 1);
  }

  /** Every row of the viewport falls in the shown range of exactly one bin. */
  lemma EachRowIsShownOnce(view: Viewport, binCount: nat, row: nat)
    requires 1 <= binCount <= view.Len() && view.startRow <= row < view.endRow
    ensures ShownBin(view, binCount, row) < binCount
    ensures forall b :: 0 <= b < binCount ==>
              (InRange(row, BinRange(view, view.Len(), binCount, b)) <==> b == ShownBin(view, binCount, row))
  {
    var len, relative := view.Len(), row - view.startRow;
    ShownBinExists(len, binCount, relative);
    forall b | 0 <= b < binCount
      ensures InRange(row, BinRange(view, len, binCount, b)) <==> b == ShownBin(view, binCount, row)
    {
      RangeIsCut(view, binCount, b);
      CutsAround(len, binCount, relative, b);
    }
  }

  // ---------- The counted bins ----------

  lemma CountedUnclamped(view: Viewport, binCount: nat, row: nat)
    requires 1 <= binCount && view.startRow <= row < view.endRow
    ensures RowToBin(view, view.Len(), binCount, row) == (row - view.startRow) * binCount / view.Len() < binCount
  {
    var len, relative := view.Len(), row - view.startRow;
    assert relative * binCount < binCount * len by {
      assert relative * binCount < len * binCount;
    }
    FloorAtLeast(relative * binCount, len, binCount);
  }

  /** Counting never moves backwards. */
  lemma CountingIsMonotone(view: Viewport, binCount: nat, row: nat, later: nat)
    requires 1 <= binCount && row <= later
    ensures RowToBin(view, view.Len(), binCount, row) <= RowToBin(view, view.Len(), binCount, later) < binCount
  {
    var a := if row < view.startRow then 0 else row - view.startRow;
    var b := if later < view.startRow then 0 else later - view.startRow;
    ScaledMonotone(a, b, binCount, AtLeast(view.Len(), 1));
  }

  lemma ScaledMonotone(a: nat, b: nat, factor: nat, unit: nat)
    requires unit > 0 && a <= b
    ensures a * factor / unit <= b * factor / unit
  {
    TimesMonotone(a, b, factor);
    FloorMonotone(a * factor, b * factor, unit);
  }

  /** The first row counted in a bin. */
  function FirstCounted(view: Viewport, binCount: nat, bin: nat): nat
    requires 1 <= binCount
  {
    view.startRow + (bin * view.Len() + (binCount - 1)) / binCount
  }

  /** No bin is left without a row. */
  lemma EveryBinCounts(view: Viewport, binCount: nat, bin: nat)
    requires 1 <= binCount <= view.Len() && bin < binCount
    ensures var row := FirstCounted(view, binCount, bin);
            view.startRow <= row < view.endRow && RowToBin(view, view.Len(), binCount, row) == bin
  {
    var len := view.Len();
    var r := (bin * len + (binCount - 1)) / binCount;
    CeilingBounds(bin * len, binCount);
    ReverseScale(r * binCount, bin * len, r, bin, len, binCount);
    CountedUnclamped(view, binCount, view.startRow + r);
  }

  lemma ReverseScale(scaled: nat, start: nat, r: nat, bin: nat, len: nat, binCount: nat)
    requires scaled == r * binCount && start == bin * len
    requires start <= scaled < start + binCount && bin < binCount <= len
    ensures r < len && scaled / len == bin
  {
    assert (bin + 1) * len == start + len;
    TimesMonotone(bin + 1, binCount, len);
    if len <= r {
      TimesMonotone(len, r, binCount);
      assert false;
    }
    FloorIs(scaled, len, bin);
  }

  lemma CeilingBounds(a: nat, unit: nat)
    requires unit > 0
    ensures a <= (a + (unit - 1)) / unit * unit < a + unit
  {
    var d := (a + (unit - 1)) / unit;
    assert d * unit <= a + (unit - 1) < d * unit + unit;
  }

  /**
    A row is counted in the bin it is shown in, or in the one before; which of the two is decided by
    the remainder of its scaled position.
    */
  lemma CountedWhereShown(view: Viewport, binCount: nat, row: nat)
    requires 1 <= binCount <= view.Len() && view.startRow <= row < view.endRow
    ensures var len := view.Len();
            var counted, shown := RowToBin(view, len, binCount, row), ShownBin(view, binCount, row);
            && (counted == shown || counted == shown - 1)
            && (counted == shown <==> (row - view.startRow) * binCount % len + binCount <= len)
  {
    var len := view.Len();
    var a := (row - view.startRow) * binCount;
    CountedUnclamped(view, binCount, row);
    CeilStep(a, binCount, len);
  }

  lemma CeilStep(a: nat, more: nat, unit: nat)
    requires 1 <= more <= unit
    ensures var shown := (a + (more - 1)) / unit;
            && (a / unit == shown || a / unit == shown - 1)
            && (a / unit == shown <==> a % unit + more <= unit)
  {
    var q, r := a / unit, a % unit;
    assert a == q * unit + r;
    if r + more <= unit {
      assert (q + 1) * unit == q * unit + unit;
      FloorIs(a + (more - 1), unit, q);
    } else {
      assert (q + 1) * unit == q * unit + unit;
      assert (q + 2) * unit == q * unit + 2 * unit;
      FloorIs(a + (more - 1), unit, q + 1);
    }
  }

  /** Rows are counted where they are shown throughout the viewport exactly when the bins are equally wide. */
  lemma PartitionsAgree(view: Viewport, binCount: nat)
    requires 1 <= binCount <= view.Len()
    ensures (forall row :: view.startRow <= row < view.endRow ==>
              RowToBin(view, view.Len(), binCount, row) == ShownBin(view, binCount, row))
       <==> view.Len() % binCount == 0
  {
    var len := view.Len();
    if len % binCount == 0 {
      forall row | view.startRow <= row < view.endRow
        ensures RowToBin(view, len, binCount, row) == ShownBin(view, binCount, row)
      {
        CountedWhereShown(view, binCount, row);
        EvenRemainder(row - view.startRow, binCount, len);
      }
    } else {
      var row := view.startRow + len / binCount;
      UnevenRemainder(binCount, len);
      CountedWhereShown(view, binCount, row);
      assert RowToBin(view, len, binCount, row) != ShownBin(view, binCount, row);
    }
  }

  lemma EvenRemainder(relative: nat, binCount: nat, len: nat)
    requires 1 <= binCount <= len && len % binCount == 0
    ensures relative * binCount % len + binCount <= len
  {
    var width := len / binCount;
    var q, r := relative / width, relative % width;
    ScaledPosition(relative, q, width, r, binCount, len);
    TimesMonotone(r + 1, width, binCount);
    RemainderIs(relative * binCount, len, q, r * binCount);
  }

  lemma ScaledPosition(relative: nat, q: nat, width: nat, r: nat, binCount: nat, len: nat)
    requires relative == q * width + r && len == width * binCount
    ensures relative * binCount == q * len + r * binCount
    ensures (r + 1) * binCount == r * binCount + binCount
  {
    assert q * width * binCount == q * (width * binCount);
  }

  lemma RemainderIs(a: nat, unit: nat, q: nat, r: nat)
    requires unit > 0 && a == q * unit + r && r < unit
    ensures a % unit == r
  {
    assert (q + 1) * unit == q * unit + unit;
    FloorIs(a, unit, q);
  }

  lemma UnevenRemainder(binCount: nat, len: nat)
    requires 1 <= binCount <= len && len % binCount != 0
    ensures len / binCount < len && len / binCount * binCount % len + binCount > len
  {
    var r := len / binCount;
    assert r * binCount + len % binCount == len;
    assert r <= r * binCount;
    FloorIs(r * binCount, len, 0);
  }
}
