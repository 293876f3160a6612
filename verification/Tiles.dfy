/** Tile aggregates: running totals over consecutive trace rows, and what they total. */
module Tiles {
  import opened RealMath

  const U32_MAX: nat := 0xFFFF_FFFF

  /** The parts of a trace row kept in memory for every row. */
  datatype CompactRow = CompactRow(
    byte: nat, mixBits: real, oracleBits: real, regretBits: real, rootWeightEntropyBits: real,
    rootTop12Margin: real, bestGapBits: real, oracleBestNodePos: nat)

  /** A whole trace row, with the per-node columns that are not kept. */
  datatype TraceRow = TraceRow(
    compact: CompactRow, nodeBits: seq<real>, nodeLocalWeights: seq<real>, nodeEffectiveWeights: seq<real>)

  /** A running maximum; the source starts it at minus infinity. */
  datatype Peak = MinusInfinity | Peak(value: real)
  {
    function Raise(x: real): Peak
    {
      if this.MinusInfinity? || value < x then Peak(x) else this
    }
  }

  datatype Tile = Tile(
    startRow: nat, endRow: nat, count: nat,
    mixBitsSum: real, mixBitsMax: Peak, oracleBitsSum: real, oracleBitsMax: Peak,
    regretBitsSum: real, regretBitsMax: Peak, rootWeightEntropySum: real, rootTop12MarginSum: real,
    bestGapBitsSum: real, ensembleAdvantageCount: nat,
    nodeBitsSum: seq<real>, nodeLocalWeightSum: seq<real>, nodeEffectiveWeightSum: seq<real>,
    nodeOracleWinCount: seq<nat>)

  function Empty(startRow: nat, nodeCount: nat): Tile
  {
    Tile(startRow, startRow, 0, 0.0, MinusInfinity, 0.0, MinusInfinity, 0.0, MinusInfinity, 0.0, 0.0, 0.0, 0,
         Zeros(nodeCount), Zeros(nodeCount), Zeros(nodeCount), seq(nodeCount, _ => 0))
  }

  /** Pairwise sum; columns the row does not have leave the total as it is. */
  function ZipAdd(totals: seq<real>, values: seq<real>): (r: seq<real>)
    ensures |r| == |totals|
    ensures forall i :: 0 <= i < |totals| ==> r[i] == if i < |values| then totals[i] + values[i] else totals[i]
  {
    seq(|totals|, i requires 0 <= i < |totals| => if i < |values| then totals[i] + values[i] else totals[i])
  }

  /** A win count that stops at the largest 32-bit value. */
  function CountWin(wins: seq<nat>, pos: nat): (r: seq<nat>)
    ensures |r| == |wins|
    ensures forall i :: 0 <= i < |wins| ==>
              r[i] == if i == pos && wins[i] != U32_MAX then wins[i] + 1 else wins[i]
  {
    if pos < |wins| && wins[pos] != U32_MAX then wins[pos := wins[pos] + 1] else wins
  }

  predicate EnsembleAdvantage(row: CompactRow)
  {
    row.mixBits + 0.000001 < row.oracleBits
  }

  function Add(t: Tile, row: nat, r: TraceRow): Tile
  {
    var c := r.compact;
    Tile(t.startRow, row + 1, t.count + 1,
         t.mixBitsSum + c.mixBits, t.mixBitsMax.Raise(c.mixBits),
         t.oracleBitsSum + c.oracleBits, t.oracleBitsMax.Raise(c.oracleBits),
         t.regretBitsSum + c.regretBits, t.regretBitsMax.Raise(c.regretBits),
         t.rootWeightEntropySum + c.rootWeightEntropyBits, t.rootTop12MarginSum + c.rootTop12Margin,
         t.bestGapBitsSum + c.bestGapBits, t.ensembleAdvantageCount + if EnsembleAdvantage(c) then 1 else 0,
         ZipAdd(t.nodeBitsSum, r.nodeBits), ZipAdd(t.nodeLocalWeightSum, r.nodeLocalWeights),
         ZipAdd(t.nodeEffectiveWeightSum, r.nodeEffectiveWeights),
         CountWin(t.nodeOracleWinCount, c.oracleBestNodePos))
  }

  /** The tile of a block of rows, the first of which is row `startRow`. */
  function TileOf(startRow: nat, rows: seq<TraceRow>, nodeCount: nat): Tile
  {
    if rows == [] then Empty(startRow, nodeCount)
    else
      var last := |rows| - 1;
      Add(TileOf(startRow, rows[..last], nodeCount), startRow + last, rows[last])
  }

  class TileAggregate {
    var startRow: nat
    var endRow: nat
    var count: nat
    var mixBitsSum: real
    var mixBitsMax: Peak
    var oracleBitsSum: real
    var oracleBitsMax: Peak
    var regretBitsSum: real
    var regretBitsMax: Peak
    var rootWeightEntropySum: real
    var rootTop12MarginSum: real
    var bestGapBitsSum: real
    var ensembleAdvantageCount: nat
    var nodeBitsSum: seq<real>
    var nodeLocalWeightSum: seq<real>
    var nodeEffectiveWeightSum: seq<real>
    var nodeOracleWinCount: seq<nat>

    function Value(): Tile
      reads this
    {
      Tile(startRow, endRow, count, mixBitsSum, mixBitsMax, oracleBitsSum, oracleBitsMax, regretBitsSum, regretBitsMax,
           rootWeightEntropySum, rootTop12MarginSum, bestGapBitsSum, ensembleAdvantageCount,
           nodeBitsSum, nodeLocalWeightSum, nodeEffectiveWeightSum, nodeOracleWinCount)
    }

    constructor (startRow: nat, nodeCount: nat)
      ensures Value() == Empty(startRow, nodeCount)
    {
      this.startRow, this.endRow, this.count := startRow, startRow, 0;
      mixBitsSum, oracleBitsSum, regretBitsSum := 0.0, 0.0, 0.0;
      mixBitsMax, oracleBitsMax, regretBitsMax := MinusInfinity, MinusInfinity, MinusInfinity;
      rootWeightEntropySum, rootTop12MarginSum, bestGapBitsSum := 0.0, 0.0, 0.0;
      ensembleAdvantageCount := 0;
      nodeBitsSum, nodeLocalWeightSum, nodeEffectiveWeightSum := Zeros(nodeCount), Zeros(nodeCount), Zeros(nodeCount);
      nodeOracleWinCount := seq(nodeCount, _ => 0);
    }

    method Push(row: nat, compact: CompactRow, nodeBits: seq<real>, nodeLocalWeights: seq<real>,
                nodeEffectiveWeights: seq<real>)
      modifies this
      ensures Value() == Add(old(Value()), row, TraceRow(compact, nodeBits, nodeLocalWeights, nodeEffectiveWeights))
    {
      hide ZipAdd, CountWin, EnsembleAdvantage, Peak.Raise;
      PushLosses(compact);
      PushExtent(row, compact);
      PushColumns(compact.oracleBestNodePos, nodeBits, nodeLocalWeights, nodeEffectiveWeights);
    }

    /** The sums and maxima of the three losses. */
    method PushLosses(compact: CompactRow)
      modifies this`mixBitsSum, this`mixBitsMax, this`oracleBitsSum, this`oracleBitsMax, this`regretBitsSum,
               this`regretBitsMax
      ensures mixBitsSum == old(mixBitsSum) + compact.mixBits && mixBitsMax == old(mixBitsMax).Raise(compact.mixBits)
      ensures oracleBitsSum == old(oracleBitsSum) + compact.oracleBits
      ensures oracleBitsMax == old(oracleBitsMax).Raise(compact.oracleBits)
      ensures regretBitsSum == old(regretBitsSum) + compact.regretBits
      ensures regretBitsMax == old(regretBitsMax).Raise(compact.regretBits)
    {
      mixBitsSum := mixBitsSum + compact.mixBits;
      mixBitsMax := mixBitsMax.Raise(compact.mixBits);
      oracleBitsSum := oracleBitsSum + compact.oracleBits;
      oracleBitsMax := oracleBitsMax.Raise(compact.oracleBits);
      regretBitsSum := regretBitsSum + compact.regretBits;
      regretBitsMax := regretBitsMax.Raise(compact.regretBits);
    }

    /** The row range, the row count, and the sums that have no maximum. */
    method PushExtent(row: nat, compact: CompactRow)
      modifies this`endRow, this`count, this`rootWeightEntropySum, this`rootTop12MarginSum, this`bestGapBitsSum,
               this`ensembleAdvantageCount
      ensures endRow == row + 1 && count == old(count) + 1
      ensures rootWeightEntropySum == old(rootWeightEntropySum) + compact.rootWeightEntropyBits
      ensures rootTop12MarginSum == old(rootTop12MarginSum) + compact.rootTop12Margin
      ensures bestGapBitsSum == old(bestGapBitsSum) + compact.bestGapBits
      ensures ensembleAdvantageCount == old(ensembleAdvantageCount) + if EnsembleAdvantage(compact) then 1 else 0
    {
      endRow := row + 1;
      count := count + 1;
      rootWeightEntropySum := rootWeightEntropySum + compact.rootWeightEntropyBits;
      rootTop12MarginSum := rootTop12MarginSum + compact.rootTop12Margin;
      bestGapBitsSum := bestGapBitsSum + compact.bestGapBits;
      if EnsembleAdvantage(compact) {
        ensembleAdvantageCount := ensembleAdvantageCount + 1;
      }
    }

    /** The per-node part of `Push`. */
    method PushColumns(best: nat, nodeBits: seq<real>, nodeLocalWeights: seq<real>, nodeEffectiveWeights: seq<real>)
      modifies this`nodeBitsSum, this`nodeLocalWeightSum, this`nodeEffectiveWeightSum, this`nodeOracleWinCount
      ensures nodeBitsSum == ZipAdd(old(nodeBitsSum), nodeBits)
      ensures nodeLocalWeightSum == ZipAdd(old(nodeLocalWeightSum), nodeLocalWeights)
      ensures nodeEffectiveWeightSum == ZipAdd(old(nodeEffectiveWeightSum), nodeEffectiveWeights)
      ensures nodeOracleWinCount == CountWin(old(nodeOracleWinCount), best)
    {
      hide ZipAdd;
      nodeBitsSum := AddColumns(nodeBitsSum, nodeBits);
      nodeLocalWeightSum := AddColumns(nodeLocalWeightSum, nodeLocalWeights);
      nodeEffectiveWeightSum := AddColumns(nodeEffectiveWeightSum, nodeEffectiveWeights);
      if best < |nodeOracleWinCount| && nodeOracleWinCount[best] != U32_MAX {
        nodeOracleWinCount := nodeOracleWinCount[best := nodeOracleWinCount[best] + 1];
      }
    }
  }

  method AddColumns(totals: seq<real>, values: seq<real>) returns (r: seq<real>)
    ensures r == ZipAdd(totals, values)
  {
    r := totals;
    var n := if |totals| < |values| then |totals| else |values|;
    for i := 0 to n
      invariant |r| == |totals|
      invariant forall j :: 0 <= j < |totals| ==> r[j] == if j < i then totals[j] + values[j] else totals[j]
    {
      r := r[i := r[i] + values[i]];
    }
  }

  // ---------- What a tile totals ----------

  /** The quantities a tile accumulates. */
  datatype Measure =
    | MixBits | OracleBits | RegretBits | WeightEntropy | Margin | BestGap | Advantage
    | NodeBits(node: nat) | NodeLocalWeight(node: nat) | NodeEffectiveWeight(node: nat) | NodeWins(node: nat)
  {
    predicate Within(nodeCount: nat)
    {
      (NodeBits? || NodeLocalWeight? || NodeEffectiveWeight? || NodeWins?) ==> node < nodeCount
    }
  }

  function Column(values: seq<real>, i: nat): real
  {
    if i < |values| then values[i] else 0.0
  }

  function Indicator(b: bool): real
  {
    if b then 1.0 else 0.0
  }

  /** One row's contribution. */
  function RowValue(r: TraceRow, m: Measure): real
  {
    match m
    case MixBits => r.compact.mixBits
    case OracleBits => r.compact.oracleBits
    case RegretBits => r.compact.regretBits
    case WeightEntropy => r.compact.rootWeightEntropyBits
    case Margin => r.compact.rootTop12Margin
    case BestGap => r.compact.bestGapBits
    case Advantage => Indicator(EnsembleAdvantage(r.compact))
    case NodeBits(i) => Column(r.nodeBits, i)
    case NodeLocalWeight(i) => Column(r.nodeLocalWeights, i)
    case NodeEffectiveWeight(i) => Column(r.nodeEffectiveWeights, i)
    case NodeWins(i) => Indicator(r.compact.oracleBestNodePos == i)
  }

  /** The tile's figure. */
  function TileValue(t: Tile, m: Measure): real
    requires m.Within(|t.nodeBitsSum|) && m.Within(|t.nodeLocalWeightSum|)
    requires m.Within(|t.nodeEffectiveWeightSum|) && m.Within(|t.nodeOracleWinCount|)
  {
    match m
    case MixBits => t.mixBitsSum
    case OracleBits => t.oracleBitsSum
    case RegretBits => t.regretBitsSum
    case WeightEntropy => t.rootWeightEntropySum
    case Margin => t.rootTop12MarginSum
    case BestGap => t.bestGapBitsSum
    case Advantage => t.ensembleAdvantageCount as real
    case NodeBits(i) => t.nodeBitsSum[i]
    case NodeLocalWeight(i) => t.nodeLocalWeightSum[i]
    case NodeEffectiveWeight(i) => t.nodeEffectiveWeightSum[i]
    case NodeWins(i) => t.nodeOracleWinCount[i] as real
  }

  /** The plain sum over rows. */
  function Total(rows: seq<TraceRow>, m: Measure): real
  {
    if rows == [] then 0.0 else Total(rows[..|rows| - 1], m) + RowValue(rows[|rows| - 1], m)
  }

  ghost predicate Sized(t: Tile, nodeCount: nat)
  {
    && |t.nodeBitsSum| == |t.nodeLocalWeightSum| == |t.nodeEffectiveWeightSum| == |t.nodeOracleWinCount| == nodeCount
  }

  lemma {:induction false} TileShape(startRow: nat, rows: seq<TraceRow>, nodeCount: nat)
    ensures var t := TileOf(startRow, rows, nodeCount);
            && Sized(t, nodeCount)
            && t.startRow == startRow && t.endRow == startRow + |rows| && t.count == |rows|
            && forall i :: 0 <= i < nodeCount ==> t.nodeOracleWinCount[i] <= |rows|
  {
    if rows != [] {
      TileShape(startRow, rows[..|rows| - 1], nodeCount);
    }
  }

  /** Adding a row adds its contribution, unless a win count is already at its largest value. */
  lemma AddTotals(t: Tile, row: nat, r: TraceRow, nodeCount: nat, m: Measure)
    requires Sized(t, nodeCount) && m.Within(nodeCount)
    requires m.NodeWins? ==> t.nodeOracleWinCount[m.node] != U32_MAX
    ensures Sized(Add(t, row, r), nodeCount)
    ensures TileValue(Add(t, row, r), m) == TileValue(t, m) + RowValue(r, m)
  {
  }

  /** Every figure of a tile is the plain sum over its rows; win counts while they fit in 32 bits. */
  lemma {:induction false} TileTotals(startRow: nat, rows: seq<TraceRow>, nodeCount: nat, m: Measure)
    requires m.Within(nodeCount) && (m.NodeWins? ==> |rows| <= U32_MAX)
    ensures Sized(TileOf(startRow, rows, nodeCount), nodeCount)
    ensures TileValue(TileOf(startRow, rows, nodeCount), m) == Total(rows, m)
  {
    if rows != [] {
      hide Add, TileValue, RowValue;
      var last := |rows| - 1;
      TileShape(startRow, rows[..last], nodeCount);
      TileTotals(startRow, rows[..last], nodeCount, m);
      AddTotals(TileOf(startRow, rows[..last], nodeCount), startRow + last, rows[last], nodeCount, m);
    }
  }

  /** The rows whose oracle loss exceeds the mixture's by more than a millionth of a bit. */
  ghost function RowsAhead(rows: seq<TraceRow>): (r: set<nat>)
    ensures forall i :: i in r ==> i < |rows|
  {
    set i: nat | i < |rows| && rows[i].compact.oracleBits - rows[i].compact.mixBits > 0.000001
  }

  /** A tile counts exactly those rows. */
  lemma {:induction false} AdvantageCounts(startRow: nat, rows: seq<TraceRow>, nodeCount: nat)
    ensures TileOf(startRow, rows, nodeCount).ensembleAdvantageCount == |RowsAhead(rows)|
  {
    if rows == [] {
      assert RowsAhead(rows) == {};
    } else {
      var last := |rows| - 1;
      AdvantageCounts(startRow, rows[..last], nodeCount);
      var before := RowsAhead(rows[..last]);
      assert last !in before;
      assert RowsAhead(rows) == if EnsembleAdvantage(rows[last].compact) then before + {last} else before;
    }
  }

  function TilePeak(t: Tile, m: Measure): Peak
    requires m.MixBits? || m.OracleBits? || m.RegretBits?
  {
    if m.MixBits? then t.mixBitsMax else if m.OracleBits? then t.oracleBitsMax else t.regretBitsMax
  }

  /** A tile's maxima are the largest values among its rows; an empty tile has none. */
  lemma {:induction false} TilePeaks(startRow: nat, rows: seq<TraceRow>, nodeCount: nat, m: Measure)
    requires m.MixBits? || m.OracleBits? || m.RegretBits?
    ensures var p := TilePeak(TileOf(startRow, rows, nodeCount), m);
            && (p.MinusInfinity? <==> rows == [])
            && (p.Peak? ==>
                  && (forall r <- rows :: RowValue(r, m) <= p.value)
                  && (exists r <- rows :: RowValue(r, m) == p.value))
  {
    if rows != [] {
      var last := |rows| - 1;
      TilePeaks(startRow, rows[..last], nodeCount, m);
      var t := TileOf(startRow, rows[..last], nodeCount);
      var before, now := TilePeak(t, m), TilePeak(TileOf(startRow, rows, nodeCount), m);
      assert now == before.Raise(RowValue(rows[last], m));
      forall r | r in rows ensures RowValue(r, m) <= now.value {
        assert r in rows[..last] || r == rows[last];
      }
      if now == before {
        var r :| r in rows[..last] && RowValue(r, m) == before.value;
        assert r in rows;
      } else {
        assert RowValue(rows[last], m) == now.value && rows[last] in rows;
      }
    }
  }

  lemma {:induction false} TotalOfConcat(a: seq<TraceRow>, b: seq<TraceRow>, m: Measure)
    ensures Total(a + b, m) == Total(a, m) + Total(b, m)
  {
    if b == [] {
      assert a + b == a;
    } else {
      var last := |b| - 1;
      assert (a + b)[..|a + b| - 1] == a + b[..last];
      TotalOfConcat(a, b[..last], m);
    }
  }
}
