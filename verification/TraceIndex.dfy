/** Loading a trace in one pass: row offsets, kept rows and tile aggregates, against plain passes over its lines. */
module TraceIndex {
  import opened Tsv
  import opened TraceLines
  import opened Tiles
  import opened Bins

  const DEFAULT_COARSE_ROW_TARGET: nat := 1024

  /** Rows per tile. */
  function CoarseRowsForLen(rowCount: nat): (r: nat)
    ensures r >= DEFAULT_COARSE_ROW_TARGET
    ensures rowCount <= DEFAULT_CHART_BINS * 4 * r
    ensures r > DEFAULT_COARSE_ROW_TARGET ==> DEFAULT_CHART_BINS * 4 * (r - 1) < rowCount
  {
    var perTile := DEFAULT_CHART_BINS * 4;
    AtLeast(AtLeast((rowCount + (perTile - 1)) / perTile, 1), DEFAULT_COARSE_ROW_TARGET)
  }

  /** How a row's fields are parsed, given its row number; it fails on a missing or malformed column. */
  type RowParser = Visitor<TraceRow>

  /** How a header determines the row parser. */
  type SchemaBuilder = seq<string> -> Outcome<RowParser>

  /** All rows of the given lines, or the first failure. */
  function ParseAll(lines: seq<string>, parse: RowParser): (r: Outcome<seq<TraceRow>>)
    ensures r.Ok? ==> |r.value| == |lines|
  {
    VisitAll(lines, 0, parse)
  }

  function Compacts(rows: seq<TraceRow>): (r: seq<CompactRow>)
    ensures |r| == |rows| && forall i :: 0 <= i < |rows| ==> r[i] == rows[i].compact
  {
    seq(|rows|, i requires 0 <= i < |rows| => rows[i].compact)
  }

  function Bytes(rows: seq<TraceRow>): (r: seq<nat>)
    ensures |r| == |rows| && forall i :: 0 <= i < |rows| ==> r[i] == rows[i].compact.byte
  {
    seq(|rows|, i requires 0 <= i < |rows| => rows[i].compact.byte)
  }

  // ---------- Tiles ----------

  /** The first row of tile `k`, and the row after its last one. */
  function TileStart(k: nat, coarse: nat): nat
  {
    k * coarse
  }

  function TileEnd(k: nat, coarse: nat, rowCount: nat): nat
  {
    AtMost(TileStart(k + 1, coarse), rowCount)
  }

  function TileCount(coarse: nat, rowCount: nat): nat
    requires coarse > 0
  {
    (rowCount + (coarse - 1)) / coarse
  }

  lemma TileBounds(k: nat, coarse: nat, rowCount: nat)
    requires coarse > 0
    ensures k < TileCount(coarse, rowCount) <==> TileStart(k, coarse) < rowCount
    ensures TileStart(k + 1, coarse) == TileStart(k, coarse) + coarse
  {
    assert (k + 1) * coarse == k * coarse + coarse;
    FloorAtLeast(rowCount + (coarse - 1), coarse, k + 1);
  }

  /** The rows cut into blocks of `coarse`, the last one possibly shorter, and each block aggregated. */
  ghost predicate Tiled(tiles: seq<Tile>, rows: seq<TraceRow>, coarse: nat, nodeCount: nat)
    requires coarse > 0
  {
    && |tiles| == TileCount(coarse, |rows|)
    && forall k :: 0 <= k < |tiles| ==>
         TileStart(k, coarse) <= TileEnd(k, coarse, |rows|) <= |rows|
         && tiles[k] == TileOf(TileStart(k, coarse), rows[TileStart(k, coarse)..TileEnd(k, coarse, |rows|)], nodeCount)
  }

  /** Rows read so far: the finished tiles and the one being filled. */
  ghost predicate Filling(tiles: seq<Tile>, current: Tile, rows: seq<TraceRow>, coarse: nat, nodeCount: nat)
    requires coarse > 0
  {
    && TileStart(|tiles|, coarse) <= |rows| < TileStart(|tiles|, coarse) + coarse
    && current == TileOf(TileStart(|tiles|, coarse), rows[TileStart(|tiles|, coarse)..], nodeCount)
    && EarlierBlocks(tiles, rows, coarse, nodeCount)
  }

  ghost predicate EarlierBlocks(tiles: seq<Tile>, rows: seq<TraceRow>, coarse: nat, nodeCount: nat)
  {
    forall k :: 0 <= k < |tiles| ==>
      TileStart(k, coarse) + coarse <= |rows|
      && tiles[k] == TileOf(TileStart(k, coarse), rows[TileStart(k, coarse)..TileStart(k, coarse) + coarse], nodeCount)
  }

  lemma AddRow(startRow: nat, block: seq<TraceRow>, row: TraceRow, nodeCount: nat)
    ensures TileOf(startRow, block + [row], nodeCount)
         == Add(TileOf(startRow, block, nodeCount), startRow + |block|, row)
  {
    assert (block + [row])[..|block|] == block;
  }

  lemma FillMore(tiles: seq<Tile>, current: Tile, rows: seq<TraceRow>, row: TraceRow, coarse: nat, nodeCount: nat)
    requires coarse > 0 && Filling(tiles, current, rows, coarse, nodeCount)
    ensures var next := Add(current, |rows|, row);
            && next.count == |rows| + 1 - TileStart(|tiles|, coarse)
            && current.count == next.count - 1
            && if next.count < coarse then Filling(tiles, next, rows + [row], coarse, nodeCount)
               else Filling(tiles + [next], Empty(|rows| + 1, nodeCount), rows + [row], coarse, nodeCount)
  {
    hide TileStart, Add, TileOf;
    var start := TileStart(|tiles|, coarse);
    var more := rows + [row];
    var next := Add(current, |rows|, row);
    assert more[start..] == rows[start..] + [row];
    AddRow(start, rows[start..], row, nodeCount);
    TileShape(start, rows[start..], nodeCount);
    TileShape(start, more[start..], nodeCount);
    EarlierBlocksStay(tiles, current, rows, row, coarse, nodeCount);
    if next.count >= coarse {
      FillNext(tiles, next, more, coarse, nodeCount);
    }
  }

  lemma FillNext(tiles: seq<Tile>, next: Tile, rows: seq<TraceRow>, coarse: nat, nodeCount: nat)
    requires coarse > 0 && |rows| == TileStart(|tiles|, coarse) + coarse
    requires next == TileOf(TileStart(|tiles|, coarse), rows[TileStart(|tiles|, coarse)..], nodeCount)
    requires EarlierBlocks(tiles, rows, coarse, nodeCount)
    ensures Filling(tiles + [next], Empty(|rows|, nodeCount), rows, coarse, nodeCount)
  {
    hide TileStart, TileOf, Empty;
    var start := TileStart(|tiles|, coarse);
    TileBounds(|tiles|, coarse, 0);
    assert rows[start..] == rows[start..start + coarse];
    assert rows[start + coarse..] == [];
    TileOfNothing(start + coarse, nodeCount);
  }

  lemma TileOfNothing(startRow: nat, nodeCount: nat)
    ensures TileOf(startRow, [], nodeCount) == Empty(startRow, nodeCount)
  {
  }

  lemma EarlierBlocksStay(tiles: seq<Tile>, current: Tile, rows: seq<TraceRow>, row: TraceRow, coarse: nat,
                          nodeCount: nat)
    requires coarse > 0 && Filling(tiles, current, rows, coarse, nodeCount)
    ensures EarlierBlocks(tiles, rows + [row], coarse, nodeCount)
  {
    hide TileStart, TileOf;
    forall k | 0 <= k < |tiles|
      ensures TileStart(k, coarse) + coarse <= |rows|
        && (rows + [row])[TileStart(k, coarse)..TileStart(k, coarse) + coarse]
        == rows[TileStart(k, coarse)..TileStart(k, coarse) + coarse]
    {
    }
  }

  lemma FillDone(tiles: seq<Tile>, current: Tile, rows: seq<TraceRow>, coarse: nat, nodeCount: nat)
    requires coarse > 0 && Filling(tiles, current, rows, coarse, nodeCount)
    ensures Tiled(if current.count > 0 then tiles + [current] else tiles, rows, coarse, nodeCount)
  {
    hide TileStart, TileCount, TileOf;
    var n := |tiles|;
    var start := TileStart(n, coarse);
    TileShape(start, rows[start..], nodeCount);
    assert rows[start..] == rows[start..|rows|];
    forall k | 0 <= k <= n
      ensures TileEnd(k, coarse, |rows|) == if k < n then TileStart(k, coarse) + coarse else |rows|
    {
      TileBounds(k, coarse, |rows|);
    }
    TileBounds(n, coarse, |rows|);
    TileBounds(n + 1, coarse, |rows|);
    if n > 0 {
      TileBounds(n - 1, coarse, |rows|);
    }
  }

  datatype Loaded = Loaded(rowOffsets: seq<nat>, rows: seq<CompactRow>, bytes: seq<nat>, tiles: seq<Tile>)

  /** `load_trace`: one pass over the file. */
  method LoadTrace(file: string, nodeCount: nat, expectedRows: nat, buildSchema: SchemaBuilder)
    returns (result: Outcome<Loaded>)
    ensures file == "" ==> result.Err?
    ensures file != "" ==>
      var header := LineEnd(file, 0);
      match buildSchema(Split(file[..header]))
      case Err(message) => result == Err(message)
      case Ok(parse) =>
        match ParseAll(Lines(file, header), parse)
        case Err(message) => result == Err(message)
        case Ok(rows) =>
          && result.Ok?
          && result.value.rowOffsets == Offsets(file, header)
          && result.value.rows == Compacts(rows) && result.value.bytes == Bytes(rows)
          && Tiled(result.value.tiles, rows, CoarseRowsForLen(expectedRows), nodeCount)
  {
    hide Offsets, Lines, LineEnd, Split, ParseAll, Tiled, Filling, Add, TileOf, CoarseRowsForLen, TileStart;
    if file == "" {
      return Err("trace TSV was empty");
    }
    var header := LineEnd(file, 0);
    assert file[0..header] == file[..header];
    var headerFields := SplitTsvLine(file[..header]);
    var schema := buildSchema(headerFields);
    if schema.Err? {
      return Err(schema.message);
    }
    var parse := schema.value;
    var coarse := CoarseRowsForLen(expectedRows);
    var rowOffsets: seq<nat>, kept: seq<CompactRow>, bytes: seq<nat>, tiles: seq<Tile> := [], [], [], [];
    var offset: nat := header;
    var current := new TileAggregate(0, nodeCount);
    ghost var lines := Lines(file, header);
    ghost var rows: seq<TraceRow> := [];
    NothingRead(file, header, coarse, nodeCount, parse);
    while offset < |file|
      invariant offset <= |file|
      invariant |rows| <= |lines| && lines[|rows|..] == Lines(file, offset)
      invariant ParseAll(lines[..|rows|], parse) == Ok(rows)
      invariant rowOffsets + Offsets(file, offset) == Offsets(file, header)
      invariant kept == Compacts(rows) && bytes == Bytes(rows)
      invariant Filling(tiles, current.Value(), rows, coarse, nodeCount)
      invariant fresh(current)
      decreases |file| - offset
    {
      var next := LineEnd(file, offset);
      var line := file[offset..next];
      var row := |kept|;
      NextLine(file, offset, lines, row);
      NextOffset(file, offset);
      rowOffsets := rowOffsets + [offset];
      offset := next;
      var fields := SplitTsvLine(line);
      var parsed := parse(fields, row);
      ParseNext(lines, row, parse, rows);
      if parsed.Err? {
        return Err(parsed.message);
      }
      var traceRow := parsed.value;
      kept := kept + [traceRow.compact];
      bytes := bytes + [traceRow.compact.byte];
      tiles, current := FillTile(tiles, current, row, traceRow, coarse, nodeCount, rows);
      rows := rows + [traceRow];
    }
    NothingLeft(file, offset, lines, |rows|);
    FillDone(tiles, current.Value(), rows, coarse, nodeCount);
    if current.count > 0 {
      tiles := tiles + [current.Value()];
    }
    return Ok(Loaded(rowOffsets, kept, bytes, tiles));
  }

  /** One more row goes into the open tile; a full tile is set aside and the next one opened. */
  method FillTile(tiles: seq<Tile>, open: TileAggregate, row: nat, traceRow: TraceRow, coarse: nat, nodeCount: nat,
                  ghost rows: seq<TraceRow>)
    returns (finished: seq<Tile>, current: TileAggregate)
    requires coarse > 0 && row == |rows| && Filling(tiles, open.Value(), rows, coarse, nodeCount)
    modifies open
    ensures Filling(finished, current.Value(), rows + [traceRow], coarse, nodeCount)
    ensures current == open || fresh(current)
  {
    hide Filling, Add, TileOf, Empty;
    finished, current := tiles, open;
    FillMore(tiles, current.Value(), rows, traceRow, coarse, nodeCount);
    FillFromEmpty(tiles, current.Value(), rows, coarse, nodeCount);
    if current.count == 0 {
      current := new TileAggregate(row, nodeCount);
    }
    current.Push(row, traceRow.compact, traceRow.nodeBits, traceRow.nodeLocalWeights, traceRow.nodeEffectiveWeights);
    if coarse <= current.count {
      finished := finished + [current.Value()];
      current := new TileAggregate(row + 1, nodeCount);
    }
  }

  lemma NothingRead(file: string, header: nat, coarse: nat, nodeCount: nat, parse: RowParser)
    requires header <= |file| && coarse > 0
    ensures var lines := Lines(file, header);
            lines[0..] == lines && ParseAll(lines[..0], parse) == Ok([])
    ensures [] + Offsets(file, header) == Offsets(file, header)
    ensures Compacts([]) == [] && Bytes([]) == []
    ensures Filling([], Empty(0, nodeCount), [], coarse, nodeCount)
  {
    assert TileStart(0, coarse) == 0;
  }

  lemma NextOffset(file: string, at: nat)
    requires at < |file|
    ensures Offsets(file, at) == [at] + Offsets(file, LineEnd(file, at))
  {
  }

  lemma ParseNext(lines: seq<string>, k: nat, parse: RowParser, rows: seq<TraceRow>)
    requires k < |lines| && ParseAll(lines[..k], parse) == Ok(rows)
    ensures match parse(Split(lines[k]), k)
            case Err(message) => ParseAll(lines, parse) == Err(message)
            case Ok(row) => ParseAll(lines[..k + 1], parse) == Ok(rows + [row])
  {
    VisitNext(lines, k, 0, parse, rows);
  }

  lemma FillFromEmpty(tiles: seq<Tile>, current: Tile, rows: seq<TraceRow>, coarse: nat, nodeCount: nat)
    requires coarse > 0 && Filling(tiles, current, rows, coarse, nodeCount)
    ensures current.count == 0 ==> current == Empty(|rows|, nodeCount)
  {
    hide TileStart;
    TileShape(TileStart(|tiles|, coarse), rows[TileStart(|tiles|, coarse)..], nodeCount);
  }

  lemma NothingLeft(file: string, at: nat, lines: seq<string>, k: nat)
    requires at == |file| && k <= |lines| && lines[k..] == Lines(file, at)
    ensures lines[..k] == lines
    ensures Offsets(file, at) == []
  {
    assert |lines[k..]| == 0;
  }
}
