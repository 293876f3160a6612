/** Reading a trace file line by line, from the top or from a recorded offset. Each character stands for one byte. */
module TraceLines {
  import opened Tsv

  /** Where the line starting at `at` ends: just after its line feed, or at the end of the file. */
  function LineEnd(file: string, at: nat): (end: nat)
    requires at < |file|
    ensures at < end <= |file|
    ensures forall i :: at <= i < end - 1 ==> file[i] != '\n'
    ensures end < |file| ==> file[end - 1] == '\n'
    decreases |file| - at
  {
    if file[at] == '\n' || at + 1 == |file| then at + 1 else LineEnd(file, at + 1)
  }

  /** The lines read from position `at` to the end of the file. */
  function Lines(file: string, at: nat): seq<string>
    requires at <= |file|
    decreases |file| - at
  {
    if at == |file| then [] else [file[at..LineEnd(file, at)]] + Lines(file, LineEnd(file, at))
  }

  /** Where each of those lines starts. */
  function Offsets(file: string, at: nat): (r: seq<nat>)
    requires at <= |file|
    ensures forall i :: 0 <= i < |r| ==> at <= r[i] < |file|
    decreases |file| - at
  {
    if at == |file| then [] else [at] + Offsets(file, LineEnd(file, at))
  }

  function Concat(lines: seq<string>): string
  {
    if lines == [] then "" else lines[0] + Concat(lines[1..])
  }

  /** Reading loses nothing: the lines put back together are the file. */
  lemma {:induction false} LinesAreTheFile(file: string, at: nat)
    requires at <= |file|
    ensures Concat(Lines(file, at)) == file[at..]
    decreases |file| - at
  {
    if at < |file| {
      var end := LineEnd(file, at);
      LinesAreTheFile(file, end);
      assert file[at..] == file[at..end] + file[end..];
    }
  }

  lemma {:induction false} OneOffsetPerLine(file: string, at: nat)
    requires at <= |file|
    ensures |Offsets(file, at)| == |Lines(file, at)|
    decreases |file| - at
  {
    if at < |file| {
      OneOffsetPerLine(file, LineEnd(file, at));
    }
  }

  /** Reading from a recorded offset gives the lines that reading from the top gives from there on. */
  lemma {:induction false} OffsetResumes(file: string, at: nat, k: nat)
    requires at <= |file| && k < |Offsets(file, at)|
    ensures |Offsets(file, at)| == |Lines(file, at)|
    ensures Lines(file, Offsets(file, at)[k]) == Lines(file, at)[k..]
    ensures Offsets(file, Offsets(file, at)[k]) == Offsets(file, at)[k..]
    decreases k
  {
    OneOffsetPerLine(file, at);
    var end := LineEnd(file, at);
    if k > 0 {
      OffsetResumes(file, end, k - 1);
      assert Lines(file, at)[k..] == Lines(file, end)[k - 1..];
      assert Offsets(file, at)[k..] == Offsets(file, end)[k - 1..];
    }
  }

  // ---------- Handing lines to a callback ----------

  datatype Outcome<+T> = Ok(value: T) | Err(message: string)

  /** A callback: given a line's fields and its row number it returns a value, or fails. */
  type Visitor<!T> = (seq<string>, nat) -> Outcome<T>

  /** The callback's values for the given lines, the first of which is row `first`; or its first failure. */
  function VisitAll<T>(lines: seq<string>, first: nat, visit: Visitor<T>): (r: Outcome<seq<T>>)
    ensures r.Ok? ==> |r.value| == |lines|
  {
    if lines == [] then Ok([])
    else
      var last := |lines| - 1;
      match VisitAll(lines[..last], first, visit)
      case Err(message) => Err(message)
      case Ok(values) =>
        match visit(Split(lines[last]), first + last)
        case Err(message) => Err(message)
        case Ok(value) => Ok(values + [value])
  }

  lemma {:induction false} FailureStays<T>(lines: seq<string>, k: nat, first: nat, visit: Visitor<T>)
    requires k <= |lines| && VisitAll(lines[..k], first, visit).Err?
    ensures VisitAll(lines, first, visit) == VisitAll(lines[..k], first, visit)
    decreases |lines|
  {
    if k == |lines| {
      assert lines[..k] == lines;
    } else {
      hide Split;
      assert lines[..|lines| - 1][..k] == lines[..k];
      FailureStays(lines[..|lines| - 1], k, first, visit);
    }
  }

  lemma VisitNext<T>(lines: seq<string>, k: nat, first: nat, visit: Visitor<T>, values: seq<T>)
    requires k < |lines| && VisitAll(lines[..k], first, visit) == Ok(values)
    ensures match visit(Split(lines[k]), first + k)
            case Err(message) => VisitAll(lines, first, visit) == Err(message)
            case Ok(value) => VisitAll(lines[..k + 1], first, visit) == Ok(values + [value])
  {
    hide Split;
    assert lines[..k + 1][..k] == lines[..k];
    if visit(Split(lines[k]), first + k).Err? {
      FailureStays(lines, k + 1, first, visit);
    }
  }

  lemma {:induction false} VisitPrefix<T>(lines: seq<string>, visit: Visitor<T>, values: seq<T>, end: nat)
    requires VisitAll(lines, 0, visit) == Ok(values) && end <= |lines|
    ensures VisitAll(lines[..end], 0, visit) == Ok(values[..end])
    decreases |lines|
  {
    var last := |lines| - 1;
    if end == |lines| {
      assert lines[..end] == lines && values[..end] == values;
    } else {
      hide Split;
      VisitPrefix(lines[..last], visit, values[..last], end);
      assert lines[..last][..end] == lines[..end] && values[..last][..end] == values[..end];
    }
  }

  lemma {:induction false} VisitSuffix<T>(lines: seq<string>, visit: Visitor<T>, values: seq<T>, from: nat)
    requires VisitAll(lines, 0, visit) == Ok(values) && from <= |lines|
    ensures VisitAll(lines[from..], from, visit) == Ok(values[from..])
    decreases |lines|
  {
    var last := |lines| - 1;
    if from == |lines| {
      assert lines[from..] == [] && values[from..] == [];
    } else {
      hide Split;
      VisitSuffix(lines[..last], visit, values[..last], from);
      assert lines[..last][from..] == lines[from..][..last - from] && lines[from..][last - from] == lines[last];
      assert values[from..] == values[..last][from..] + [values[last]];
    }
  }

  /** Visiting some of the lines gives some of the values. */
  lemma VisitSlice<T>(lines: seq<string>, visit: Visitor<T>, values: seq<T>, from: nat, end: nat)
    requires VisitAll(lines, 0, visit) == Ok(values) && from <= end <= |lines|
    ensures VisitAll(lines[from..end], from, visit) == Ok(values[from..end])
  {
    hide VisitAll;
    VisitPrefix(lines, visit, values, end);
    VisitSuffix(lines[..end], visit, values[..end], from);
    assert lines[..end][from..] == lines[from..end] && values[..end][from..] == values[from..end];
  }

  lemma NoMoreLines(file: string, at: nat)
    requires at <= |file|
    ensures Lines(file, at) == [] <==> at == |file|
  {
  }

  lemma NextLine(file: string, at: nat, all: seq<string>, k: nat)
    requires at < |file| && k <= |all| && Lines(file, at) == all[k..]
    ensures k < |all| && all[k] == file[at..LineEnd(file, at)]
    ensures Lines(file, LineEnd(file, at)) == all[k + 1..]
  {
    assert Lines(file, at)[0] == all[k];
    assert Lines(file, at)[1..] == all[k + 1..];
  }

  datatype ScanResult<+T> = Scanned(values: seq<T>) | OffsetOutOfRange | UnexpectedEof | VisitFailed(message: string)

  /** What a scan for rows `startRow` to `endRow` returns when the file holds the rows `lines`. */
  function ScanOf<T>(lines: seq<string>, startRow: nat, endRow: nat, visit: Visitor<T>): ScanResult<T>
  {
    if endRow <= startRow then Scanned([])
    else if |lines| <= startRow then OffsetOutOfRange
    else
      var end := if endRow <= |lines| then endRow else |lines|;
      match VisitAll(lines[startRow..end], startRow, visit)
      case Err(message) => VisitFailed(message)
      case Ok(values) => if endRow <= |lines| then Scanned(values) else UnexpectedEof
  }

  /** Scanning a range of a file whose rows all pass gives that range of the values. */
  lemma ScanOfSound<T>(lines: seq<string>, visit: Visitor<T>, values: seq<T>, startRow: nat, endRow: nat)
    requires VisitAll(lines, 0, visit) == Ok(values) && startRow < endRow <= |values|
    ensures ScanOf(lines, startRow, endRow, visit) == Scanned(values[startRow..endRow])
  {
    VisitSlice(lines, visit, values, startRow, endRow);
  }

  /**
    `scan_trace_range`: seek to a recorded offset, read on, and hand each row's fields to the callback until
    it fails or the file ends. The callback sees what it would see if the file were read from the top.
    */
  method ScanTraceRange<T>(file: string, header: nat, rowOffsets: seq<nat>, startRow: nat, endRow: nat,
                           visit: Visitor<T>)
    returns (result: ScanResult<T>)
    requires header <= |file| && rowOffsets == Offsets(file, header)
    ensures result == ScanOf(Lines(file, header), startRow, endRow, visit)
  {
    hide Offsets, Lines, LineEnd, Split, VisitAll;
    ghost var all := Lines(file, header);
    OneOffsetPerLine(file, header);
    if endRow <= startRow {
      return Scanned([]);
    }
    if |rowOffsets| <= startRow {
      return OffsetOutOfRange;
    }
    var position: nat := rowOffsets[startRow];
    var values: seq<T> := [];
    OffsetResumes(file, header, startRow);
    ghost var end := if endRow <= |all| then endRow else |all|;
    ghost var shown := all[startRow..end];
    VisitNothing(shown, startRow, visit);
    for row := startRow to endRow
      invariant 0 <= position <= |file|
      invariant startRow <= row <= end
      invariant Lines(file, position) == all[row..]
      invariant VisitAll(shown[..row - startRow], startRow, visit) == Ok(values)
    {
      NoMoreLines(file, position);
      if position == |file| {
        assert shown[..row - startRow] == shown;
        return UnexpectedEof;
      }
      var next := LineEnd(file, position);
      var line := file[position..next];
      NextLine(file, position, all, row);
      VisitNext(shown, row - startRow, startRow, visit, values);
      var fields := SplitTsvLine(line);
      var visited := visit(fields, row);
      if visited.Err? {
        return VisitFailed(visited.message);
      }
      values := values + [visited.value];
      position := next;
    }
    assert shown[..endRow - startRow] == shown;
    return Scanned(values);
  }

  lemma VisitNothing<T>(lines: seq<string>, first: nat, visit: Visitor<T>)
    ensures VisitAll(lines[..0], first, visit) == Ok([])
  {
  }
}
