/** Cutting a file into overlapping windows of lines. */
module Snippets {
  import opened ContextHash

  const NEWLINE: byte := 10
  const WINDOW: nat := 50
  const STRIDE: nat := 20
  const MIN_BYTES: nat := 50

  // ---------- Lines ----------

  /** Where lines start, looking at the first `upto` bytes: at 0 and after each newline that is not the last byte. */
  function LineStarts(bytes: seq<byte>, upto: nat): (r: seq<nat>)
    requires upto <= |bytes|
    ensures r != [] && r[0] == 0
  {
    if upto == 0 then [0]
    else LineStarts(bytes, upto - 1) + if bytes[upto - 1] == NEWLINE && upto < |bytes| then [upto] else []
  }

  predicate Increasing(r: seq<nat>)
  {
    forall i, j :: 0 <= i < j < |r| ==> r[i] < r[j]
  }

  /** Each start is 0 or follows a newline. */
  predicate FollowNewlines(bytes: seq<byte>, upto: nat, r: seq<nat>)
    requires upto <= |bytes|
  {
    forall i :: 0 <= i < |r| ==> r[i] <= upto && r[i] < |bytes| && (r[i] == 0 || bytes[r[i] - 1] == NEWLINE)
  }

  /** No newline is missed, but for one at the very end of the file. */
  ghost predicate MissNone(bytes: seq<byte>, upto: nat, r: seq<nat>)
    requires upto <= |bytes|
  {
    forall p :: 0 < p <= upto && p < |bytes| && bytes[p - 1] == NEWLINE ==> p in r
  }

  /** Line starts increase, and are exactly 0 and the positions after a newline. */
  lemma {:induction false} LineStartsAre(bytes: seq<byte>, upto: nat)
    requires bytes != [] && upto <= |bytes|
    ensures var r := LineStarts(bytes, upto);
            Increasing(r) && FollowNewlines(bytes, upto, r) && MissNone(bytes, upto, r)
  {
    if upto > 0 {
      LineStartsAre(bytes, upto - 1);
      var before, r := LineStarts(bytes, upto - 1), LineStarts(bytes, upto);
      var tail := if bytes[upto - 1] == NEWLINE && upto < |bytes| then [upto] else [];
      assert r == before + tail;
      hide LineStarts;
      assert forall p <- before :: p in r;
    }
  }

  function Starts(bytes: seq<byte>): (r: seq<nat>)
    ensures r != [] && r[0] == 0
  {
    LineStarts(bytes, |bytes|)
  }

  function LineCount(bytes: seq<byte>): nat
  {
    |Starts(bytes)|
  }

  /** Where line `k`, counted from 0, starts; after the last line, where the file ends. */
  function LineAt(bytes: seq<byte>, k: nat): nat
  {
    if k < LineCount(bytes) then Starts(bytes)[k] else |bytes|
  }

  lemma StartsAre(bytes: seq<byte>)
    requires bytes != []
    ensures Increasing(Starts(bytes)) && MissNone(bytes, |bytes|, Starts(bytes))
    ensures FollowNewlines(bytes, |bytes|, Starts(bytes))
  {
    LineStartsAre(bytes, |bytes|);
  }

  lemma LineAtIncreases(bytes: seq<byte>, j: nat, k: nat)
    requires bytes != [] && j <= k
    ensures LineAt(bytes, j) <= LineAt(bytes, k) <= |bytes|
    ensures j < k && j < LineCount(bytes) ==> LineAt(bytes, j) < LineAt(bytes, k)
  {
    StartsAre(bytes);
    hide Starts;
  }

  /** The text of line `k`, with its newline. */
  function Line(bytes: seq<byte>, k: nat): seq<byte>
    requires bytes != [] && k < LineCount(bytes)
  {
    LineAtIncreases(bytes, k, k + 1);
    bytes[LineAt(bytes, k)..LineAt(bytes, k + 1)]
  }

  /** A line is not empty, holds no newline but at its end, and ends with one unless it is the last. */
  lemma LineIsALine(bytes: seq<byte>, k: nat)
    requires bytes != [] && k < LineCount(bytes)
    ensures var line := Line(bytes, k);
            && line != []
            && (forall i :: 0 <= i < |line| - 1 ==> line[i] != NEWLINE)
            && (k + 1 < LineCount(bytes) ==> line[|line| - 1] == NEWLINE)
  {
    StartsAre(bytes);
    hide Starts;
    LineAtIncreases(bytes, k, k + 1);
    var r, from, end := Starts(bytes), LineAt(bytes, k), LineAt(bytes, k + 1);
    assert k + 1 < LineCount(bytes) ==> end == r[k + 1] && bytes[end - 1] == NEWLINE;
    forall p | from <= p < end - 1 ensures bytes[p] != NEWLINE {
      NoStartBetween(bytes, k, p + 1);
    }
  }

  lemma NoStartBetween(bytes: seq<byte>, k: nat, p: nat)
    requires bytes != [] && k < LineCount(bytes) && LineAt(bytes, k) < p < LineAt(bytes, k + 1) <= |bytes|
    ensures bytes[p - 1] != NEWLINE
  {
    StartsAre(bytes);
    hide Starts;
    var r := Starts(bytes);
    assert forall m :: 0 <= m < |r| && m <= k ==> r[m] <= r[k];
    assert forall m :: 0 <= m < |r| && k + 1 <= m ==> r[k + 1] <= r[m];
    assert p !in r;
  }

  /** Lines `from` up to `until`, put together. */
  function Joined(bytes: seq<byte>, from: nat, until: nat): seq<byte>
    requires bytes != [] && from <= until <= LineCount(bytes)
    decreases until
  {
    if from == until then [] else Joined(bytes, from, until - 1) + Line(bytes, until - 1)
  }

  lemma {:induction false} JoinedIsSlice(bytes: seq<byte>, from: nat, until: nat)
    requires bytes != [] && from <= until <= LineCount(bytes)
    ensures LineAt(bytes, from) <= LineAt(bytes, until) <= |bytes|
    ensures Joined(bytes, from, until) == bytes[LineAt(bytes, from)..LineAt(bytes, until)]
    decreases until
  {
    LineAtIncreases(bytes, from, until);
    if from < until {
      hide LineAt, LineCount, Starts;
      JoinedIsSlice(bytes, from, until - 1);
      LineAtIncreases(bytes, until - 1, until);
      var a, b, c := LineAt(bytes, from), LineAt(bytes, until - 1), LineAt(bytes, until);
      assert bytes[a..c] == bytes[a..b] + bytes[b..c];
    }
  }

  // ---------- Windows ----------

  /** The windows over `n` lines from line `i` on, as ranges of lines. */
  function Windows(n: nat, i: nat): seq<(nat, nat)>
    decreases n - i
  {
    if n <= i then []
    else
      var end := if i + WINDOW < n then i + WINDOW else n;
      [(i, end)] + if end == n then [] else Windows(n, i + STRIDE)
  }

  predicate Inside(a: nat, b: nat, w: (nat, nat))
  {
    w.0 <= a && b <= w.1
  }

  /** A run of lines lies wholly in one window. */
  ghost predicate Kept(windows: seq<(nat, nat)>, a: nat, b: nat)
  {
    exists k :: 0 <= k < |windows| && Inside(a, b, windows[k])
  }

  lemma {:induction false} WindowShape(n: nat, i: nat, k: nat)
    requires k < |Windows(n, i)|
    ensures var w := Windows(n, i)[k];
            w.0 == i + k * STRIDE && w.0 < w.1 <= n && w.1 <= w.0 + WINDOW
            && (w.1 < n ==> w.1 == w.0 + WINDOW)
    decreases k
  {
    if k > 0 {
      WindowShape(n, i + STRIDE, k - 1);
    }
  }

  /** Every run of at most 31 consecutive lines, starting at line `i` or later, lies wholly in one window. */
  lemma {:induction false} ShortRunsKept(n: nat, i: nat, a: nat, b: nat)
    requires i <= a < b <= n && b - a <= WINDOW - STRIDE + 1
    ensures Kept(Windows(n, i), a, b)
    decreases n - i
  {
    var windows := Windows(n, i);
    if Inside(a, b, windows[0]) {
      assert Kept(windows, a, b);
    } else {
      assert i + STRIDE <= a;
      ShortRunsKept(n, i + STRIDE, a, b);
      var rest := Windows(n, i + STRIDE);
      var k :| 0 <= k < |rest| && Inside(a, b, rest[k]);
      assert windows[k + 1] == rest[k];
    }
  }

  /** Each run of `len` of the `n` lines lies wholly in one window. */
  ghost predicate AllRunsKept(n: nat, len: nat)
  {
    forall a: nat, b: nat | b == a + len && b <= n :: Kept(Windows(n, 0), a, b)
  }

  /** Runs of a given length are never split exactly when they have at most 31 lines, or one window holds the file. */
  lemma RunsKeptExactly(n: nat, len: nat)
    requires 1 <= len <= n
    ensures AllRunsKept(n, len) <==> len <= 31 || n <= 50
  {
    if n <= 50 {
      forall a: nat, b: nat | b == a + len && b <= n ensures Kept(Windows(n, 0), a, b) {
        assert Inside(a, b, Windows(n, 0)[0]);
      }
    } else if len <= 31 {
      forall a: nat, b: nat | b == a + len && b <= n ensures Kept(Windows(n, 0), a, b) {
        ShortRunsKept(n, 0, a, b);
      }
    } else {
      LongRunSplit(n, len);
    }
  }

  /** A run of 32 or more lines that no window contains: it starts at line 19, or ends with the file if that is
      sooner. */
  lemma LongRunSplit(n: nat, len: nat)
    requires 32 <= len <= n && n > 50
    ensures var a := if n - len < 19 then n - len else 19;
            a + len <= n && !Kept(Windows(n, 0), a, a + len)
  {
    var a := if n - len < 19 then n - len else 19;
    forall k | 0 <= k < |Windows(n, 0)| ensures !Inside(a, a + len, Windows(n, 0)[k]) {
      WindowShape(n, 0, k);
      assert k >= 1 ==> k * STRIDE >= STRIDE;
    }
  }

  // ---------- Snippets ----------

  datatype Snippet = Snippet(startLine: nat, endLine: nat, content: seq<byte>)

  /** The bytes of a window. */
  function WindowBytes(bytes: seq<byte>, w: (nat, nat)): seq<byte>
    requires bytes != [] && w.0 <= w.1 <= LineCount(bytes)
  {
    LineAtIncreases(bytes, w.0, w.1);
    bytes[LineAt(bytes, w.0)..LineAt(bytes, w.1)]
  }

  ghost predicate InFile(bytes: seq<byte>, windows: seq<(nat, nat)>)
  {
    forall k :: 0 <= k < |windows| ==> windows[k].0 < windows[k].1 <= LineCount(bytes)
  }

  lemma WindowsInFile(bytes: seq<byte>, i: nat)
    ensures InFile(bytes, Windows(LineCount(bytes), i))
  {
    forall k | 0 <= k < |Windows(LineCount(bytes), i)|
      ensures Windows(LineCount(bytes), i)[k].0 < Windows(LineCount(bytes), i)[k].1 <= LineCount(bytes)
    {
      WindowShape(LineCount(bytes), i, k);
    }
  }

  /** The snippet of a window, if it has more than 50 bytes. */
  function Candidate(bytes: seq<byte>, w: (nat, nat)): seq<Snippet>
    requires bytes != [] && w.0 <= w.1 <= LineCount(bytes)
  {
    var content := WindowBytes(bytes, w);
    if |content| > MIN_BYTES then [Snippet(w.0 + 1, w.1, content)] else []
  }

  function Candidates(bytes: seq<byte>, windows: seq<(nat, nat)>): seq<Snippet>
    requires bytes != [] && InFile(bytes, windows)
  {
    if windows == [] then [] else Candidate(bytes, windows[0]) + Candidates(bytes, windows[1..])
  }

  /** The snippets of the windows from line `i` on. */
  function SnippetsFrom(bytes: seq<byte>, i: nat): seq<Snippet>
    requires bytes != []
  {
    WindowsInFile(bytes, i);
    Candidates(bytes, Windows(LineCount(bytes), i))
  }

  lemma NextWindow(bytes: seq<byte>, i: nat)
    requires bytes != [] && i < LineCount(bytes)
    ensures var n := LineCount(bytes);
            var end := if i + WINDOW < n then i + WINDOW else n;
            SnippetsFrom(bytes, i)
            == Candidate(bytes, (i, end)) + if end == n then [] else SnippetsFrom(bytes, i + STRIDE)
  {
    hide LineCount, Candidate;
    var n := LineCount(bytes);
    var end := if i + WINDOW < n then i + WINDOW else n;
    WindowsInFile(bytes, i);
    WindowsInFile(bytes, i + STRIDE);
    var windows := Windows(n, i);
    assert windows[0] == (i, end);
    assert windows[1..] == if end == n then [] else Windows(n, i + STRIDE);
    hide Windows;
    assert Candidates(bytes, windows) == Candidate(bytes, windows[0]) + Candidates(bytes, windows[1..]);
  }

  /** `file_to_candidates` for snippets. */
  method FileToCandidates(bytes: seq<byte>) returns (snippets: seq<Snippet>)
    ensures bytes == [] ==> snippets == []
    ensures bytes != [] ==> snippets == SnippetsFrom(bytes, 0)
  {
    snippets := [];
    if bytes == [] {
      return;
    }
    var lineStarts := CollectLineStarts(bytes);
    hide *;
    var i := 0;
    ghost var n := LineCount(bytes);
    StartsCount(bytes);
    while i < |lineStarts|
      invariant |lineStarts| == n && lineStarts == Starts(bytes)
      invariant snippets + SnippetsFrom(bytes, i) == SnippetsFrom(bytes, 0)
      decreases n - i
    {
      var found, end := CutWindow(bytes, lineStarts, i);
      NextWindow(bytes, i);
      Regroup(snippets, found, if end == n then [] else SnippetsFrom(bytes, i + STRIDE));
      snippets := snippets + found;
      if end == |lineStarts| {
        return;
      }
      i := i + STRIDE;
    }
    NoMoreWindows(bytes, i);
  }

  lemma StartsCount(bytes: seq<byte>)
    ensures |Starts(bytes)| == LineCount(bytes)
  {
  }

  /** The window that starts at line `i`, if it has more than 50 bytes, and the line where it ends. */
  method CutWindow(bytes: seq<byte>, lineStarts: seq<nat>, i: nat) returns (found: seq<Snippet>, end: nat)
    requires bytes != [] && lineStarts == Starts(bytes) && i < LineCount(bytes)
    ensures end == if i + WINDOW < LineCount(bytes) then i + WINDOW else LineCount(bytes)
    ensures found == Candidate(bytes, (i, end))
  {
    hide Starts, Candidate, LineAt;
    end := if i + WINDOW < |lineStarts| then i + WINDOW else |lineStarts|;
    CandidateIs(bytes, i, end);
    var startByte := lineStarts[i];
    var endByte := if |lineStarts| <= end then |bytes| else lineStarts[end];
    found := [];
    if startByte < endByte {
      var content := bytes[startByte..endByte];
      if |content| > MIN_BYTES {
        found := [Snippet(i + 1, end, content)];
      }
    }
  }

  lemma CandidateIs(bytes: seq<byte>, i: nat, end: nat)
    requires bytes != [] && i < end <= LineCount(bytes)
    ensures var lineStarts := Starts(bytes);
            var startByte, endByte := lineStarts[i], if |lineStarts| <= end then |bytes| else lineStarts[end];
            && startByte < endByte <= |bytes|
            && Candidate(bytes, (i, end))
               == if endByte - startByte > MIN_BYTES then [Snippet(i + 1, end, bytes[startByte..endByte])] else []
  {
    LineAtIncreases(bytes, i, end);
  }

  lemma Regroup(a: seq<Snippet>, b: seq<Snippet>, c: seq<Snippet>)
    ensures a + b + c == a + (b + c) && a + b + [] == a + b
  {
  }

  lemma NoMoreWindows(bytes: seq<byte>, i: nat)
    requires bytes != [] && LineCount(bytes) <= i
    ensures SnippetsFrom(bytes, i) == []
  {
  }

  method CollectLineStarts(bytes: seq<byte>) returns (lineStarts: seq<nat>)
    ensures lineStarts == Starts(bytes)
  {
    lineStarts := [0];
    for i := 0 to |bytes|
      invariant lineStarts == LineStarts(bytes, i)
    {
      if bytes[i] == NEWLINE && i + 1 < |bytes| {
        lineStarts := lineStarts + [i + 1];
      }
    }
  }

  /** A window's bytes are exactly its stated lines. */
  lemma WindowIsItsLines(bytes: seq<byte>, w: (nat, nat))
    requires bytes != [] && w.0 <= w.1 <= LineCount(bytes)
    ensures WindowBytes(bytes, w) == Joined(bytes, w.0, w.1)
  {
    JoinedIsSlice(bytes, w.0, w.1);
  }

  /** All lines together are the file. */
  lemma LinesAreTheFile(bytes: seq<byte>)
    requires bytes != []
    ensures Joined(bytes, 0, LineCount(bytes)) == bytes
  {
    JoinedIsSlice(bytes, 0, LineCount(bytes));
    assert bytes[0..|bytes|] == bytes;
  }

  /** The line a byte is in. */
  lemma {:induction false} LineHolding(bytes: seq<byte>, p: nat, k: nat) returns (line: nat)
    requires bytes != [] && p < |bytes| && k <= LineCount(bytes) && p < LineAt(bytes, k)
    ensures line < k && LineAt(bytes, line) <= p < LineAt(bytes, line + 1)
    decreases k
  {
    if LineAt(bytes, k - 1) <= p {
      line := k - 1;
    } else {
      line := LineHolding(bytes, p, k - 1);
    }
  }

  /** Before the length filter, every byte of the file is in some window. */
  lemma WindowsCoverFile(bytes: seq<byte>, p: nat) returns (k: nat)
    requires p < |bytes|
    ensures var windows := Windows(LineCount(bytes), 0);
            k < |windows| && LineAt(bytes, windows[k].0) <= p < LineAt(bytes, windows[k].1)
  {
    var n := LineCount(bytes);
    var line := LineHolding(bytes, p, n);
    ShortRunsKept(n, 0, line, line + 1);
    var windows := Windows(n, 0);
    k :| 0 <= k < |windows| && Inside(line, line + 1, windows[k]);
    LineAtIncreases(bytes, windows[k].0, line);
    LineAtIncreases(bytes, line + 1, windows[k].1);
  }

  lemma {:induction false} LinesTakeBytes(bytes: seq<byte>, from: nat, until: nat)
    requires bytes != [] && from <= until <= LineCount(bytes)
    ensures |Joined(bytes, from, until)| >= until - from
    ensures |Joined(bytes, from, until)| == until - from <==>
              forall k | from <= k < until :: |Line(bytes, k)| == 1
    decreases until
  {
    if from < until {
      hide LineAt, LineCount, Line;
      LinesTakeBytes(bytes, from, until - 1);
      LineIsALine(bytes, until - 1);
    }
  }

  /** The filter drops a window of 50 lines only when all of them are single bytes, as blank lines are. */
  lemma FullWindowDropped(bytes: seq<byte>, w: (nat, nat))
    requires bytes != [] && w.1 == w.0 + WINDOW <= LineCount(bytes)
    ensures |WindowBytes(bytes, w)| <= MIN_BYTES <==> forall k | w.0 <= k < w.1 :: |Line(bytes, k)| == 1
  {
    WindowIsItsLines(bytes, w);
    LinesTakeBytes(bytes, w.0, w.1);
  }
}
