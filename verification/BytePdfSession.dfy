/** Speculative byte scoring with a live mixer, its undo journal and reusable scratch buffers,
    next to the live coding of a byte that the speculation predicts. */
module BytePdfSession {
  import opened RealMath
  import opened ContextHash
  import opened StretchMixer
  import opened StretchMixerLaws
  import opened StretchMixerCore
  import opened BytePrefix
  import opened BitTree
  import opened BytePdf
  import opened WalkViews
  import opened PdfNormalization

  /** The 256 scores of a mixer state. */
  function ByteScores(f: Curves, q: Query, mode: ScoringMode, s: CoreState): (r: seq<real>)
    requires WellFormed(s) && QueryFits(q, s.expertCount)
    ensures |r| == BYTE_SYMBOLS
    ensures Sum(r) == 1.0 && forall v :: 0 <= v < BYTE_SYMBOLS ==> r[v] > 0.0
  {
    PdfIsDistribution(f, q, mode, s, START, BYTE_BITS);
    Pdf(f, q, mode, s, START, BYTE_BITS)
  }

  function ByteWalk(f: Curves, q: Query, mode: ScoringMode, s: CoreState, u: UndoState, symbol: byte): (w: Walk)
    requires WellFormed(s) && QueryFits(q, s.expertCount)
    ensures WellFormed(w.core) && w.core.expertCount == s.expertCount
  {
    WalkPath(f, q, mode, s, u, START, BitsOf(symbol, BYTE_BITS))
  }

  /** After a speculative walk the journal fits, restoring gives back the mixer, and the product
      accumulated on the way is the symbol's score. */
  lemma SpeculationIsExact(f: Curves, q: Query, mode: ScoringMode, s: CoreState, symbol: byte)
    requires WellFormed(s) && QueryFits(q, s.expertCount)
    ensures var w := ByteWalk(f, q, mode, s, BeginUndo(s), symbol);
            && JournalFits(w.undo.entries, w.core.tables, |w.undo.values|)
            && RestoreCore(w.core, w.undo) == s
            && Product(w.conditionals) == ByteScores(f, q, mode, s)[symbol]
  {
    WalkIsUndoable(f, q, mode, s, s, BeginUndo(s), START, BitsOf(symbol, BYTE_BITS));
    ScoreIsPdfEntry(f, q, mode, s, BeginUndo(s), START, BYTE_BITS, symbol);
  }

  lemma ByteStart()
    ensures CanRead(START, BYTE_BITS) && Pow2(BYTE_BITS) == BYTE_SYMBOLS
  {
  }

  lemma NothingJournalled(s: CoreState)
    ensures BeginUndo(s).entries == [] && BeginUndo(s).values == []
  {
  }

  /** A byte's adaptive walk fills exactly the room `new_undo` reserves; a frozen one leaves the journal empty. */
  lemma ByteJournalSize(f: Curves, q: Query, mode: ScoringMode, s: CoreState, symbol: byte)
    requires WellFormed(s) && QueryFits(q, s.expertCount) && s.expertCount > 0
    ensures var v := ByteWalk(f, q, mode, s, BeginUndo(s), symbol).undo;
            && |v.entries| == (if mode.Adaptive? then 8 * CONTEXTS else 0)
            && |v.values| == if mode.Adaptive? then 8 * CONTEXTS * s.expertCount else 0
  {
    hide WalkPath, Offset, BitsOf, WellFormed, QueryFits, BeginUndo, CanRead, Pow2;
    ByteStart();
    NothingJournalled(s);
    var rows, values := RowsPerBit(mode), ValuesPerBit(mode, s.expertCount);
    JournalSize(f, q, mode, s, BeginUndo(s), START, BitsOf(symbol, BYTE_BITS), rows, values);
    OffsetIsProduct(BYTE_BITS, rows);
    OffsetIsProduct(BYTE_BITS, values);
  }

  lemma SameCount(s: CoreState, t: CoreState)
    requires SameParameters(s, t)
    ensures s.expertCount == t.expertCount
  {
  }

  /** Frozen walks from a mixer whose caches an earlier frozen walk overwrote still give the original scores. */
  lemma FrozenScore(f: Curves, q: Query, origin: CoreState, s: CoreState, u: UndoState, symbol: byte)
    requires WellFormed(origin) && WellFormed(s) && Coherent(origin) && Coherent(s)
    requires SameParameters(s, origin) && QueryFits(q, s.expertCount)
    ensures var w := ByteWalk(f, q, Frozen, s, u, symbol);
            && Product(w.conditionals) == ByteScores(f, q, Frozen, origin)[symbol]
            && SameParameters(w.core, origin) && w.undo == u
  {
    hide WellFormed, QueryFits, Coherent, WalkPath, ConditionalTree, CanRead, Product, Masses, BitsOf, Pow2;
    ByteStart();
    SameCount(s, origin);
    ScoreIsPdfEntry(f, q, Frozen, s, u, START, BYTE_BITS, symbol);
    FrozenTree(f, q, s, origin, START, BYTE_BITS);
    FrozenWalkKeepsParameters(f, q, s, u, START, BitsOf(symbol, BYTE_BITS));
  }

  class LogisticBytePdfSession {
    const logistic: LogisticMixCore
    const query: Query
    const bitProbs: array<real>
    const ranges: array<MsbPrefixRange>
    const undo: LogisticMixUndo

    constructor (logistic: LogisticMixCore, query: Query, bitProbs: array<real>, ranges: array<MsbPrefixRange>,
                 undo: LogisticMixUndo)
      ensures this.logistic == logistic && this.query == query && this.undo == undo
      ensures this.bitProbs == bitProbs && this.ranges == ranges
    {
      this.logistic, this.query, this.undo := logistic, query, undo;
      this.bitProbs, this.ranges := bitProbs, ranges;
    }

    /** The scratch buffers have one slot per expert. */
    predicate Ready()
      reads logistic
    {
      && logistic.Valid()
      && QueryFits(query, logistic.expertCount)
      && bitProbs.Length == logistic.expertCount == ranges.Length
    }

    /** Every expert's interval is `range`. */
    ghost predicate AllAt(range: MsbPrefixRange)
      reads ranges
    {
      forall i :: 0 <= i < ranges.Length ==> ranges[i] == range
    }

    /** Every expert's slot is filled with what it hands over after the bits `read`. */
    method ReadExperts(ghost c: Cursor, ghost read: seq<bool>)
      requires Ready() && |read| < BYTE_BITS && c == CursorAfter(read)
      requires AllAt(c.range) && c.range.lo <= c.range.hi <= BYTE_SYMBOLS
      modifies bitProbs
      ensures bitProbs[..] == ExpertProbs(query, c)
      ensures bitProbs[..] == HandedAll(query, read)
    {
      hide CursorAfter, HandedAll, MsbPrefixRange.ProbOne, LogisticMixCore.Valid;
      for i := 0 to ranges.Length
        invariant forall j :: 0 <= j < i ==> bitProbs[j] == c.range.ProbOne(query.cdfs[j], query.minProb)
      {
        bitProbs[i] := ranges[i].ProbOne(query.cdfs[i], query.minProb);
      }
      assert bitProbs[..] == ExpertProbs(query, c);
      ExpertsHand(query, read);
    }

    method ResetRanges()
      modifies ranges
      ensures AllAt(FULL)
    {
      for i := 0 to ranges.Length
        invariant forall j :: 0 <= j < i ==> ranges[j] == FULL
      {
        ranges[i] := FULL;
      }
    }

    method ObserveRanges(ghost range: MsbPrefixRange, bit: bool)
      requires AllAt(range)
      modifies ranges
      ensures AllAt(range.Observed(bit))
    {
      for i := 0 to ranges.Length
        invariant forall j :: 0 <= j < i ==> ranges[j] == range.Observed(bit)
        invariant forall j :: i <= j < ranges.Length ==> ranges[j] == range
      {
        ranges[i] := ranges[i].Observed(bit);
      }
    }

    /** One bit of a speculative path: each expert hands over its probability after the bits read so far, and the
        mixer answers in their context. */
    method ScoreBit(c: Cursor, bit: bool, mode: ScoringMode, ghost read: seq<bool>) returns (p: real)
      requires Ready() && undo.active && AllAt(c.range) && |read| < BYTE_BITS && c == CursorAfter(read)
      requires c.bitIdx < BYTE_BITS && c.range.lo <= c.range.hi <= BYTE_SYMBOLS
      modifies logistic, undo, bitProbs, ranges
      ensures Ready() && AllAt(c.range.Observed(bit))
      ensures logistic.State() == Next(logistic.f, query, mode, old(logistic.State()), c, bit)
      ensures undo.State() == NextUndo(logistic.f, query, mode, old(logistic.State()), old(undo.State()), c)
      ensures undo.active
      ensures p == BitProb(Predicted(logistic.f, query, old(logistic.State()), c).lastProbOne, bit)
      ensures bitProbs[..] == HandedAll(query, read) && logistic.context == PrefixContext(query, read)
    {
      hide CursorAfter, HandedAll, PrefixContext, Clipped, Coherent, Shaped, ContextIndices;
      ContextIs(query, read);
      ReadExperts(c, read);
      logistic.SetContext(ContextAt(query, c));
      var p1: real;
      match mode {
        case Adaptive =>
          JournalStaysActive(undo.State(), Predicted(logistic.f, query, old(logistic.State()), c));
          p1 := logistic.ObserveBitRecordingUndo(bitProbs[..], bit, query.minProb, undo);
        case Frozen =>
          p1 := logistic.PredictBit(bitProbs[..], query.minProb);
      }
      p := BitProb(p1, bit);
      ObserveRanges(c.range, bit);
    }

    lemma JournalStaysActive(u: UndoState, s: CoreState)
      requires WellFormed(s)
      ensures Journal(u, s).active == u.active
    {
      JournalGrows(u, s, CONTEXTS);
    }

    /** `whole` is what was `seen` so far followed by `rest`. */
    static predicate Continues(whole: Walk, seen: seq<real>, rest: Walk)
    {
      whole == rest.(conditionals := seen + rest.conditionals)
    }

    static lemma ContinuesStep(whole: Walk, seen: seq<real>, p: real, rest: Walk)
      requires Continues(whole, seen, rest.(conditionals := [p] + rest.conditionals))
      ensures Continues(whole, seen + [p], rest)
    {
      assert seen + ([p] + rest.conditionals) == seen + [p] + rest.conditionals;
    }

    static lemma EmptyProduct()
      ensures Product([]) == 1.0
    {
    }

    static method Multiply(probability: real, p: real, ghost seen: seq<real>) returns (r: real)
      requires probability == Product(seen)
      ensures r == Product(seen + [p])
    {
      ProductAppend(seen, p);
      r := probability * p;
    }

    /** Walk the `d` bits of `symbol` from `start`, multiplying the conditionals. */
    method WalkFrom(start: Cursor, d: nat, symbol: nat, mode: ScoringMode, ghost first: seq<bool>)
      returns (probability: real)
      requires Ready() && undo.active && AllAt(start.range)
      requires start == CursorAfter(first) && |first| + d == BYTE_BITS
      requires CanRead(start, d) && symbol < Pow2(d)
      modifies logistic, undo, bitProbs, ranges
      ensures Ready() && undo.active
      ensures var w := WalkPath(logistic.f, query, mode, old(logistic.State()), old(undo.State()), start,
                                BitsOf(symbol, d));
              && logistic.State() == w.core
              && undo.State() == w.undo
              && probability == Product(w.conditionals)
    {
      hide Product, WalkPath, Predicted, Next, NextUndo, BitsOf, MaskedBit, WellFormed, QueryFits, Pow2, CanRead, AllAt,
           CursorAfter;
      ghost var bits := BitsOf(symbol, d);
      ghost var whole := WalkPath(logistic.f, query, mode, logistic.State(), undo.State(), start, bits);
      var c := start;
      probability := 1.0;
      ghost var seen: seq<real> := [];
      ghost var read := first;
      assert bits[0..] == bits && seen + whole.conditionals == whole.conditionals;
      assert Product(seen) == 1.0 by { EmptyProduct(); }
      for i := 0 to d
        invariant Ready() && undo.active && AllAt(c.range)
        invariant CanRead(c, |bits[i..]|)
        invariant c == CursorAfter(read) && |read| == |first| + i
        invariant Continues(whole, seen,
                            WalkPath(logistic.f, query, mode, logistic.State(), undo.State(), c, bits[i..]))
        invariant probability == Product(seen)
      {
        BitAt(symbol, d, i);
        CanReadBit(c, |bits[i..]|);
        var bit := MaskedBit(symbol, d, i);
        assert bits[i..][0] == bit && bits[i..][1..] == bits[i + 1..];
        WalkUnrolls(logistic.f, query, mode, logistic.State(), undo.State(), c, bits[i..]);
        var p := ScoreBit(c, bit, mode, read);
        CursorNext(read, bit);
        read := read + [bit];
        c := c.Advance(bit);
        ContinuesStep(whole, seen, p,
                      WalkPath(logistic.f, query, mode, logistic.State(), undo.State(), c, bits[i + 1..]));
        probability := Multiply(probability, p, seen);
        seen := seen + [p];
      }
      WalkEnds(whole, seen, logistic.f, logistic.State(), undo.State(), c, mode);
    }

    lemma WalkEnds(whole: Walk, seen: seq<real>, f: Curves, s: CoreState, u: UndoState, c: Cursor, mode: ScoringMode)
      requires WellFormed(s) && QueryFits(query, s.expertCount) && CanRead(c, 0)
      requires Continues(whole, seen, WalkPath(f, query, mode, s, u, c, []))
      ensures whole == Walk(seen, s, u)
    {
    }

    /** The product of mixed conditional bits along `symbol`, training or freezing the mixer. */
    method ScorePath(symbol: byte, mode: ScoringMode) returns (probability: real)
      requires Ready() && undo.active
      modifies logistic, undo, bitProbs, ranges
      ensures Ready() && undo.active
      ensures var w := ByteWalk(logistic.f, query, mode, old(logistic.State()), old(undo.State()), symbol);
              && logistic.State() == w.core
              && undo.State() == w.undo
              && probability == Product(w.conditionals)
    {
      ResetRanges();
      probability := WalkFrom(START, BYTE_BITS, symbol, mode, []);
    }

    /** Score `symbol` with the mixer fitted bit by bit, then roll everything back. */
    method ScoreAdaptive(symbol: byte) returns (probability: real)
      requires Ready() && !undo.active
      modifies logistic, undo, bitProbs, ranges
      ensures Ready() && !undo.active && undo.entries == [] && undo.values == []
      ensures logistic.State() == old(logistic.State())
      ensures probability == ByteScores(logistic.f, query, Adaptive, logistic.State())[symbol]
    {
      logistic.BeginUndo(undo);
      probability := ScorePath(symbol, Adaptive);
      SpeculationIsExact(logistic.f, query, Adaptive, old(logistic.State()), symbol);
      logistic.RestoreUndo(undo);
    }

    /** Score `symbol` with the mixer's parameters fixed. */
    method ScoreFrozen(symbol: byte) returns (probability: real)
      requires Ready() && !undo.active
      modifies logistic, undo, bitProbs, ranges
      ensures Ready() && !undo.active && undo.entries == [] && undo.values == []
      ensures logistic.State() == old(logistic.State())
      ensures probability == ByteScores(logistic.f, query, Frozen, logistic.State())[symbol]
    {
      logistic.BeginUndo(undo);
      probability := ScorePath(symbol, Frozen);
      SpeculationIsExact(logistic.f, query, Frozen, old(logistic.State()), symbol);
      logistic.RestoreUndo(undo);
    }

    /** Fill `pdf` with the adaptive byte distribution; the mixer is unchanged and normalising is a no-op. */
    method MaterializeAdaptive(pdf: array<real>)
      requires Ready() && !undo.active && pdf.Length == BYTE_SYMBOLS && pdf != bitProbs
      modifies logistic, undo, bitProbs, ranges, pdf
      ensures Ready() && !undo.active
      ensures logistic.State() == old(logistic.State())
      ensures pdf[..] == ByteScores(logistic.f, query, Adaptive, logistic.State())
    {
      hide ByteScores;
      ghost var scores := ByteScores(logistic.f, query, Adaptive, logistic.State());
      Fill(pdf, 0.0);
      for symbol := 0 to BYTE_SYMBOLS
        invariant Ready() && !undo.active && logistic.State() == old(logistic.State())
        invariant forall v :: 0 <= v < symbol ==> pdf[v] == scores[v]
      {
        var p := ScoreAdaptive(symbol);
        pdf[symbol] := p;
      }
      assert pdf[..] == scores;
      MassNormalizedIsIdentity(scores);
      NormalizePdfMassOnly(pdf);
    }

    /** Fill `pdf` with the frozen byte distribution, under one undo scope around all 256 walks. */
    method MaterializeFrozen(pdf: array<real>)
      requires Ready() && !undo.active && pdf.Length == BYTE_SYMBOLS && pdf != bitProbs
      modifies logistic, undo, bitProbs, ranges, pdf
      ensures Ready() && !undo.active
      ensures logistic.State() == old(logistic.State())
      ensures pdf[..] == ByteScores(logistic.f, query, Frozen, logistic.State())
    {
      hide ByteScores, ByteWalk;
      ghost var f, origin := logistic.f, logistic.State();
      ghost var scores := ByteScores(f, query, Frozen, origin);
      Fill(pdf, 0.0);
      logistic.BeginUndo(undo);
      for symbol := 0 to BYTE_SYMBOLS
        invariant Ready() && undo.State() == BeginUndo(origin) && SameParameters(logistic.State(), origin)
        invariant forall v :: 0 <= v < symbol ==> pdf[v] == scores[v]
      {
        FrozenScore(f, query, origin, logistic.State(), undo.State(), symbol);
        var p := ScorePath(symbol, Frozen);
        pdf[symbol] := p;
      }
      logistic.RestoreUndo(undo);
      assert pdf[..] == scores;
      MassNormalizedIsIdentity(scores);
      NormalizePdfMassOnly(pdf);
    }

    /** One bit of really coding a byte: predict, then train without a journal. */
    method CodeBit(c: Cursor, bit: bool, ghost read: seq<bool>) returns (p: real)
      requires Ready() && AllAt(c.range) && |read| < BYTE_BITS && c == CursorAfter(read)
      requires c.bitIdx < BYTE_BITS && c.range.lo <= c.range.hi <= BYTE_SYMBOLS
      modifies logistic, bitProbs, ranges
      ensures Ready() && AllAt(c.range.Observed(bit))
      ensures logistic.State() == Next(logistic.f, query, Adaptive, old(logistic.State()), c, bit)
      ensures p == BitProb(Predicted(logistic.f, query, old(logistic.State()), c).lastProbOne, bit)
      ensures bitProbs[..] == HandedAll(query, read) && logistic.context == PrefixContext(query, read)
    {
      hide CursorAfter, HandedAll, PrefixContext, Clipped, Coherent, Shaped, ContextIndices;
      ContextIs(query, read);
      ReadExperts(c, read);
      logistic.SetContext(ContextAt(query, c));
      var p1 := logistic.ObserveBit(bitProbs[..], bit, query.minProb);
      p := BitProb(p1, bit);
      ObserveRanges(c.range, bit);
    }

    method CodeFrom(start: Cursor, d: nat, symbol: nat, ghost first: seq<bool>) returns (probability: real)
      requires Ready() && AllAt(start.range)
      requires start == CursorAfter(first) && |first| + d == BYTE_BITS
      requires CanRead(start, d) && symbol < Pow2(d)
      modifies logistic, bitProbs, ranges
      ensures Ready()
      ensures var w := WalkPath(logistic.f, query, Adaptive, old(logistic.State()), BeginUndo(old(logistic.State())),
                                start, BitsOf(symbol, d));
              logistic.State() == w.core && probability == Product(w.conditionals)
    {
      hide Product, WalkPath, Predicted, Next, NextUndo, BitsOf, MaskedBit, WellFormed, QueryFits, Pow2, CanRead, AllAt,
           CursorAfter;
      ghost var bits, u := BitsOf(symbol, d), BeginUndo(logistic.State());
      ghost var whole := WalkPath(logistic.f, query, Adaptive, logistic.State(), u, start, bits);
      var c := start;
      probability := 1.0;
      ghost var seen: seq<real> := [];
      ghost var read := first;
      assert bits[0..] == bits && seen + whole.conditionals == whole.conditionals;
      assert Product(seen) == 1.0 by { EmptyProduct(); }
      for i := 0 to d
        invariant Ready() && AllAt(c.range)
        invariant CanRead(c, |bits[i..]|)
        invariant c == CursorAfter(read) && |read| == |first| + i
        invariant Continues(whole, seen, WalkPath(logistic.f, query, Adaptive, logistic.State(), u, c, bits[i..]))
        invariant probability == Product(seen)
      {
        BitAt(symbol, d, i);
        CanReadBit(c, |bits[i..]|);
        var bit := MaskedBit(symbol, d, i);
        assert bits[i..][0] == bit && bits[i..][1..] == bits[i + 1..];
        WalkUnrolls(logistic.f, query, Adaptive, logistic.State(), u, c, bits[i..]);
        u := NextUndo(logistic.f, query, Adaptive, logistic.State(), u, c);
        var p := CodeBit(c, bit, read);
        CursorNext(read, bit);
        read := read + [bit];
        c := c.Advance(bit);
        ContinuesStep(whole, seen, p, WalkPath(logistic.f, query, Adaptive, logistic.State(), u, c, bits[i + 1..]));
        probability := Multiply(probability, p, seen);
        seen := seen + [p];
      }
      WalkEnds(whole, seen, logistic.f, logistic.State(), u, c, Adaptive);
    }

    /** Really code `symbol`: the probability is the one `ScoreAdaptive` would have announced. */
    method CodeByte(symbol: byte) returns (probability: real)
      requires Ready()
      modifies logistic, bitProbs, ranges
      ensures Ready()
      ensures probability == ByteScores(logistic.f, query, Adaptive, old(logistic.State()))[symbol]
      ensures var before := old(logistic.State());
              logistic.State() == ByteWalk(logistic.f, query, Adaptive, before, BeginUndo(before), symbol).core
    {
      SpeculationIsExact(logistic.f, query, Adaptive, logistic.State(), symbol);
      ResetRanges();
      probability := CodeFrom(START, BYTE_BITS, symbol, []);
    }
  }
}
