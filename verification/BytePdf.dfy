/** Scoring a byte with the stretch mixer: a walk along its eight bits. The 256 scores form a
    distribution, and the journal written on the way undoes the walk. */
module BytePdf {
  import opened RealMath
  import opened ContextHash
  import opened StretchMixer
  import opened StretchMixerLaws
  import opened BytePrefix
  import opened BitTree

  datatype ScoringMode = Adaptive | Frozen

  /** The inputs that stay fixed while the bytes of one position are scored. */
  datatype Query = Query(
    cdfs: seq<seq<real>>, history: History, matchLenBucket: byte, matchPredictedClass: byte, minProb: real)

  predicate QueryFits(q: Query, n: nat)
  {
    && |q.cdfs| == n
    && (forall i :: 0 <= i < n ==> |q.cdfs[i]| > BYTE_SYMBOLS)
    && 0.0 < q.minProb < 0.5
  }

  /** Position of a walk inside a byte. */
  datatype Cursor = Cursor(bitIdx: nat, prefix: u16, range: MsbPrefixRange)
  {
    function Advance(bit: bool): Cursor
    {
      Cursor(bitIdx + 1, AdvancedPrefixCode(prefix, bit), range.Observed(bit))
    }
  }

  const START := Cursor(0, 1, FULL)

  /** `d` more bits can be read from here. */
  predicate CanRead(c: Cursor, d: nat)
  {
    c.bitIdx + d == BYTE_BITS && c.range.hi == c.range.lo + Pow2(d) && c.range.hi <= BYTE_SYMBOLS
  }

  function ContextAt(q: Query, c: Cursor): MixContext
    requires c.bitIdx < BYTE_BITS
  {
    MixContext(q.history, c.bitIdx, c.prefix, q.matchLenBucket, q.matchPredictedClass)
  }

  function ExpertProbs(q: Query, c: Cursor): (r: seq<real>)
    requires QueryFits(q, |q.cdfs|) && c.range.lo <= c.range.hi <= BYTE_SYMBOLS
    ensures |r| == |q.cdfs|
  {
    seq(|q.cdfs|, i requires 0 <= i < |q.cdfs| => c.range.ProbOne(q.cdfs[i], q.minProb))
  }

  /** The mixer right after it predicted the bit at the cursor. */
  function Predicted(f: Curves, q: Query, s: CoreState, c: Cursor): (r: CoreState)
    requires WellFormed(s) && QueryFits(q, s.expertCount)
    requires c.bitIdx < BYTE_BITS && c.range.lo <= c.range.hi <= BYTE_SYMBOLS
    ensures WellFormed(r) && 0.0 < r.lastProbOne < 1.0 && r.expertCount == s.expertCount && r.lastValid
  {
    PredictBit(f, SetContext(s, ContextAt(q, c)), ExpertProbs(q, c), q.minProb)
  }

  lemma CanReadBit(c: Cursor, d: nat)
    requires CanRead(c, d) && d > 0
    ensures c.bitIdx < BYTE_BITS && c.range.lo <= c.range.hi <= BYTE_SYMBOLS
  {
  }

  lemma AdvanceCanRead(c: Cursor, bit: bool, d: nat)
    requires CanRead(c, d) && d > 0
    ensures CanRead(c.Advance(bit), d - 1)
  {
  }

  lemma CanReadRest(c: Cursor, bits: seq<bool>)
    requires CanRead(c, |bits|) && bits != []
    ensures c.bitIdx < BYTE_BITS && c.range.lo <= c.range.hi <= BYTE_SYMBOLS
    ensures CanRead(c.Advance(bits[0]), |bits[1..]|)
  {
    AdvanceCanRead(c, bits[0], |bits|);
  }

  /** The mixer as every later bit sees it: trained on `bit`, or left as it predicted. */
  function Next(f: Curves, q: Query, mode: ScoringMode, s: CoreState, c: Cursor, bit: bool): (r: CoreState)
    requires WellFormed(s) && QueryFits(q, s.expertCount)
    requires c.bitIdx < BYTE_BITS && c.range.lo <= c.range.hi <= BYTE_SYMBOLS
    ensures WellFormed(r) && r.expertCount == s.expertCount
  {
    var t := Predicted(f, q, s, c);
    if mode.Adaptive? then UpdateLast(t, bit) else t
  }

  /** The journal after the bit. */
  function NextUndo(f: Curves, q: Query, mode: ScoringMode, s: CoreState, u: UndoState, c: Cursor): UndoState
    requires WellFormed(s) && QueryFits(q, s.expertCount)
    requires c.bitIdx < BYTE_BITS && c.range.lo <= c.range.hi <= BYTE_SYMBOLS
  {
    if mode.Adaptive? then Journal(u, Predicted(f, q, s, c)) else u
  }

  /** The conditionals met on a walk, the mixer and the journal at its end. */
  datatype Walk = Walk(conditionals: seq<real>, core: CoreState, undo: UndoState)

  /** `score_path` up to the final product. */
  function WalkPath(f: Curves, q: Query, mode: ScoringMode, s: CoreState, u: UndoState, c: Cursor,
                    bits: seq<bool>): (w: Walk)
    requires WellFormed(s) && QueryFits(q, s.expertCount) && CanRead(c, |bits|)
    ensures WellFormed(w.core) && w.core.expertCount == s.expertCount
    decreases |bits|
  {
    if bits == [] then Walk([], s, u)
    else
      CanReadRest(c, bits);
      hide CanRead, Cursor.Advance, Predicted, Next, NextUndo, WellFormed;
      var p := BitProb(Predicted(f, q, s, c).lastProbOne, bits[0]);
      var rest := WalkPath(f, q, mode, Next(f, q, mode, s, c, bits[0]), NextUndo(f, q, mode, s, u, c),
                           c.Advance(bits[0]), bits[1..]);
      rest.(conditionals := [p] + rest.conditionals)
  }

  /** A walk is its first bit followed by the walk from the next cursor. */
  lemma WalkUnrolls(f: Curves, q: Query, mode: ScoringMode, s: CoreState, u: UndoState, c: Cursor, bits: seq<bool>)
    requires WellFormed(s) && QueryFits(q, s.expertCount) && CanRead(c, |bits|) && bits != []
    ensures CanRead(c.Advance(bits[0]), |bits| - 1)
    ensures var p := BitProb(Predicted(f, q, s, c).lastProbOne, bits[0]);
            var rest := WalkPath(f, q, mode, Next(f, q, mode, s, c, bits[0]), NextUndo(f, q, mode, s, u, c),
                                 c.Advance(bits[0]), bits[1..]);
            WalkPath(f, q, mode, s, u, c, bits) == rest.(conditionals := [p] + rest.conditionals)
  {
    AdvanceCanRead(c, bits[0], |bits|);
  }

  // ---------- The journal of a walk ----------

  lemma BitIsUndoable(f: Curves, q: Query, mode: ScoringMode, origin: CoreState, s: CoreState, u: UndoState,
                      c: Cursor, bit: bool)
    requires WellFormed(origin) && Undoes(origin, s, u) && QueryFits(q, s.expertCount)
    requires c.bitIdx < BYTE_BITS && c.range.lo <= c.range.hi <= BYTE_SYMBOLS
    ensures Undoes(origin, Next(f, q, mode, s, c, bit), NextUndo(f, q, mode, s, u, c))
  {
    var context, probs := ContextAt(q, c), ExpertProbs(q, c);
    CallIsUndoable(f, origin, s, u, SwitchContext(context));
    var op := if mode.Adaptive? then ObserveRecording(probs, q.minProb, bit) else Predict(probs, q.minProb);
    CallIsUndoable(f, origin, SetContext(s, context), u, op);
  }

  /** A walk, in either mode, stays undoable to the state where its journal began. */
  lemma {:induction false} WalkIsUndoable(f: Curves, q: Query, mode: ScoringMode, origin: CoreState, s: CoreState,
                                          u: UndoState, c: Cursor, bits: seq<bool>)
    requires WellFormed(origin) && Undoes(origin, s, u)
    requires QueryFits(q, s.expertCount) && CanRead(c, |bits|)
    ensures var w := WalkPath(f, q, mode, s, u, c, bits);
            Undoes(origin, w.core, w.undo)
    decreases |bits|
  {
    hide WellFormed, QueryFits, Predicted, Next, NextUndo, Undoes;
    if bits != [] {
      CanReadBit(c, |bits|);
      hide WalkPath, CanRead, Cursor.Advance;
      UndoesIsWellFormed(origin, s, u);
      BitIsUndoable(f, q, mode, origin, s, u, c, bits[0]);
      WalkUnrolls(f, q, mode, s, u, c, bits);
      WalkIsUndoable(f, q, mode, origin, Next(f, q, mode, s, c, bits[0]), NextUndo(f, q, mode, s, u, c),
                     c.Advance(bits[0]), bits[1..]);
    }
  }

  lemma UndoesIsWellFormed(origin: CoreState, s: CoreState, u: UndoState)
    requires WellFormed(origin) && Undoes(origin, s, u)
    ensures WellFormed(s)
  {
  }

  function RowsPerBit(mode: ScoringMode): nat
  {
    if mode.Adaptive? then CONTEXTS else 0
  }

  /** How many values one bit journals. */
  function ValuesPerBit(mode: ScoringMode, n: nat): nat
  {
    if mode.Adaptive? then CONTEXTS * n else 0
  }

  /** From `u` to `v` the journal grew by so many entries and saved values. */
  predicate Grew(u: UndoState, v: UndoState, entries: nat, values: nat)
  {
    |v.entries| == |u.entries| + entries && |v.values| == |u.values| + values
  }

  lemma GrewStep(u: UndoState, v: UndoState, w: UndoState, steps: nat, entries: nat, values: nat)
    requires steps > 0 && Grew(u, v, entries, values)
    requires Grew(v, w, Offset(steps - 1, entries), Offset(steps - 1, values))
    ensures Grew(u, w, Offset(steps, entries), Offset(steps, values))
  {
  }

  lemma BitJournalSize(f: Curves, q: Query, mode: ScoringMode, s: CoreState, u: UndoState, c: Cursor)
    requires WellFormed(s) && QueryFits(q, s.expertCount) && s.expertCount > 0
    requires c.bitIdx < BYTE_BITS && c.range.lo <= c.range.hi <= BYTE_SYMBOLS
    ensures Grew(u, NextUndo(f, q, mode, s, u, c), RowsPerBit(mode), ValuesPerBit(mode, s.expertCount))
  {
    hide Predicted;
    if mode.Adaptive? {
      JournalGrows(u, Predicted(f, q, s, c), CONTEXTS);
      OffsetIsProduct(CONTEXTS, s.expertCount);
    }
  }

  /** An adaptive walk journals 6 entries and 6 rows of n values per bit; a frozen walk journals nothing. */
  lemma {:induction false} JournalSize(f: Curves, q: Query, mode: ScoringMode, s: CoreState, u: UndoState, c: Cursor,
                                       bits: seq<bool>, rows: nat, values: nat)
    requires WellFormed(s) && QueryFits(q, s.expertCount) && CanRead(c, |bits|) && s.expertCount > 0
    requires rows == RowsPerBit(mode) && values == ValuesPerBit(mode, s.expertCount)
    ensures Grew(u, WalkPath(f, q, mode, s, u, c, bits).undo, Offset(|bits|, rows), Offset(|bits|, values))
    decreases |bits|
  {
    hide *;
    if bits == [] {
      EmptyJournal(f, q, mode, s, u, c, rows, values);
    } else {
      CanReadBit(c, |bits|);
      WalkUnrolls(f, q, mode, s, u, c, bits);
      var next, v := Next(f, q, mode, s, c, bits[0]), NextUndo(f, q, mode, s, u, c);
      BitJournalSize(f, q, mode, s, u, c);
      JournalSize(f, q, mode, next, v, c.Advance(bits[0]), bits[1..], rows, values);
      GrewStep(u, v, WalkPath(f, q, mode, s, u, c, bits).undo, |bits|, rows, values);
    }
  }

  lemma EmptyJournal(f: Curves, q: Query, mode: ScoringMode, s: CoreState, u: UndoState, c: Cursor, rows: nat,
                     values: nat)
    requires WellFormed(s) && QueryFits(q, s.expertCount) && CanRead(c, 0)
    ensures Grew(u, WalkPath(f, q, mode, s, u, c, []).undo, Offset(0, rows), Offset(0, values))
  {
  }

  // ---------- The scores form a distribution ----------

  /** The tree of all conditionals reachable from a cursor: each depends on the bits read so far only. */
  function ConditionalTree(f: Curves, q: Query, mode: ScoringMode, s: CoreState, c: Cursor, d: nat): (t: Tree)
    requires WellFormed(s) && QueryFits(q, s.expertCount) && CanRead(c, d)
    ensures Full(t, d)
    decreases d, s.expertCount
  {
    hide WellFormed, QueryFits, CanRead, Cursor.Advance, Predicted, Next, Pow2;
    if d == 0 then Leaf
    else
      CanReadBit(c, d);
      AdvanceCanRead(c, false, d);
      AdvanceCanRead(c, true, d);
      Node(Predicted(f, q, s, c).lastProbOne,
           ConditionalTree(f, q, mode, Next(f, q, mode, s, c, false), c.Advance(false), d - 1),
           ConditionalTree(f, q, mode, Next(f, q, mode, s, c, true), c.Advance(true), d - 1))
  }

  lemma {:induction false} TreeIsProper(f: Curves, q: Query, mode: ScoringMode, s: CoreState, c: Cursor, d: nat)
    requires WellFormed(s) && QueryFits(q, s.expertCount) && CanRead(c, d)
    ensures Proper(ConditionalTree(f, q, mode, s, c, d))
    decreases d
  {
    hide WellFormed, QueryFits, Next, Pow2;
    if d > 0 {
      CanReadBit(c, d);
      AdvanceCanRead(c, false, d);
      AdvanceCanRead(c, true, d);
      hide CanRead, Cursor.Advance, Predicted;
      TreeIsProper(f, q, mode, Next(f, q, mode, s, c, false), c.Advance(false), d - 1);
      TreeIsProper(f, q, mode, Next(f, q, mode, s, c, true), c.Advance(true), d - 1);
    }
  }

  /** Every walk meets the conditionals of the tree. */
  lemma {:induction false} WalkFollowsTree(f: Curves, q: Query, mode: ScoringMode, s: CoreState, u: UndoState,
                                           c: Cursor, bits: seq<bool>)
    requires WellFormed(s) && QueryFits(q, s.expertCount) && CanRead(c, |bits|)
    ensures WalkPath(f, q, mode, s, u, c, bits).conditionals
         == Conditionals(ConditionalTree(f, q, mode, s, c, |bits|), bits)
    decreases |bits|
  {
    if bits != [] {
      AdvanceCanRead(c, bits[0], |bits|);
      WalkFollowsTree(f, q, mode, Next(f, q, mode, s, c, bits[0]), NextUndo(f, q, mode, s, u, c),
                      c.Advance(bits[0]), bits[1..]);
    }
  }

  /** The mixer's distribution over the completions of a cursor; over bytes at `START`. */
  function Pdf(f: Curves, q: Query, mode: ScoringMode, s: CoreState, c: Cursor, d: nat): (r: seq<real>)
    requires WellFormed(s) && QueryFits(q, s.expertCount) && CanRead(c, d)
    ensures |r| == Pow2(d)
  {
    Masses(ConditionalTree(f, q, mode, s, c, d), d)
  }

  /** The product a walk accumulates is its symbol's entry of the distribution, whatever the journal held. */
  lemma ScoreIsPdfEntry(f: Curves, q: Query, mode: ScoringMode, s: CoreState, u: UndoState, c: Cursor, d: nat,
                        symbol: nat)
    requires WellFormed(s) && QueryFits(q, s.expertCount) && CanRead(c, d) && symbol < Pow2(d)
    ensures Product(WalkPath(f, q, mode, s, u, c, BitsOf(symbol, d)).conditionals) == Pdf(f, q, mode, s, c, d)[symbol]
  {
    WalkFollowsTree(f, q, mode, s, u, c, BitsOf(symbol, d));
    MassIsProduct(ConditionalTree(f, q, mode, s, c, d), d, symbol);
  }

  /** The scores are positive and sum to 1 before any normalisation, in both modes and for every mixer state. */
  lemma PdfIsDistribution(f: Curves, q: Query, mode: ScoringMode, s: CoreState, c: Cursor, d: nat)
    requires WellFormed(s) && QueryFits(q, s.expertCount) && CanRead(c, d)
    ensures Sum(Pdf(f, q, mode, s, c, d)) == 1.0
    ensures forall v :: 0 <= v < Pow2(d) ==> Pdf(f, q, mode, s, c, d)[v] > 0.0
  {
    var tree := ConditionalTree(f, q, mode, s, c, d);
    MassesSumToOne(tree, d);
    TreeIsProper(f, q, mode, s, c, d);
    forall v | 0 <= v < Pow2(d) ensures Masses(tree, d)[v] > 0.0 {
      MassPositive(tree, d, v);
    }
  }

  // ---------- Frozen scores depend only on the parameters ----------

  /** Same fitted parameters, possibly different context and caches. */
  predicate SameParameters(s: CoreState, t: CoreState)
  {
    s.tables == t.tables && s.expertCount == t.expertCount && s.learningRate == t.learningRate
  }

  lemma FrozenBit(f: Curves, q: Query, s: CoreState, t: CoreState, c: Cursor, bit: bool)
    requires WellFormed(s) && WellFormed(t) && Coherent(s) && Coherent(t)
    requires SameParameters(s, t) && QueryFits(q, s.expertCount)
    requires c.bitIdx < BYTE_BITS && c.range.lo <= c.range.hi <= BYTE_SYMBOLS
    ensures Predicted(f, q, s, c).lastProbOne == Predicted(f, q, t, c).lastProbOne
    ensures var next := Next(f, q, Frozen, s, c, bit);
            Coherent(next) && SameParameters(next, s)
  {
  }

  /** Frozen conditionals are a function of the fitted parameters: earlier walks cannot disturb later ones. */
  lemma TreeUnrolls(f: Curves, q: Query, mode: ScoringMode, s: CoreState, c: Cursor, d: nat)
    requires WellFormed(s) && QueryFits(q, s.expertCount) && CanRead(c, d) && d > 0
    ensures CanRead(c.Advance(false), d - 1) && CanRead(c.Advance(true), d - 1)
    ensures ConditionalTree(f, q, mode, s, c, d)
         == Node(Predicted(f, q, s, c).lastProbOne,
                 ConditionalTree(f, q, mode, Next(f, q, mode, s, c, false), c.Advance(false), d - 1),
                 ConditionalTree(f, q, mode, Next(f, q, mode, s, c, true), c.Advance(true), d - 1))
  {
    AdvanceCanRead(c, false, d);
    AdvanceCanRead(c, true, d);
  }

  lemma {:induction false} FrozenTree(f: Curves, q: Query, s: CoreState, t: CoreState, c: Cursor, d: nat)
    requires WellFormed(s) && WellFormed(t) && Coherent(s) && Coherent(t)
    requires SameParameters(s, t) && QueryFits(q, s.expertCount) && CanRead(c, d)
    ensures ConditionalTree(f, q, Frozen, s, c, d) == ConditionalTree(f, q, Frozen, t, c, d)
    decreases d
  {
    hide WellFormed, QueryFits, Coherent, Predicted, Next;
    if d > 0 {
      CanReadBit(c, d);
      hide ConditionalTree, CanRead, Cursor.Advance;
      TreeUnrolls(f, q, Frozen, s, c, d);
      TreeUnrolls(f, q, Frozen, t, c, d);
      FrozenBit(f, q, s, t, c, false);
      FrozenBit(f, q, t, s, c, false);
      FrozenTree(f, q, Next(f, q, Frozen, s, c, false), Next(f, q, Frozen, t, c, false), c.Advance(false), d - 1);
      FrozenBit(f, q, s, t, c, true);
      FrozenBit(f, q, t, s, c, true);
      FrozenTree(f, q, Next(f, q, Frozen, s, c, true), Next(f, q, Frozen, t, c, true), c.Advance(true), d - 1);
    }
  }

  /** The mixer kept its parameters and coherent indices. */
  predicate Kept(t: CoreState, s: CoreState)
  {
    Coherent(t) && SameParameters(t, s)
  }

  lemma KeptTwice(r: CoreState, t: CoreState, s: CoreState)
    requires Kept(r, t) && Kept(t, s)
    ensures Kept(r, s)
  {
    hide Coherent;
  }

  lemma KeptParts(t: CoreState, s: CoreState)
    requires Kept(t, s)
    ensures Coherent(t) && t.expertCount == s.expertCount
  {
    hide Coherent;
  }

  lemma KeptByBit(f: Curves, q: Query, s: CoreState, c: Cursor, bit: bool)
    requires WellFormed(s) && Coherent(s) && QueryFits(q, s.expertCount)
    requires c.bitIdx < BYTE_BITS && c.range.lo <= c.range.hi <= BYTE_SYMBOLS
    ensures Kept(Next(f, q, Frozen, s, c, bit), s)
  {
    hide Next, WellFormed, Coherent, QueryFits;
    SelfParameters(s);
    FrozenBit(f, q, s, s, c, bit);
  }

  lemma SelfParameters(s: CoreState)
    ensures SameParameters(s, s)
  {
  }

  lemma NoBitsKeep(f: Curves, q: Query, s: CoreState, u: UndoState, c: Cursor)
    requires WellFormed(s) && Coherent(s) && QueryFits(q, s.expertCount) && CanRead(c, 0)
    ensures var w := WalkPath(f, q, Frozen, s, u, c, []);
            Kept(w.core, s) && w.undo == u
  {
  }

  lemma FrozenUndo(f: Curves, q: Query, s: CoreState, u: UndoState, c: Cursor)
    requires WellFormed(s) && QueryFits(q, s.expertCount)
    requires c.bitIdx < BYTE_BITS && c.range.lo <= c.range.hi <= BYTE_SYMBOLS
    ensures NextUndo(f, q, Frozen, s, u, c) == u
  {
  }

  /** A frozen walk changes no parameter and no journal. */
  lemma {:induction false} FrozenWalkKeepsParameters(f: Curves, q: Query, s: CoreState, u: UndoState, c: Cursor,
                                                     bits: seq<bool>)
    requires WellFormed(s) && Coherent(s) && QueryFits(q, s.expertCount) && CanRead(c, |bits|)
    ensures var w := WalkPath(f, q, Frozen, s, u, c, bits);
            Kept(w.core, s) && w.undo == u
    decreases |bits|
  {
    hide *;
    if bits == [] {
      NoBitsKeep(f, q, s, u, c);
    } else {
      CanReadBit(c, |bits|);
      WalkUnrolls(f, q, Frozen, s, u, c, bits);
      var next := Next(f, q, Frozen, s, c, bits[0]);
      KeptByBit(f, q, s, c, bits[0]);
      KeptParts(next, s);
      FrozenUndo(f, q, s, u, c);
      FrozenWalkKeepsParameters(f, q, next, u, c.Advance(bits[0]), bits[1..]);
      KeptTwice(WalkPath(f, q, Frozen, next, u, c.Advance(bits[0]), bits[1..]).core, next, s);
    }
  }
}
