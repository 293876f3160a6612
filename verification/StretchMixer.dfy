/** The stretch-domain logistic mixer as a state machine on values: prediction, training,
    and the undo journal. The classes in `StretchMixerCore` are proved against it. */
module StretchMixer {
  import opened RealMath
  import opened ContextHash

  const CONTEXTS: nat := 6
  const TABLE_SIZES: seq<nat> := [1, 256, 4096, 4096, 1024, 2048]
  const STRETCH_CLIP := 16.0
  const WEIGHT_CLIP := 16.0

  datatype MixContext = MixContext(
    history: History, bitIdx: byte, prefix: u16, matchLenBucket: byte, matchPredictedClass: byte)

  const DEFAULT_CONTEXT := MixContext(EMPTY_HISTORY, 0, 0, 0, 0)

  datatype CoreState = CoreState(
    tables: seq<seq<real>>,
    learningRate: real,
    expertCount: nat,
    context: MixContext,
    contextIndices: seq<nat>,
    expertStretches: seq<real>,
    lastProbOne: real,
    lastValid: bool)

  datatype JournalEntry = JournalEntry(tableIdx: nat, start: nat, valuesStart: nat, valuesLen: nat)

  datatype UndoState = UndoState(
    entries: seq<JournalEntry>,
    values: seq<real>,
    savedContext: MixContext,
    savedContextIndices: seq<nat>,
    savedExpertStretches: seq<real>,
    savedLastProbOne: real,
    savedLastValid: bool,
    active: bool)

  // ---------- Context selection ----------

  /** The rows a context selects: the global one, the previous byte's own, and four hashed ones. */
  function ContextIndices(c: MixContext): (r: seq<nat>)
    ensures IndicesInRange(r)
    ensures r[0] == 0 && r[1] == if c.history.hasHistory then c.history.prev1 else 0
    ensures !c.history.hasHistory ==> r[2] == r[3] == 0
  {
    var h := c.history;
    var prefixLo: byte := c.prefix % 256;
    var prefixHi: byte := c.prefix / 256;
    if !h.hasHistory then
      [ 0, 0, 0, 0,
        HashFields([c.matchLenBucket, c.matchPredictedClass, c.bitIdx, prefixLo, prefixHi], TABLE_SIZES[4]),
        HashFields([c.bitIdx, prefixLo, prefixHi], TABLE_SIZES[5]) ]
    else
      [ 0,
        h.prev1,
        HashFields([h.prev2, h.prev1], TABLE_SIZES[2]),
        HashFields([h.prev1Class, h.prev2Class, h.wordLenBucket, h.prevWordClass, h.bracketBucket,
                    h.quoteFlags, h.utf8Left, Flag(h.sentenceBoundary), Flag(h.paragraphBreak)], TABLE_SIZES[3]),
        HashFields([h.repeatLenBucket, Flag(h.copiedLastByte), Capped(h.runLen, 63),
                    c.matchLenBucket, c.matchPredictedClass], TABLE_SIZES[4]),
        HashFields([c.bitIdx, prefixLo, prefixHi, h.prev1, h.prev2, h.prev1Class, h.prev2Class,
                    h.wordLenBucket], TABLE_SIZES[5]) ]
  }

  /** The same bit of a byte, under the same match state. */
  predicate SameBit(c: MixContext, d: MixContext)
  {
    c.bitIdx == d.bitIdx && c.prefix == d.prefix && SameMatch(c, d)
  }

  predicate SameMatch(c: MixContext, d: MixContext)
  {
    c.matchLenBucket == d.matchLenBucket && c.matchPredictedClass == d.matchPredictedClass
  }

  /** Before there is a history, what the history record holds selects nothing. */
  lemma NoHistorySelectsNothing(c: MixContext, d: MixContext)
    requires !c.history.hasHistory && !d.history.hasHistory && SameBit(c, d)
    ensures ContextIndices(c) == ContextIndices(d)
  {
  }

  /** Which parts of the context each hashed row can depend on: the last two bytes; the text state; repetition and
      match; the bit with its nearest text. */
  lemma RowsDependOn(c: MixContext, d: MixContext)
    requires c.history.hasHistory && d.history.hasHistory
    ensures var (g, h) := (c.history, d.history);
            var samePair := g.prev1 == h.prev1 && g.prev2 == h.prev2;
            var sameClasses := g.prev1Class == h.prev1Class && g.prev2Class == h.prev2Class;
            var sameWord := g.wordLenBucket == h.wordLenBucket;
            && (samePair ==> ContextIndices(c)[2] == ContextIndices(d)[2])
            && (sameClasses && sameWord && g.prevWordClass == h.prevWordClass && g.bracketBucket == h.bracketBucket
                && g.quoteFlags == h.quoteFlags && g.utf8Left == h.utf8Left
                && g.sentenceBoundary == h.sentenceBoundary && g.paragraphBreak == h.paragraphBreak
                ==> ContextIndices(c)[3] == ContextIndices(d)[3])
            && (g.repeatLenBucket == h.repeatLenBucket && g.copiedLastByte == h.copiedLastByte && SameMatch(c, d)
                && (g.runLen == h.runLen || (g.runLen >= 63 && h.runLen >= 63))
                ==> ContextIndices(c)[4] == ContextIndices(d)[4])
            && (c.bitIdx == d.bitIdx && c.prefix == d.prefix && samePair && sameClasses && sameWord
                ==> ContextIndices(c)[5] == ContextIndices(d)[5])
  {
    hide HashFrom;
  }

  predicate IndicesInRange(indices: seq<nat>)
  {
    |indices| == CONTEXTS && forall k :: 0 <= k < CONTEXTS ==> indices[k] < TABLE_SIZES[k]
  }

  // ---------- Well-formed states ----------

  predicate Shaped(tables: seq<seq<real>>, n: nat)
  {
    |tables| == CONTEXTS && forall k :: 0 <= k < CONTEXTS ==> |tables[k]| == Offset(TABLE_SIZES[k], n)
  }

  /** Every weight lies inside the clip. */
  predicate Clipped(tables: seq<seq<real>>)
  {
    forall k, j :: 0 <= k < |tables| && 0 <= j < |tables[k]| ==> -WEIGHT_CLIP <= tables[k][j] <= WEIGHT_CLIP
  }

  predicate WellFormed(s: CoreState)
  {
    && Shaped(s.tables, s.expertCount)
    && IndicesInRange(s.contextIndices)
    && |s.expertStretches| == s.expertCount
  }

  /** The cached row indices are the ones the stored context selects. */
  predicate Coherent(s: CoreState)
  {
    s.contextIndices == ContextIndices(s.context)
  }

  predicate Valid(s: CoreState)
  {
    WellFormed(s) && Coherent(s) && Clipped(s.tables)
  }


  function Row(tables: seq<seq<real>>, indices: seq<nat>, n: nat, k: nat): (r: seq<real>)
    requires Shaped(tables, n) && IndicesInRange(indices) && k < CONTEXTS
    ensures Offset(indices[k], n) + n <= |tables[k]|
    ensures |r| == n
  {
    OffsetFits(indices[k], TABLE_SIZES[k], n);
    tables[k][Offset(indices[k], n)..Offset(indices[k], n) + n]
  }

  // ---------- Construction ----------

  /** The global row: the expert priors, floored at zero and clipped. */
  function PriorRow(priors: seq<real>): (r: seq<real>)
    ensures |r| == |priors|
  {
    seq(|priors|, i requires 0 <= i < |priors| => ClipWeight(Max(priors[i], 0.0)))
  }

  /** Tables of zeros whose first row of the first table holds the priors. */
  predicate PriorTables(tables: seq<seq<real>>, priors: seq<real>)
  {
    && Shaped(tables, |priors|)
    && |priors| <= |tables[0]| && tables[0][..|priors|] == PriorRow(priors)
    && (forall k, j :: 0 <= k < CONTEXTS && 0 <= j < |tables[k]| ==> (k == 0 && j < |priors|) || tables[k][j] == 0.0)
  }

  /** A mixer as `new` and `reset_to_priors` leave it. */
  predicate Initial(s: CoreState, priors: seq<real>, learningRate: real)
  {
    && s.expertCount == |priors|
    && PriorTables(s.tables, priors)
    && s == CoreState(s.tables, learningRate, |priors|, DEFAULT_CONTEXT, ContextIndices(DEFAULT_CONTEXT),
                      Zeros(|priors|), 0.5, false)
  }

  // ---------- Operations ----------

  function SetContext(s: CoreState, context: MixContext): CoreState
  {
    if s.context == context then s
    else s.(context := context, contextIndices := ContextIndices(context), lastValid := false)
  }

  /** The nonlinearities, as parameters. `LogisticCurves` below are the ones the code computes. */
  datatype Curves = Curves(stretch: real -> real, squash: real -> real)

  /** All that the mixer needs of `squash`: a larger score never gives a smaller probability. */
  ghost predicate SquashFacts(f: Curves)
  {
    forall x, y :: x <= y ==> f.squash(x) <= f.squash(y)
  }

  function Stretch(ln: real -> real, p: real): real
    requires p != 1.0
  {
    ln(p / (1.0 - p))
  }

  function Squash(exp: real -> real, score: real): (p: real)
    requires ExpFacts(exp)
  {
    var x := Clamp(score, -64.0, 64.0);
    if x >= 0.0 then Upper(exp(-x)) else Lower(exp(x))
  }

  /** The two quotients of the logistic function: over `exp` of the negated score, and of the score. */
  function Upper(z: real): real
    requires z > 0.0
  {
    1.0 / (1.0 + z)
  }

  function Lower(z: real): real
    requires z > 0.0
  {
    z / (1.0 + z)
  }

  /** The curves of the code, over its `exp` and `ln`. */
  function LogisticCurves(exp: real -> real, ln: real -> real): Curves
    requires ExpFacts(exp)
  {
    Curves(p => if p == 1.0 then 0.0 else Stretch(ln, p), x => Squash(exp, x))
  }

  function StretchProbability(f: Curves, prob: real, floor: real): real
    requires 0.0 < floor <= 0.49
  {
    f.stretch(Clamp(prob, floor, 1.0 - floor))
  }

  function ClippedStretch(f: Curves, prob: real, floor: real): (x: real)
    requires 0.0 < floor <= 0.49
    ensures -STRETCH_CLIP <= x <= STRETCH_CLIP
  {
    Clamp(StretchProbability(f, prob, floor), -STRETCH_CLIP, STRETCH_CLIP)
  }

  function Stretches(f: Curves, probs: seq<real>, floor: real): (r: seq<real>)
    requires 0.0 < floor <= 0.49
    ensures |r| == |probs|
  {
    seq(|probs|, i requires 0 <= i < |probs| => ClippedStretch(f, probs[i], floor))
  }

  /** The score accumulated over the first `k` selected rows. */
  function ScoreTo(tables: seq<seq<real>>, indices: seq<nat>, n: nat, stretches: seq<real>, k: nat): real
    requires Shaped(tables, n) && IndicesInRange(indices) && |stretches| == n && k <= CONTEXTS
  {
    if k == 0 then 0.0
    else ScoreTo(tables, indices, n, stretches, k - 1) + Dot(Row(tables, indices, n, k - 1), stretches)
  }

  function ProbOne(f: Curves, tables: seq<seq<real>>, indices: seq<nat>, stretches: seq<real>, floor: real): (p: real)
    requires 0.0 < floor <= 0.49
    requires Shaped(tables, |stretches|) && IndicesInRange(indices)
    ensures floor <= p <= 1.0 - floor
  {
    Clamp(f.squash(ScoreTo(tables, indices, |stretches|, stretches, CONTEXTS)), floor, 1.0 - floor)
  }

  /** `predict_bit`: the returned probability is left in `lastProbOne`. */
  function PredictBit(f: Curves, s: CoreState, probs: seq<real>, minProb: real): (r: CoreState)
    requires WellFormed(s) && |probs| == s.expertCount
    ensures WellFormed(r) && 0.0 < r.lastProbOne < 1.0 && r.lastValid
  {
    if s.expertCount == 0 then s.(lastProbOne := 0.5, lastValid := true)
    else
      var floor := ProbFloor(minProb);
      var stretches := Stretches(f, probs, floor);
      s.(expertStretches := stretches,
         lastProbOne := ProbOne(f, s.tables, s.contextIndices, stretches, floor),
         lastValid := true)
  }

  function ClipWeight(w: real): (r: real)
    ensures -WEIGHT_CLIP <= r <= WEIGHT_CLIP
  {
    Clamp(w, -WEIGHT_CLIP, WEIGHT_CLIP)
  }

  function TrainWeight(w: real, stretch: real, step: real): (r: real)
    ensures -WEIGHT_CLIP <= r <= WEIGHT_CLIP
  {
    ClipWeight(w + step * stretch)
  }

  function TrainRow(row: seq<real>, stretches: seq<real>, step: real): (r: seq<real>)
    requires |row| == |stretches|
    ensures |r| == |row|
    ensures forall i :: 0 <= i < |r| ==> r[i] == TrainWeight(row[i], stretches[i], step)
  {
    seq(|row|, i requires 0 <= i < |row| => TrainWeight(row[i], stretches[i], step))
  }

  /** One context's row taking its gradient step. */
  function TrainOne(tables: seq<seq<real>>, indices: seq<nat>, stretches: seq<real>, step: real,
                    k: nat): (r: seq<seq<real>>)
    requires Shaped(tables, |stretches|) && IndicesInRange(indices) && k < CONTEXTS
    ensures Shaped(r, |stretches|)
    ensures forall j :: 0 <= j < CONTEXTS && j != k ==> r[j] == tables[j]
  {
    var row := Row(tables, indices, |stretches|, k);
    tables[k := Splice(tables[k], Offset(indices[k], |stretches|), TrainRow(row, stretches, step))]
  }

  /** The tables after the rows of the first `k` contexts have taken their gradient step. */
  function TrainTo(tables: seq<seq<real>>, indices: seq<nat>, stretches: seq<real>, step: real,
                   k: nat): (r: seq<seq<real>>)
    requires Shaped(tables, |stretches|) && IndicesInRange(indices) && k <= CONTEXTS
    ensures Shaped(r, |stretches|)
    ensures forall j :: k <= j < CONTEXTS ==> r[j] == tables[j]
  {
    if k == 0 then tables
    else TrainOne(TrainTo(tables, indices, stretches, step, k - 1), indices, stretches, step, k - 1)
  }

  function Step(s: CoreState, bit: bool): real
  {
    s.learningRate * ((if bit then 1.0 else 0.0) - s.lastProbOne) / 6.0
  }

  /** `update_last`: one gradient step on the last predicted bit. */
  function UpdateLast(s: CoreState, bit: bool): (r: CoreState)
    requires WellFormed(s)
    ensures WellFormed(r)
  {
    if !s.lastValid || s.expertCount == 0 then s
    else s.(tables := TrainTo(s.tables, s.contextIndices, s.expertStretches, Step(s, bit), CONTEXTS),
            lastValid := false)
  }

  // ---------- The undo journal ----------

  function BeginUndo(s: CoreState): UndoState
  {
    UndoState([], [], s.context, s.contextIndices, s.expertStretches, s.lastProbOne, s.lastValid, true)
  }

  /** The journal after saving the row that context `k` selects. */
  function RecordRow(u: UndoState, s: CoreState, k: nat): UndoState
    requires WellFormed(s) && k < CONTEXTS
  {
    u.(entries := u.entries + [JournalEntry(k, Offset(s.contextIndices[k], s.expertCount), |u.values|, s.expertCount)],
       values := u.values + Row(s.tables, s.contextIndices, s.expertCount, k))
  }

  /** The journal after the rows of the first `k` contexts have been saved. */
  function JournalTo(u: UndoState, s: CoreState, k: nat): (r: UndoState)
    requires WellFormed(s) && k <= CONTEXTS
  {
    if k == 0 then u else RecordRow(JournalTo(u, s, k - 1), s, k - 1)
  }

  /** What `update_last_recording_undo` adds to the journal. */
  function Journal(u: UndoState, s: CoreState): UndoState
    requires WellFormed(s)
  {
    if !s.lastValid || s.expertCount == 0 then u else JournalTo(u, s, CONTEXTS)
  }

  /** An entry points inside the tables and inside the saved values. */
  predicate EntryFits(e: JournalEntry, tables: seq<seq<real>>, valueCount: nat)
  {
    && e.tableIdx < |tables|
    && e.start + e.valuesLen <= |tables[e.tableIdx]|
    && e.valuesStart + e.valuesLen <= valueCount
  }

  predicate JournalFits(entries: seq<JournalEntry>, tables: seq<seq<real>>, valueCount: nat)
  {
    forall i :: 0 <= i < |entries| ==> EntryFits(entries[i], tables, valueCount)
  }

  function RestoreEntry(e: JournalEntry, values: seq<real>, tables: seq<seq<real>>): (r: seq<seq<real>>)
    requires EntryFits(e, tables, |values|)
    ensures |r| == |tables| && forall k :: 0 <= k < |r| ==> |r[k]| == |tables[k]|
  {
    tables[e.tableIdx := Splice(tables[e.tableIdx], e.start, values[e.valuesStart..e.valuesStart + e.valuesLen])]
  }

  /** The tables after copying the saved rows back, latest entry first. */
  function Replay(entries: seq<JournalEntry>, values: seq<real>, tables: seq<seq<real>>): (r: seq<seq<real>>)
    requires JournalFits(entries, tables, |values|)
    ensures |r| == |tables| && forall k :: 0 <= k < |r| ==> |r[k]| == |tables[k]|
  {
    if entries == [] then tables
    else
      var last := |entries| - 1;
      Replay(entries[..last], values, RestoreEntry(entries[last], values, tables))
  }

  function RestoreCore(s: CoreState, u: UndoState): CoreState
    requires JournalFits(u.entries, s.tables, |u.values|)
  {
    s.(tables := Replay(u.entries, u.values, s.tables),
       context := u.savedContext,
       contextIndices := u.savedContextIndices,
       expertStretches := u.savedExpertStretches,
       lastProbOne := u.savedLastProbOne,
       lastValid := u.savedLastValid)
  }

  function RestoredUndo(u: UndoState): UndoState
  {
    u.(entries := [], values := [], active := false)
  }
}
