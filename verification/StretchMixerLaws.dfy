/** What the stretch mixer's operations guarantee across whole runs: the undo journal is exact,
    training never hurts the observed bit, and every operation keeps the state valid. */
module StretchMixerLaws {
  import opened RealMath
  import opened StretchMixer

  // ---------- Preservation ----------

  /** A fresh or reset mixer is valid, and the priors determine it completely. */
  lemma InitialIsValid(s: CoreState, t: CoreState, priors: seq<real>, learningRate: real)
    requires Initial(s, priors, learningRate)
    ensures Valid(s)
    ensures Initial(t, priors, learningRate) ==> t == s
  {
    forall k, j | 0 <= k < |s.tables| && 0 <= j < |s.tables[k]|
      ensures -WEIGHT_CLIP <= s.tables[k][j] <= WEIGHT_CLIP
    {
      if k == 0 && j < |priors| { assert s.tables[0][..|priors|][j] == PriorRow(priors)[j]; }
    }
    if Initial(t, priors, learningRate) {
      forall k | 0 <= k < CONTEXTS ensures s.tables[k] == t.tables[k] {
        if k == 0 {
          assert s.tables[0] == s.tables[0][..|priors|] + s.tables[0][|priors|..];
          assert t.tables[0] == t.tables[0][..|priors|] + t.tables[0][|priors|..];
        }
      }
    }
  }

  lemma ContextKeepsValid(s: CoreState, context: MixContext)
    requires Valid(s)
    ensures Valid(SetContext(s, context))
    ensures SetContext(s, context).contextIndices == ContextIndices(context)
  {
  }

  /** A prediction trains at most once, and only in the context it was made in. */
  lemma PredictionsTrainOnce(s: CoreState, context: MixContext, bit: bool, again: bool)
    requires WellFormed(s)
    ensures context != s.context ==> UpdateLast(SetContext(s, context), bit) == SetContext(s, context)
    ensures UpdateLast(UpdateLast(s, bit), again) == UpdateLast(s, bit)
  {
    hide TrainTo, ContextIndices;
  }

  lemma {:induction false} TrainKeepsClipped(tables: seq<seq<real>>, indices: seq<nat>, stretches: seq<real>,
                                             step: real, k: nat)
    requires Shaped(tables, |stretches|) && IndicesInRange(indices) && k <= CONTEXTS
    requires Clipped(tables)
    ensures Clipped(TrainTo(tables, indices, stretches, step, k))
  {
    if k > 0 {
      TrainKeepsClipped(tables, indices, stretches, step, k - 1);
      var prev := TrainTo(tables, indices, stretches, step, k - 1);
      var next := TrainTo(tables, indices, stretches, step, k);
      forall c, j | 0 <= c < |next| && 0 <= j < |next[c]|
        ensures -WEIGHT_CLIP <= next[c][j] <= WEIGHT_CLIP
      {
        if c != k - 1 { assert next[c] == prev[c]; }
      }
    }
  }

  lemma UpdateKeepsValid(s: CoreState, bit: bool)
    requires Valid(s)
    ensures Valid(UpdateLast(s, bit))
  {
    if s.lastValid && s.expertCount != 0 {
      TrainKeepsClipped(s.tables, s.contextIndices, s.expertStretches, Step(s, bit), CONTEXTS);
    }
  }

  // ---------- What one update changes ----------

  /** Row `idx` of context `k`'s table. */
  function RowOf(tables: seq<seq<real>>, n: nat, k: nat, idx: nat): (r: seq<real>)
    requires Shaped(tables, n) && k < CONTEXTS && idx < TABLE_SIZES[k]
    ensures |r| == n
  {
    OffsetFits(idx, TABLE_SIZES[k], n);
    tables[k][Offset(idx, n)..Offset(idx, n) + n]
  }

  lemma TrainOneRowOf(tables: seq<seq<real>>, indices: seq<nat>, stretches: seq<real>, step: real, c: nat, k: nat,
                      idx: nat)
    requires Shaped(tables, |stretches|) && IndicesInRange(indices) && c < CONTEXTS && k < CONTEXTS
    requires idx < TABLE_SIZES[k]
    ensures var row := RowOf(tables, |stretches|, k, idx);
            RowOf(TrainOne(tables, indices, stretches, step, c), |stretches|, k, idx)
            == if c == k && idx == indices[k] then TrainRow(row, stretches, step) else row
  {
    var n := |stretches|;
    OffsetFits(idx, TABLE_SIZES[k], n);
    OffsetFits(indices[k], TABLE_SIZES[k], n);
    hide Offset, TrainRow;
    if c == k {
      SplicedRows(tables[k], indices[k], n, TrainRow(RowOf(tables, n, k, indices[k]), stretches, step), idx);
    }
  }

  lemma {:induction false} TrainedRows(tables: seq<seq<real>>, indices: seq<nat>, stretches: seq<real>, step: real,
                                       c: nat, k: nat, idx: nat)
    requires Shaped(tables, |stretches|) && IndicesInRange(indices) && c <= CONTEXTS && k < CONTEXTS
    requires idx < TABLE_SIZES[k]
    ensures var row := RowOf(tables, |stretches|, k, idx);
            RowOf(TrainTo(tables, indices, stretches, step, c), |stretches|, k, idx)
            == if k < c && idx == indices[k] then TrainRow(row, stretches, step) else row
  {
    hide Shaped, IndicesInRange, TrainOne, TrainRow, RowOf;
    if c > 0 {
      TrainedRows(tables, indices, stretches, step, c - 1, k, idx);
      TrainOneRowOf(TrainTo(tables, indices, stretches, step, c - 1), indices, stretches, step, c - 1, k, idx);
    }
  }

  /**
    An update after a prediction moves the six selected rows by the same step along the stretches, clipped weight by
    weight, and uses up the prediction; every other row, and everything without a fresh prediction, stays.
    */
  lemma UpdateTrainsSelectedRows(s: CoreState, bit: bool, k: nat, idx: nat)
    requires WellFormed(s) && k < CONTEXTS && idx < TABLE_SIZES[k]
    ensures var r := UpdateLast(s, bit);
            && r == s.(tables := r.tables, lastValid := r.lastValid)
            && r.lastValid == (s.lastValid && s.expertCount == 0)
            && RowOf(r.tables, s.expertCount, k, idx)
               == if s.lastValid && s.expertCount > 0 && idx == s.contextIndices[k]
                  then TrainRow(RowOf(s.tables, s.expertCount, k, idx), s.expertStretches, Step(s, bit))
                  else RowOf(s.tables, s.expertCount, k, idx)
  {
    hide RowOf, TrainTo, TrainRow, Step;
    if s.lastValid && s.expertCount > 0 {
      TrainedRows(s.tables, s.contextIndices, s.expertStretches, Step(s, bit), CONTEXTS, k, idx);
    }
  }

  // ---------- Training moves the score toward the observed bit ----------

  /** One context's step trains its own row and leaves the rows of the other contexts alone. */
  lemma TrainOneRow(tables: seq<seq<real>>, indices: seq<nat>, stretches: seq<real>, step: real, k: nat, j: nat)
    requires Shaped(tables, |stretches|) && IndicesInRange(indices) && j < CONTEXTS && k < CONTEXTS
    ensures Row(TrainOne(tables, indices, stretches, step, k), indices, |stretches|, j)
         == if j == k then TrainRow(Row(tables, indices, |stretches|, k), stretches, step)
            else Row(tables, indices, |stretches|, j)
  {
    hide TrainRow;
  }

  lemma {:induction false} TrainedRowAt(tables: seq<seq<real>>, indices: seq<nat>, stretches: seq<real>, step: real,
                                        k: nat, j: nat)
    requires Shaped(tables, |stretches|) && IndicesInRange(indices) && j < k <= CONTEXTS
    ensures Row(TrainTo(tables, indices, stretches, step, k), indices, |stretches|, j)
         == TrainRow(Row(tables, indices, |stretches|, j), stretches, step)
  {
    var before := TrainTo(tables, indices, stretches, step, k - 1);
    TrainOneRow(before, indices, stretches, step, k - 1, j);
    if j < k - 1 {
      hide Row, TrainRow, TrainOne, Shaped;
      TrainedRowAt(tables, indices, stretches, step, k - 1, j);
    } else {
      assert before[j] == tables[j];
      hide TrainRow, TrainOne, Shaped;
    }
  }

  lemma TrainedTerm(w: real, x: real, step: real)
    requires -WEIGHT_CLIP <= w <= WEIGHT_CLIP
    ensures step >= 0.0 ==> Times(TrainWeight(w, x, step), x) >= Times(w, x)
    ensures step <= 0.0 ==> Times(TrainWeight(w, x, step), x) <= Times(w, x)
  {
    var d := step * x;
    var e := TrainWeight(w, x, step) - w;
    assert (d >= 0.0 ==> e >= 0.0) && (d <= 0.0 ==> e <= 0.0);
    assert TrainWeight(w, x, step) * x == w * x + e * x;
    if step >= 0.0 {
      assert (x >= 0.0 ==> d >= 0.0) && (x <= 0.0 ==> d <= 0.0);
      assert e * x >= 0.0;
    }
    if step <= 0.0 {
      assert (x >= 0.0 ==> d <= 0.0) && (x <= 0.0 ==> d >= 0.0);
      assert e * x <= 0.0;
    }
  }

  lemma TrainedDot(row: seq<real>, stretches: seq<real>, step: real)
    requires |row| == |stretches|
    requires forall i :: 0 <= i < |row| ==> -WEIGHT_CLIP <= row[i] <= WEIGHT_CLIP
    ensures step >= 0.0 ==> Dot(TrainRow(row, stretches, step), stretches) >= Dot(row, stretches)
    ensures step <= 0.0 ==> Dot(TrainRow(row, stretches, step), stretches) <= Dot(row, stretches)
  {
    hide Times, Dot, TrainWeight;
    var after := TrainRow(row, stretches, step);
    if step >= 0.0 {
      forall i | 0 <= i < |row| ensures Times(row[i], stretches[i]) <= Times(after[i], stretches[i]) {
        TrainedTerm(row[i], stretches[i], step);
      }
      DotMonotone(row, after, stretches);
    }
    if step <= 0.0 {
      forall i | 0 <= i < |row| ensures Times(after[i], stretches[i]) <= Times(row[i], stretches[i]) {
        TrainedTerm(row[i], stretches[i], step);
      }
      DotMonotone(after, row, stretches);
    }
  }

  /** `q` is on the side of `p` that `step` points to. */
  predicate Toward(step: real, p: real, q: real)
  {
    (step >= 0.0 ==> p <= q) && (step <= 0.0 ==> q <= p)
  }

  lemma RowClipped(tables: seq<seq<real>>, indices: seq<nat>, n: nat, k: nat)
    requires Shaped(tables, n) && IndicesInRange(indices) && Clipped(tables) && k < CONTEXTS
    ensures forall i :: 0 <= i < n ==> -WEIGHT_CLIP <= Row(tables, indices, n, k)[i] <= WEIGHT_CLIP
  {
  }

  /** The scores over the first `k` rows, before and after training, lie as `step` points. */
  predicate ScoresToward(tables: seq<seq<real>>, after: seq<seq<real>>, indices: seq<nat>, stretches: seq<real>,
                         step: real, k: nat)
    requires Shaped(tables, |stretches|) && Shaped(after, |stretches|) && IndicesInRange(indices) && k <= CONTEXTS
  {
    Toward(step, ScoreTo(tables, indices, |stretches|, stretches, k),
           ScoreTo(after, indices, |stretches|, stretches, k))
  }

  lemma NoScores(tables: seq<seq<real>>, after: seq<seq<real>>, indices: seq<nat>, stretches: seq<real>, step: real)
    requires Shaped(tables, |stretches|) && Shaped(after, |stretches|) && IndicesInRange(indices)
    ensures ScoresToward(tables, after, indices, stretches, step, 0)
  {
  }

  lemma ScoresStep(tables: seq<seq<real>>, after: seq<seq<real>>, indices: seq<nat>, stretches: seq<real>, step: real,
                   k: nat)
    requires Shaped(tables, |stretches|) && Shaped(after, |stretches|) && IndicesInRange(indices) && k < CONTEXTS
    requires Clipped(tables) && ScoresToward(tables, after, indices, stretches, step, k)
    requires Row(after, indices, |stretches|, k) == TrainRow(Row(tables, indices, |stretches|, k), stretches, step)
    ensures ScoresToward(tables, after, indices, stretches, step, k + 1)
  {
    hide Dot, TrainRow, Row, Shaped, Clipped, IndicesInRange;
    RowClipped(tables, indices, |stretches|, k);
    TrainedDot(Row(tables, indices, |stretches|, k), stretches, step);
  }

  lemma {:induction false} TrainedScore(tables: seq<seq<real>>, indices: seq<nat>, stretches: seq<real>, step: real,
                                        k: nat)
    requires Shaped(tables, |stretches|) && IndicesInRange(indices) && Clipped(tables) && k <= CONTEXTS
    ensures ScoresToward(tables, TrainTo(tables, indices, stretches, step, CONTEXTS), indices, stretches, step, k)
  {
    hide *;
    var after := TrainTo(tables, indices, stretches, step, CONTEXTS);
    if k == 0 {
      NoScores(tables, after, indices, stretches, step);
    } else {
      TrainedScore(tables, indices, stretches, step, k - 1);
      TrainedRowAt(tables, indices, stretches, step, CONTEXTS, k - 1);
      ScoresStep(tables, after, indices, stretches, step, k - 1);
    }
  }

  /** Smaller odds give a smaller lower quotient and a larger upper one; up to odds 1 the lower one is the smaller. */
  lemma QuotientsMonotone(a: real, b: real)
    requires 0.0 < a <= b
    ensures Lower(a) <= Lower(b) && Upper(b) <= Upper(a)
  {
    assert 1.0 / (1.0 + b) <= 1.0 / (1.0 + a);
    LowerIsRest(a);
    LowerIsRest(b);
  }

  lemma LowerIsRest(a: real)
    requires a > 0.0
    ensures Lower(a) == 1.0 - Upper(a)
  {
  }

  lemma SquashMonotone(exp: real -> real, s: real, t: real)
    requires ExpFacts(exp) && s <= t
    ensures Squash(exp, s) <= Squash(exp, t)
  {
    hide Lower, Upper;
    var x, y := Clamp(s, -64.0, 64.0), Clamp(t, -64.0, 64.0);
    if y < 0.0 {
      QuotientsMonotone(exp(x), exp(y));
    } else if x >= 0.0 {
      QuotientsMonotone(exp(-y), exp(-x));
    } else {
      QuotientsMonotone(exp(x), 1.0);
      QuotientsMonotone(exp(-y), 1.0);
      LowerIsRest(1.0);
      HalfOfOne();
    }
  }

  lemma HalfOfOne()
    ensures Upper(1.0) == 0.5
  {
  }

  /** The curves of the code satisfy what the mixer needs. */
  lemma LogisticCurvesAreMonotone(exp: real -> real, ln: real -> real)
    requires ExpFacts(exp)
    ensures SquashFacts(LogisticCurves(exp, ln))
  {
    hide Squash, Stretch, ExpFacts;
    forall s, t | s <= t ensures Squash(exp, s) <= Squash(exp, t) {
      SquashMonotone(exp, s, t);
    }
  }

  lemma StepSign(s: CoreState, bit: bool)
    requires s.learningRate >= 0.0 && 0.0 < s.lastProbOne < 1.0
    ensures if bit then Step(s, bit) >= 0.0 else Step(s, bit) <= 0.0
  {
    var error := (if bit then 1.0 else 0.0) - s.lastProbOne;
    assert if bit then s.learningRate * error >= 0.0 else s.learningRate * error <= 0.0;
  }

  lemma TrainedProbOne(f: Curves, tables: seq<seq<real>>, indices: seq<nat>, stretches: seq<real>, step: real,
                       floor: real)
    requires SquashFacts(f) && 0.0 < floor <= 0.49
    requires Shaped(tables, |stretches|) && IndicesInRange(indices) && Clipped(tables)
    ensures var after := TrainTo(tables, indices, stretches, step, CONTEXTS);
            Toward(step, ProbOne(f, tables, indices, stretches, floor), ProbOne(f, after, indices, stretches, floor))
  {
    TrainedScore(tables, indices, stretches, step, CONTEXTS);
    var p := ScoreTo(tables, indices, |stretches|, stretches, CONTEXTS);
    var q := ScoreTo(TrainTo(tables, indices, stretches, step, CONTEXTS), indices, |stretches|, stretches, CONTEXTS);
  }

  lemma Repredicted(f: Curves, s: CoreState, probs: seq<real>, minProb: real, bit: bool)
    requires WellFormed(s) && |probs| == s.expertCount > 0
    ensures var before := PredictBit(f, s, probs, minProb);
            var x, floor := before.expertStretches, ProbFloor(minProb);
            var trained := TrainTo(s.tables, s.contextIndices, x, Step(before, bit), CONTEXTS);
            && before.lastProbOne == ProbOne(f, s.tables, s.contextIndices, x, floor)
            && PredictBit(f, UpdateLast(before, bit), probs, minProb).lastProbOne
               == ProbOne(f, trained, s.contextIndices, x, floor)
  {
  }

  /** Observing a bit and re-predicting with the same context and experts never lowers that bit's probability. */
  lemma LearningNeverHurts(f: Curves, s: CoreState, probs: seq<real>, minProb: real, bit: bool)
    requires SquashFacts(f) && Valid(s) && s.learningRate >= 0.0 && |probs| == s.expertCount
    ensures var before := PredictBit(f, s, probs, minProb);
            var after := PredictBit(f, UpdateLast(before, bit), probs, minProb);
            if bit then after.lastProbOne >= before.lastProbOne
            else 1.0 - after.lastProbOne >= 1.0 - before.lastProbOne
  {
    if s.expertCount > 0 {
      var before := PredictBit(f, s, probs, minProb);
      Repredicted(f, s, probs, minProb, bit);
      StepSign(before, bit);
      TrainedProbOne(f, s.tables, s.contextIndices, before.expertStretches, Step(before, bit), ProbFloor(minProb));
    }
  }

  // ---------- The undo journal is exact ----------

  /** One call made inside an undo scope. */
  datatype Op =
    | SwitchContext(context: MixContext)
    | Predict(probs: seq<real>, minProb: real)
    | ObserveRecording(probs: seq<real>, minProb: real, bit: bool)

  predicate OpFits(op: Op, n: nat)
  {
    op.SwitchContext? || |op.probs| == n
  }

  function Apply(f: Curves, s: CoreState, u: UndoState, op: Op): (r: (CoreState, UndoState))
    requires WellFormed(s) && OpFits(op, s.expertCount)
    ensures WellFormed(r.0) && r.0.expertCount == s.expertCount
  {
    match op
    case SwitchContext(context) => (SetContext(s, context), u)
    case Predict(probs, minProb) => (PredictBit(f, s, probs, minProb), u)
    case ObserveRecording(probs, minProb, bit) =>
      var predicted := PredictBit(f, s, probs, minProb);
      (UpdateLast(predicted, bit), Journal(u, predicted))
  }

  function Run(f: Curves, s: CoreState, u: UndoState, ops: seq<Op>): (r: (CoreState, UndoState))
    requires WellFormed(s)
    requires forall op <- ops :: OpFits(op, s.expertCount)
    ensures WellFormed(r.0) && r.0.expertCount == s.expertCount
    decreases |ops|
  {
    if ops == [] then (s, u)
    else
      var (t, v) := Apply(f, s, u, ops[0]);
      Run(f, t, v, ops[1..])
  }

  /** Replaying the journal over the current tables gives back the tables at `begin`. */
  ghost predicate Undoes(origin: CoreState, s: CoreState, u: UndoState)
    requires WellFormed(origin)
  {
    && WellFormed(s)
    && s.expertCount == origin.expertCount
    && s.learningRate == origin.learningRate
    && u.savedContext == origin.context
    && u.savedContextIndices == origin.contextIndices
    && u.savedExpertStretches == origin.expertStretches
    && u.savedLastProbOne == origin.lastProbOne
    && u.savedLastValid == origin.lastValid
    && JournalFits(u.entries, s.tables, |u.values|)
    && Replay(u.entries, u.values, s.tables) == origin.tables
  }

  /** Values saved later never disturb the entries already journalled. */
  lemma {:induction false} ReplayIgnoresLaterValues(entries: seq<JournalEntry>, values: seq<real>, more: seq<real>,
                                                    tables: seq<seq<real>>)
    requires JournalFits(entries, tables, |values|)
    ensures Replay(entries, values + more, tables) == Replay(entries, values, tables)
  {
    if entries != [] {
      var last := |entries| - 1;
      var e := entries[last];
      assert (values + more)[e.valuesStart..e.valuesStart + e.valuesLen]
          == values[e.valuesStart..e.valuesStart + e.valuesLen];
      ReplayIgnoresLaterValues(entries[..last], values, more, RestoreEntry(e, values, tables));
    }
  }

  lemma SpliceBack(table: seq<real>, start: nat, n: nat, row: seq<real>)
    requires start + n <= |table| && |row| == n
    ensures Splice(Splice(table, start, row), start, table[start..start + n]) == table
  {
  }

  /** Saving a row, overwriting it, then replaying gives what replaying gave before. */
  lemma RecordedWrite(entries: seq<JournalEntry>, values: seq<real>, tables: seq<seq<real>>, k: nat, start: nat,
                      row: seq<real>)
    requires JournalFits(entries, tables, |values|) && k < |tables| && start + |row| <= |tables[k]|
    ensures var entry := JournalEntry(k, start, |values|, |row|);
            var saved := tables[k][start..start + |row|];
            var written := tables[k := Splice(tables[k], start, row)];
            && JournalFits(entries + [entry], written, |values + saved|)
            && Replay(entries + [entry], values + saved, written) == Replay(entries, values, tables)
  {
    var entry := JournalEntry(k, start, |values|, |row|);
    var saved := tables[k][start..start + |row|];
    var written := tables[k := Splice(tables[k], start, row)];
    assert (values + saved)[|values|..|values| + |row|] == saved;
    SpliceBack(tables[k], start, |row|, row);
    assert RestoreEntry(entry, values + saved, written) == tables;
    assert (entries + [entry])[..|entries|] == entries;
    ReplayIgnoresLaterValues(entries, values, saved, tables);
  }

  lemma RecordedStep(u: UndoState, s: CoreState, tables: seq<seq<real>>, step: real, k: nat)
    requires WellFormed(s) && k < CONTEXTS && Shaped(tables, s.expertCount) && tables[k] == s.tables[k]
    requires JournalFits(u.entries, tables, |u.values|)
    ensures var v := RecordRow(u, s, k);
            var trained := TrainOne(tables, s.contextIndices, s.expertStretches, step, k);
            && JournalFits(v.entries, trained, |v.values|)
            && Replay(v.entries, v.values, trained) == Replay(u.entries, u.values, tables)
  {
    var n := s.expertCount;
    var start := Offset(s.contextIndices[k], n);
    var overwritten := Row(tables, s.contextIndices, n, k);
    var row := TrainRow(overwritten, s.expertStretches, step);
    assert overwritten == tables[k][start..start + |row|] == Row(s.tables, s.contextIndices, n, k);
    assert TrainOne(tables, s.contextIndices, s.expertStretches, step, k) == tables[k := Splice(tables[k], start, row)];
    var v := RecordRow(u, s, k);
    assert v.entries == u.entries + [JournalEntry(k, start, |u.values|, |row|)];
    assert v.values == u.values + overwritten;
    RecordedWrite(u.entries, u.values, tables, k, start, row);
  }

  lemma {:induction false} JournalGrows(u: UndoState, s: CoreState, k: nat)
    requires WellFormed(s) && k <= CONTEXTS
    ensures var v := JournalTo(u, s, k);
            && v == u.(entries := v.entries, values := v.values)
            && |v.entries| == |u.entries| + k
            && |v.values| == |u.values| + Offset(k, s.expertCount)
  {
    if k > 0 {
      JournalGrows(u, s, k - 1);
    }
  }

  /** The journal fits the tables, and replaying it over them gives what replaying `u` over `tables` gives. */
  predicate ReplaysAs(v: UndoState, trained: seq<seq<real>>, u: UndoState, tables: seq<seq<real>>)
    requires JournalFits(u.entries, tables, |u.values|)
  {
    && JournalFits(v.entries, trained, |v.values|)
    && Replay(v.entries, v.values, trained) == Replay(u.entries, u.values, tables)
  }

  lemma {:induction false} JournalledTraining(u: UndoState, s: CoreState, step: real, k: nat)
    requires WellFormed(s) && k <= CONTEXTS && JournalFits(u.entries, s.tables, |u.values|)
    ensures ReplaysAs(JournalTo(u, s, k), TrainTo(s.tables, s.contextIndices, s.expertStretches, step, k), u, s.tables)
  {
    hide JournalFits, Replay, TrainOne, RecordRow;
    if k > 0 {
      JournalledTraining(u, s, step, k - 1);
      RecordedStep(JournalTo(u, s, k - 1), s,
                   TrainTo(s.tables, s.contextIndices, s.expertStretches, step, k - 1), step, k - 1);
    }
  }

  lemma CallIsUndoable(f: Curves, origin: CoreState, s: CoreState, u: UndoState, op: Op)
    requires WellFormed(origin) && Undoes(origin, s, u) && OpFits(op, s.expertCount)
    ensures var (t, v) := Apply(f, s, u, op);
            Undoes(origin, t, v)
  {
    if op.ObserveRecording? {
      var predicted := PredictBit(f, s, op.probs, op.minProb);
      if s.expertCount != 0 {
        JournalledTraining(u, predicted, Step(predicted, op.bit), CONTEXTS);
        JournalGrows(u, predicted, CONTEXTS);
      }
    }
  }

  lemma {:induction false} RunIsUndoable(f: Curves, origin: CoreState, s: CoreState, u: UndoState, ops: seq<Op>)
    requires WellFormed(origin) && Undoes(origin, s, u)
    requires forall op <- ops :: OpFits(op, s.expertCount)
    ensures var (t, v) := Run(f, s, u, ops);
            Undoes(origin, t, v)
    decreases |ops|
  {
    if ops != [] {
      CallIsUndoable(f, origin, s, u, ops[0]);
      var (t, v) := Apply(f, s, u, ops[0]);
      RunIsUndoable(f, origin, t, v, ops[1..]);
    }
  }

  /** Whatever is called between `begin_undo` and `restore_undo`, the restored core is the core before. */
  lemma UndoIsExact(f: Curves, s: CoreState, ops: seq<Op>)
    requires WellFormed(s)
    requires forall op <- ops :: OpFits(op, s.expertCount)
    ensures var (t, u) := Run(f, s, BeginUndo(s), ops);
            JournalFits(u.entries, t.tables, |u.values|) && RestoreCore(t, u) == s
  {
    RunIsUndoable(f, s, s, BeginUndo(s), ops);
  }
}
