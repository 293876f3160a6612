/** The stretch mixer as it runs: an object whose tables, caches and journal are updated in place. */
module StretchMixerCore {
  import opened RealMath
  import opened StretchMixer
  import opened StretchMixerLaws

  class LogisticMixUndo {
    var entries: seq<JournalEntry>
    var values: seq<real>
    var savedContext: MixContext
    var savedContextIndices: seq<nat>
    var savedExpertStretches: seq<real>
    var savedLastProbOne: real
    var savedLastValid: bool
    var active: bool

    constructor ()
      ensures State() == UndoState([], [], DEFAULT_CONTEXT, [0, 0, 0, 0, 0, 0], [], 0.0, false, false)
    {
      entries, values := [], [];
      savedContext, savedContextIndices := DEFAULT_CONTEXT, [0, 0, 0, 0, 0, 0];
      savedExpertStretches, savedLastProbOne, savedLastValid := [], 0.0, false;
      active := false;
    }

    function State(): UndoState
      reads this
    {
      UndoState(entries, values, savedContext, savedContextIndices, savedExpertStretches,
                savedLastProbOne, savedLastValid, active)
    }
  }

  class LogisticMixCore {
    const f: Curves
    const learningRate: real
    const expertCount: nat
    var tables: seq<seq<real>>
    var context: MixContext
    var contextIndices: seq<nat>
    var expertStretches: seq<real>
    var lastProbOne: real
    var lastValid: bool

    function State(): CoreState
      reads this
    {
      CoreState(tables, learningRate, expertCount, context, contextIndices, expertStretches, lastProbOne, lastValid)
    }

    predicate Valid()
      reads this
    {
      StretchMixer.Valid(State())
    }

    constructor (f: Curves, expertCount: nat, priors: seq<real>, learningRate: real)
      requires |priors| == expertCount
      ensures Valid() && Initial(State(), priors, learningRate)
      ensures this.f == f
    {
      var built: seq<seq<real>> := [];
      for k := 0 to CONTEXTS
        invariant |built| == k
        invariant forall c :: 0 <= c < k ==> |built[c]| == Offset(TABLE_SIZES[c], expertCount)
        invariant k > 0 ==> expertCount <= |built[0]| && built[0][..expertCount] == PriorRow(priors)
        invariant forall c, j :: 0 <= c < k && 0 <= j < |built[c]| ==> (c == 0 && j < expertCount) || built[c][j] == 0.0
      {
        var table := Zeros(Offset(TABLE_SIZES[k], expertCount));
        if k == 0 && expertCount > 0 {
          OffsetFits(0, 1, expertCount);
          table := FillPriors(table, priors);
        }
        built := built + [table];
      }
      this.f, this.expertCount, this.learningRate := f, expertCount, learningRate;
      tables := built;
      context, contextIndices := DEFAULT_CONTEXT, ContextIndices(DEFAULT_CONTEXT);
      expertStretches, lastProbOne, lastValid := Zeros(expertCount), 0.5, false;
      new;
      InitialIsValid(State(), State(), priors, learningRate);
    }

    /** Write the sanitized priors over the first row of the global table. */
    static method FillPriors(global: seq<real>, priors: seq<real>) returns (table: seq<real>)
      requires |priors| <= |global|
      ensures table == PriorRow(priors) + global[|priors|..]
    {
      table := global;
      for i := 0 to |priors|
        invariant table == PriorRow(priors)[..i] + global[i..]
      {
        table := table[i := ClipWeight(Max(priors[i], 0.0))];
      }
    }

    method ClearTables()
      requires Shaped(tables, expertCount)
      modifies this`tables
      ensures Shaped(tables, expertCount)
      ensures forall k, j :: 0 <= k < CONTEXTS && 0 <= j < |tables[k]| ==> tables[k][j] == 0.0
    {
      for k := 0 to |tables|
        invariant Shaped(tables, expertCount)
        invariant forall c, j :: 0 <= c < k && 0 <= j < |tables[c]| ==> tables[c][j] == 0.0
      {
        tables := tables[k := Zeros(|tables[k]|)];
      }
    }

    /** Zero weights, sanitized priors in the global row. */
    method ResetTables(priors: seq<real>)
      requires Shaped(tables, expertCount) && |priors| == expertCount
      modifies this`tables
      ensures PriorTables(tables, priors)
    {
      ClearTables();
      OffsetFits(0, 1, expertCount);
      if expertCount > 0 {
        var filled := FillPriors(tables[0], priors);
        tables := tables[0 := filled];
      }
    }

    method ResetToPriors(priors: seq<real>)
      requires Valid() && |priors| == expertCount
      modifies this
      ensures Valid() && Initial(State(), priors, learningRate)
    {
      hide PriorTables, PriorRow, Clipped;
      ResetTables(priors);
      context := DEFAULT_CONTEXT;
      contextIndices := ContextIndices(context);
      expertStretches := Zeros(expertCount);
      lastProbOne, lastValid := 0.5, false;
      InitialIsValid(State(), State(), priors, learningRate);
    }

    method SetContext(context: MixContext)
      requires Valid()
      modifies this`context, this`contextIndices, this`lastValid
      ensures Valid() && State() == StretchMixer.SetContext(old(State()), context)
    {
      if this.context != context {
        this.context := context;
        contextIndices := ContextIndices(context);
        lastValid := false;
      }
    }

    /** Overwrite the stretches of all experts. */
    method StretchExperts(probs: seq<real>, floor: real)
      requires |probs| == expertCount == |expertStretches| && 0.0 < floor <= 0.49
      modifies this`expertStretches
      ensures expertStretches == Stretches(f, probs, floor)
    {
      for i := 0 to expertCount
        invariant |expertStretches| == expertCount
        invariant forall j :: 0 <= j < i ==> expertStretches[j] == ClippedStretch(f, probs[j], floor)
      {
        expertStretches := expertStretches[i := ClippedStretch(f, probs[i], floor)];
      }
    }

    /** `score` plus the dot product of a weight row with the stretches. */
    static method AddDot(score: real, row: seq<real>, stretches: seq<real>) returns (r: real)
      requires |row| == |stretches|
      ensures r == score + Dot(row, stretches)
    {
      r := score;
      for i := 0 to |row|
        invariant r == score + Dot(row[..i], stretches[..i])
      {
        DotStep(row, stretches, i);
        r := r + row[i] * stretches[i];
      }
      assert row[..|row|] == row && stretches[..|row|] == stretches;
    }

    /** The score of the selected rows against the current stretches. */
    method ScoreRows() returns (score: real)
      requires WellFormed(State())
      ensures score == ScoreTo(tables, contextIndices, expertCount, expertStretches, CONTEXTS)
    {
      score := 0.0;
      for k := 0 to CONTEXTS
        invariant score == ScoreTo(tables, contextIndices, expertCount, expertStretches, k)
      {
        score := AddDot(score, Row(tables, contextIndices, expertCount, k), expertStretches);
      }
    }

    method PredictBit(probs: seq<real>, minProb: real) returns (p1: real)
      requires Valid() && |probs| == expertCount
      modifies this`expertStretches, this`lastProbOne, this`lastValid
      ensures Valid() && State() == StretchMixer.PredictBit(f, old(State()), probs, minProb)
      ensures p1 == lastProbOne
    {
      if expertCount == 0 {
        lastProbOne, lastValid := 0.5, true;
        return 0.5;
      }
      var floor := ProbFloor(minProb);
      StretchExperts(probs, floor);
      var score := ScoreRows();
      p1 := Clamp(f.squash(score), floor, 1.0 - floor);
      lastProbOne, lastValid := p1, true;
    }

    /** One row of a flat table takes its gradient step, weight by weight. */
    static method TrainSlice(table: seq<real>, start: nat, stretches: seq<real>, step: real) returns (r: seq<real>)
      requires start + |stretches| <= |table|
      ensures r == Splice(table, start, TrainRow(table[start..start + |stretches|], stretches, step))
    {
      r := table;
      for i := 0 to |stretches|
        invariant |r| == |table|
        invariant forall j :: 0 <= j < |r| ==>
          r[j] == if start <= j < start + i then TrainWeight(table[j], stretches[j - start], step) else table[j]
      {
        r := r[start + i := TrainWeight(r[start + i], stretches[i], step)];
      }
    }

    /** The gradient step on the row that context `k` selects. */
    method TrainContext(k: nat, step: real)
      requires WellFormed(State()) && k < CONTEXTS
      modifies this`tables
      ensures tables == TrainOne(old(tables), contextIndices, expertStretches, step, k)
    {
      ghost var row := Row(tables, contextIndices, expertCount, k);
      OffsetIsProduct(contextIndices[k], expertCount);
      var start := contextIndices[k] * expertCount;
      assert row == tables[k][start..start + |expertStretches|];
      var trained := TrainSlice(tables[k], start, expertStretches, step);
      tables := tables[k := trained];
    }

    /** The gradient step on all six selected rows. */
    method TrainContexts(step: real)
      requires WellFormed(State())
      modifies this`tables
      ensures tables == TrainTo(old(tables), contextIndices, expertStretches, step, CONTEXTS)
    {
      for k := 0 to CONTEXTS
        invariant Shaped(tables, expertCount)
        invariant tables == TrainTo(old(tables), contextIndices, expertStretches, step, k)
      {
        TrainContext(k, step);
      }
    }

    method UpdateLast(bit: bool)
      requires Valid()
      modifies this`tables, this`lastValid
      ensures Valid() && State() == StretchMixer.UpdateLast(old(State()), bit)
    {
      UpdateKeepsValid(State(), bit);
      if !lastValid || expertCount == 0 {
        return;
      }
      var step := Step(State(), bit);
      TrainContexts(step);
      lastValid := false;
    }

    method ObserveBit(probs: seq<real>, bit: bool, minProb: real) returns (p1: real)
      requires Valid() && |probs| == expertCount
      modifies this`expertStretches, this`lastProbOne, this`lastValid, this`tables
      ensures Valid()
      ensures var predicted := StretchMixer.PredictBit(f, old(State()), probs, minProb);
              State() == StretchMixer.UpdateLast(predicted, bit) && p1 == predicted.lastProbOne
    {
      p1 := PredictBit(probs, minProb);
      UpdateLast(bit);
    }

    method BeginUndo(undo: LogisticMixUndo)
      requires !undo.active
      modifies undo
      ensures undo.State() == StretchMixer.BeginUndo(State())
    {
      undo.entries, undo.values := [], [];
      undo.savedContext, undo.savedContextIndices := context, contextIndices;
      undo.savedExpertStretches := expertStretches;
      undo.savedLastProbOne, undo.savedLastValid := lastProbOne, lastValid;
      undo.active := true;
    }

    /** Copy the saved rows back, latest entry first. */
    method CopyBack(undo: LogisticMixUndo)
      requires JournalFits(undo.entries, tables, |undo.values|)
      modifies this`tables
      ensures tables == Replay(undo.entries, undo.values, old(tables))
    {
      var i := |undo.entries|;
      assert undo.entries[..i] == undo.entries;
      while i > 0
        invariant 0 <= i <= |undo.entries|
        invariant JournalFits(undo.entries[..i], tables, |undo.values|)
        invariant Replay(undo.entries[..i], undo.values, tables) == Replay(undo.entries, undo.values, old(tables))
      {
        i := i - 1;
        assert undo.entries[..i + 1][..i] == undo.entries[..i];
        tables := RestoreEntry(undo.entries[i], undo.values, tables);
      }
    }

    method RestoreUndo(undo: LogisticMixUndo)
      requires undo.active && JournalFits(undo.entries, tables, |undo.values|)
      modifies this, undo
      ensures State() == RestoreCore(old(State()), old(undo.State()))
      ensures undo.State() == RestoredUndo(old(undo.State()))
    {
      CopyBack(undo);
      context, contextIndices := undo.savedContext, undo.savedContextIndices;
      expertStretches := undo.savedExpertStretches;
      lastProbOne, lastValid := undo.savedLastProbOne, undo.savedLastValid;
      undo.entries, undo.values, undo.active := [], [], false;
    }

    /** Save the row that context `k` selects. */
    method RecordContext(k: nat, undo: LogisticMixUndo)
      requires WellFormed(State()) && k < CONTEXTS
      modifies undo`entries, undo`values
      ensures undo.State() == RecordRow(old(undo.State()), State(), k)
    {
      OffsetIsProduct(contextIndices[k], expertCount);
      ghost var row := Row(tables, contextIndices, expertCount, k);
      var start := contextIndices[k] * expertCount;
      var valuesStart := |undo.values|;
      undo.values := undo.values + tables[k][start..start + expertCount];
      undo.entries := undo.entries + [JournalEntry(k, start, valuesStart, expertCount)];
    }

    /** Save and train all six selected rows, one context at a time. */
    method TrainContextsRecordingUndo(step: real, undo: LogisticMixUndo)
      requires WellFormed(State())
      modifies this`tables, undo`entries, undo`values
      ensures tables == TrainTo(old(tables), contextIndices, expertStretches, step, CONTEXTS)
      ensures undo.State() == JournalTo(old(undo.State()), old(State()), CONTEXTS)
    {
      for k := 0 to CONTEXTS
        invariant Shaped(tables, expertCount)
        invariant tables == TrainTo(old(tables), contextIndices, expertStretches, step, k)
        invariant undo.State() == JournalTo(old(undo.State()), old(State()), k)
      {
        label before:
        RecordContext(k, undo);
        assert undo.State() == RecordRow(old@before(undo.State()), old(State()), k);
        TrainContext(k, step);
      }
    }

    method UpdateLastRecordingUndo(bit: bool, undo: LogisticMixUndo)
      requires Valid() && undo.active
      modifies this`tables, this`lastValid, undo`entries, undo`values
      ensures Valid() && State() == StretchMixer.UpdateLast(old(State()), bit)
      ensures undo.State() == Journal(old(undo.State()), old(State()))
    {
      UpdateKeepsValid(State(), bit);
      if !lastValid || expertCount == 0 {
        return;
      }
      var step := Step(State(), bit);
      TrainContextsRecordingUndo(step, undo);
      lastValid := false;
    }

    method ObserveBitRecordingUndo(probs: seq<real>, bit: bool, minProb: real, undo: LogisticMixUndo) returns (p1: real)
      requires Valid() && |probs| == expertCount && undo.active
      modifies this`expertStretches, this`lastProbOne, this`lastValid, this`tables, undo`entries, undo`values
      ensures Valid()
      ensures var predicted := StretchMixer.PredictBit(f, old(State()), probs, minProb);
              && State() == StretchMixer.UpdateLast(predicted, bit)
              && undo.State() == Journal(old(undo.State()), predicted)
              && p1 == predicted.lastProbOne
    {
      p1 := PredictBit(probs, minProb);
      UpdateLastRecordingUndo(bit, undo);
    }
  }
}
