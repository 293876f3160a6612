/** What the two-stage mixer learns: one update makes the symbol it was given at least as probable,
    and strictly more probable exactly when there is something to learn. */
module NeuralMixLearning {
  import opened RealMath
  import opened LogMath
  import opened ContextHash
  import opened NeuralMix
  import opened NeuralMixLaws
  import opened SoftmaxLaws
  import opened NeuralMixAnswers

  // ---------- What one update changes ----------

  lemma {:induction false} GradientAt(scale: real, w: seq<real>, x: seq<real>, mean: real, p: real, i: nat)
    requires |w| == |x| && p > 0.0 && i < |w|
    ensures Gradient(scale, w, x, mean, p)[i] == GradientEntry(scale, w[i], x[i], mean, p)
  {
    hide GradientEntry;
    if i < |w| - 1 {
      GradientAt(scale, w[..|w| - 1], x[..|x| - 1], mean, p, i);
    }
  }

  /** Context `k`'s gradient. */
  function Gradient1(s: MixState, p: real, k: nat): (r: seq<real>)
    requires WellFormed(s) && p > 0.0 && k < STAGE1_CONTEXTS
    ensures |r| == s.expertCount
  {
    Gradient(s.stage2Mix[k], MixRow(s.stage1Mix, s.expertCount, k), s.expertProbs, s.stage1Probs[k], p)
  }

  /** Row `idx` of stage-1 table `k`. */
  function RowOf(tables: seq<seq<real>>, n: nat, k: nat, idx: nat): (r: seq<real>)
    requires Shaped1(tables, n) && k < STAGE1_CONTEXTS && idx < STAGE1_TABLE_SIZES[k]
    ensures |r| == n
  {
    OffsetFits(idx, STAGE1_TABLE_SIZES[k], n);
    RowAt(tables[k], idx, n)
  }

  lemma UpdatedRowOf(s: MixState, tables: seq<seq<real>>, p: real, c: nat, k: nat, idx: nat)
    requires WellFormed(s) && Shaped1(tables, s.expertCount) && p > 0.0 && c < STAGE1_CONTEXTS && k < STAGE1_CONTEXTS
    requires idx < STAGE1_TABLE_SIZES[k]
    ensures var row := RowOf(tables, s.expertCount, k, idx);
            RowOf(UpdateRow1(s, tables, p, c), s.expertCount, k, idx)
            == if c == k && idx == Stage1Indices(s.context)[k] then AddScaled(row, s.stage1Lr, Gradient1(s, p, k))
               else row
  {
    var n, indices := s.expertCount, Stage1Indices(s.context);
    hide Stage1Indices, Gradient, AddScaled, MixRow, Offset;
    OffsetFits(idx, STAGE1_TABLE_SIZES[k], n);
    OffsetFits(indices[c], STAGE1_TABLE_SIZES[c], n);
    if c == k {
      var row := AddScaled(Stage1Row(tables, indices, n, k), s.stage1Lr, Gradient1(s, p, k));
      SplicedRow(tables[k], indices[k], n, row, idx);
    }
  }

  lemma {:induction false} UpdatedRowsOf(s: MixState, p: real, c: nat, k: nat, idx: nat)
    requires WellFormed(s) && p > 0.0 && c <= STAGE1_CONTEXTS && k < STAGE1_CONTEXTS
    requires idx < STAGE1_TABLE_SIZES[k]
    ensures var row := RowOf(s.stage1Tables, s.expertCount, k, idx);
            RowOf(UpdateRows1(s, p, c), s.expertCount, k, idx)
            == if k < c && idx == Stage1Indices(s.context)[k] then AddScaled(row, s.stage1Lr, Gradient1(s, p, k))
               else row
  {
    hide RowOf, UpdateRow1, Stage1Indices, Gradient1, AddScaled, Shaped2;
    if c > 0 {
      UpdatedRowsOf(s, p, c - 1, k, idx);
      UpdatedRowOf(s, UpdateRows1(s, p, c - 1), p, c - 1, k, idx);
    }
  }

  /** The step is skipped: the observed symbol was probable enough already. */
  predicate Skipped(e: MixState)
  {
    1.0 - e.mixProb <= e.updateSkipThreshold
  }

  /** An update of an evaluated mixer does nothing when skipped, and otherwise changes the logits only. */
  lemma UpdateFields(exp: real -> real, e: MixState, lps: seq<LogProb>, minProb: real)
    requires Coherent(exp, e) && e.evaluated && |lps| == e.expertCount
    ensures var u := Update(exp, e, lps, minProb);
            && e.mixProb > 0.0
            && if Skipped(e) then u == e
               else u == e.(stage2Table := UpdateRow2(e, e.mixProb),
                            stage1Tables := UpdateRows1(e, e.mixProb, STAGE1_CONTEXTS),
                            evaluated := false, contextMixturesValid := false)
  {
    hide UpdateRow2, UpdateRows1, FreshCaches, Evaluate;
  }

  /** Updating first evaluates, unless that has just been done. */
  lemma UpdateEvaluates(exp: real -> real, s: MixState, lps: seq<LogProb>, minProb: real)
    requires WellFormed(s) && |lps| == s.expertCount && !s.evaluated
    ensures Update(exp, s, lps, minProb) == Update(exp, Evaluate(exp, s, lps, minProb), lps, minProb)
  {
    hide Evaluate, UpdateRow2, UpdateRows1;
  }

  lemma LogitInRow(s: MixState, k: nat, idx: nat, i: nat)
    requires WellFormed(s) && k < STAGE1_CONTEXTS && idx < STAGE1_TABLE_SIZES[k] && i < s.expertCount
    ensures RowOf(s.stage1Tables, s.expertCount, k, idx)[i] == Logit(s, k, idx, i)
  {
    OffsetFits(idx, STAGE1_TABLE_SIZES[k], s.expertCount);
  }

  /**
    What an update that is not skipped does to every stage-1 logit: in the selected rows it adds the rate times the
    context's weight times the expert's share times how far the expert's probability lies above the context's, over the
    final probability; all other logits stay.
    */
  lemma UpdateMovesLogits(exp: real -> real, e: MixState, lps: seq<LogProb>, minProb: real, k: nat, idx: nat, i: nat)
    requires Coherent(exp, e) && e.evaluated && |lps| == e.expertCount && !Skipped(e)
    requires k < STAGE1_CONTEXTS && idx < STAGE1_TABLE_SIZES[k] && i < e.expertCount
    ensures e.mixProb > 0.0
    ensures var u := Update(exp, e, lps, minProb);
            var ahead := e.expertProbs[i] - e.stage1Probs[k];
            && u.expertCount == e.expertCount
            && Logit(u, k, idx, i) == Logit(e, k, idx, i) +
               if idx == Stage1Indices(e.context)[k]
               then e.stage1Lr * (e.stage2Mix[k] * Share1(e, k, i) * ahead / e.mixProb) else 0.0
  {
    hide Coherent, Update, RowOf, Logit, Share1, UpdateRow2, UpdateRows1, Stage1Indices, Gradient1, AddScaled, MixRow,
         FreshCaches;
    CoherentParts(exp, e);
    UpdateFields(exp, e, lps, minProb);
    var u, p := Update(exp, e, lps, minProb), e.mixProb;
    LogitInRow(e, k, idx, i);
    LogitInRow(u, k, idx, i);
    UpdatedRowsOf(e, p, STAGE1_CONTEXTS, k, idx);
    if idx == Stage1Indices(e.context)[k] {
      AddScaledAt(RowOf(e.stage1Tables, e.expertCount, k, idx), e.stage1Lr, Gradient1(e, p, k), i);
      Gradient1At(e, p, k, i);
    }
  }

  lemma Gradient1At(e: MixState, p: real, k: nat, i: nat)
    requires WellFormed(e) && p > 0.0 && k < STAGE1_CONTEXTS && i < e.expertCount
    ensures Gradient1(e, p, k)[i] == e.stage2Mix[k] * Share1(e, k, i) * (e.expertProbs[i] - e.stage1Probs[k]) / p
  {
    hide Gradient, Share1, MixRow;
    GradientAt(e.stage2Mix[k], MixRow(e.stage1Mix, e.expertCount, k), e.expertProbs, e.stage1Probs[k], p, i);
    Share1InRow(e, k, i);
  }

  /** The same for stage 2: the selected row moves by the rate times the context's weight times how far its probability
      lies above the final one, over that one. */
  lemma UpdateMovesStage2(exp: real -> real, e: MixState, lps: seq<LogProb>, minProb: real, j: nat, k: nat)
    requires Coherent(exp, e) && e.evaluated && |lps| == e.expertCount && !Skipped(e)
    requires j < STAGE2_TABLE_SIZE && k < STAGE1_CONTEXTS
    ensures e.mixProb > 0.0
    ensures var u := Update(exp, e, lps, minProb);
            u.stage2Table[j][k] == e.stage2Table[j][k] +
            if j == Stage2Index(e.context)
            then e.stage2Lr * (e.stage2Mix[k] * (e.stage1Probs[k] - e.mixProb) / e.mixProb) else 0.0
  {
    hide Coherent, Update, UpdateRows1, Stage2Index, AddScaled, Gradient, FreshCaches;
    CoherentParts(exp, e);
    UpdateFields(exp, e, lps, minProb);
    if j == Stage2Index(e.context) {
      var gradient := Gradient(1.0, e.stage2Mix, e.stage1Probs, e.mixProb, e.mixProb);
      AddScaledAt(e.stage2Table[j], e.stage2Lr, gradient, k);
      GradientAt(1.0, e.stage2Mix, e.stage1Probs, e.mixProb, e.mixProb, k);
    }
  }

  // ---------- One update never hurts the symbol ----------

  lemma EntryIsStep(rate: real, scale: real, w: real, d: real, p: real, c: real)
    requires p > 0.0 && c == rate * scale / p
    ensures rate * (scale * w * d / p) == Times(c, Times(w, d))
  {
    assert rate * scale == c * p;
    var q := scale * w * d / p;
    assert q * p == scale * w * d;
    assert rate * q * p == c * (w * d) * p;
  }

  /** Adding a gradient is a step along weight times deviation. */
  lemma GradientSteps(logits: seq<real>, rate: real, scale: real, w: seq<real>, x: seq<real>, mean: real, p: real,
                      c: real)
    requires |logits| == |w| == |x| && p > 0.0 && c == rate * scale / p
    ensures StepsAlong(logits, AddScaled(logits, rate, Gradient(scale, w, x, mean, p)), w, x, mean, c)
  {
    hide AddScaled, Gradient, Times;
    var gradient := Gradient(scale, w, x, mean, p);
    forall i | 0 <= i < |logits|
      ensures AddScaled(logits, rate, gradient)[i] == logits[i] + Times(c, Times(w[i], x[i] - mean))
    {
      AddScaledAt(logits, rate, gradient, i);
      GradientAt(scale, w, x, mean, p, i);
      EntryIsStep(rate, scale, w[i], x[i] - mean, p, c);
    }
  }

  /** How long the step of context `k`'s row is, and that of the stage-2 row. */
  function Length1(e: MixState, k: nat): real
    requires WellFormed(e) && e.mixProb > 0.0 && k < STAGE1_CONTEXTS
  {
    e.stage1Lr * e.stage2Mix[k] / e.mixProb
  }

  function Length2(e: MixState): real
    requires e.mixProb > 0.0
  {
    e.stage2Lr * 1.0 / e.mixProb
  }

  lemma RowStep(exp: real -> real, e: MixState, lps: seq<LogProb>, minProb: real, k: nat)
    requires Coherent(exp, e) && e.evaluated && |lps| == e.expertCount && !Skipped(e) && k < STAGE1_CONTEXTS
    ensures e.mixProb > 0.0
    ensures var u := Update(exp, e, lps, minProb);
            && u.expertCount == e.expertCount
            && StepsAlong(Logits1(e, k), Logits1(u, k), MixRow(e.stage1Mix, e.expertCount, k), e.expertProbs,
                          e.stage1Probs[k], Length1(e, k))
  {
    hide Coherent, Update, RowOf, UpdateRow2, UpdateRows1, Stage1Indices, Gradient, AddScaled, MixRow, FreshCaches,
         StepsAlong, Logits1;
    CoherentParts(exp, e);
    UpdateFields(exp, e, lps, minProb);
    var u, idx := Update(exp, e, lps, minProb), Stage1Indices(e.context)[k];
    UpdatedRowsOf(e, e.mixProb, STAGE1_CONTEXTS, k, idx);
    LogitsAreRow(e, k);
    LogitsAreRow(u, k);
    GradientSteps(Logits1(e, k), e.stage1Lr, e.stage2Mix[k], MixRow(e.stage1Mix, e.expertCount, k), e.expertProbs,
                  e.stage1Probs[k], e.mixProb, Length1(e, k));
  }

  lemma LogitsAreRow(s: MixState, k: nat)
    requires WellFormed(s) && k < STAGE1_CONTEXTS
    ensures Logits1(s, k) == RowOf(s.stage1Tables, s.expertCount, k, Stage1Indices(s.context)[k])
  {
  }

  lemma Stage2Step(exp: real -> real, e: MixState, lps: seq<LogProb>, minProb: real)
    requires Coherent(exp, e) && e.evaluated && |lps| == e.expertCount && !Skipped(e)
    ensures e.mixProb > 0.0
    ensures StepsAlong(Logits2(e), Logits2(Update(exp, e, lps, minProb)), e.stage2Mix, e.stage1Probs, e.mixProb,
                       Length2(e))
  {
    hide Coherent, Update, UpdateRows1, Stage2Index, Gradient, AddScaled, FreshCaches, StepsAlong;
    CoherentParts(exp, e);
    UpdateFields(exp, e, lps, minProb);
    GradientSteps(Logits2(e), e.stage2Lr, 1.0, e.stage2Mix, e.stage1Probs, e.mixProb, e.mixProb, Length2(e));
  }

  /** The values an evaluated mixer holds, as means under the softmax of its logits. */
  lemma EvaluatedMeans(exp: real -> real, e: MixState, k: nat)
    requires Coherent(exp, e) && e.evaluated && k < STAGE1_CONTEXTS
    ensures MixRow(e.stage1Mix, e.expertCount, k) == Softmax(exp, Logits1(e, k))
    ensures e.stage2Mix == Softmax(exp, Logits2(e))
    ensures e.mixProb == Dot(Softmax(exp, Logits2(e)), e.stage1Probs)
    ensures e.expertCount > 0 ==> e.stage1Probs[k] == Dot(Softmax(exp, Logits1(e, k)), e.expertProbs)
  {
    hide Softmax, MixRow, Logits1, Logits2, Dot, FreshCaches;
    CachedRow(exp, e, k);
  }

  /** `r` evaluates what `u` knows, with the expert probabilities of `e`. */
  ghost predicate Reevaluated(exp: real -> real, e: MixState, u: MixState, r: MixState)
  {
    && Coherent(exp, e) && e.evaluated && WellFormed(u) && Coherent(exp, r) && r.evaluated
    && r.expertCount == u.expertCount == e.expertCount && r.expertProbs == e.expertProbs
    && Logits2(r) == Logits2(u)
    && forall k :: 0 <= k < STAGE1_CONTEXTS ==> Logits1(r, k) == Logits1(u, k)
  }

  lemma UpdateIsReevaluated(exp: real -> real, s: MixState, lps: seq<LogProb>, minProb: real)
    requires Positive(exp) && Coherent(exp, s) && |lps| == s.expertCount
    ensures var e := Evaluate(exp, s, lps, minProb);
            var u := Update(exp, e, lps, minProb);
            u.expertCount == s.expertCount && Reevaluated(exp, e, u, Evaluate(exp, u, lps, minProb))
  {
    hide Evaluate, Update, Coherent, WellFormed, Logits1, Logits2;
    CoherentParts(exp, s);
    var e := Evaluate(exp, s, lps, minProb);
    EvaluateKeepsCoherent(exp, s, lps, minProb);
    EvaluateFields(exp, s, lps, minProb);
    CoherentParts(exp, e);
    var u := Update(exp, e, lps, minProb);
    UpdateKeepsCoherent(exp, e, lps, minProb);
    CoherentParts(exp, u);
    UpdatedCount(exp, e, lps, minProb);
    EvaluateKeepsCoherent(exp, u, lps, minProb);
    EvaluateFields(exp, u, lps, minProb);
    CoherentParts(exp, Evaluate(exp, u, lps, minProb));
    forall k | 0 <= k < STAGE1_CONTEXTS
      ensures Logits1(Evaluate(exp, u, lps, minProb), k) == Logits1(u, k)
    {
      SelectedLogits(exp, u, lps, minProb, k);
    }
    SelectedLogits(exp, u, lps, minProb, 0);
  }

  lemma UpdatedCount(exp: real -> real, e: MixState, lps: seq<LogProb>, minProb: real)
    requires WellFormed(e) && e.evaluated && |lps| == e.expertCount
    ensures Update(exp, e, lps, minProb).expertCount == e.expertCount
  {
    hide Evaluate, UpdateRow2, UpdateRows1;
  }

  lemma LengthSign(rate: real, scale: real, p: real)
    requires rate >= 0.0 && scale > 0.0 && p > 0.0
    ensures rate * scale / p >= 0.0
    ensures rate > 0.0 ==> rate * scale / p > 0.0
  {
    assert rate * scale >= 0.0;
    if rate > 0.0 { PositiveProduct(rate, scale); }
  }

  /** Each context's probability is at least what it was. */
  lemma Stage1Improves(exp: real -> real, e: MixState, u: MixState, r: MixState, k: nat)
    requires ExpLaws(exp) && Reevaluated(exp, e, u, r) && k < STAGE1_CONTEXTS && e.expertCount > 0
    requires e.stage1Lr >= 0.0 && e.mixProb > 0.0
    requires StepsAlong(Logits1(e, k), Logits1(u, k), MixRow(e.stage1Mix, e.expertCount, k), e.expertProbs,
                        e.stage1Probs[k], Length1(e, k))
    ensures r.stage1Probs[k] >= e.stage1Probs[k]
  {
    hide Softmax, MixRow, Logits1, Logits2, Dot, FreshCaches, StepsAlong;
    EvaluatedMeans(exp, e, k);
    EvaluatedMeans(exp, r, k);
    SharePositive(exp, Logits2(e), k);
    LengthSign(e.stage1Lr, e.stage2Mix[k], e.mixProb);
    StepRaisesMean(exp, Logits1(e, k), Logits1(u, k), e.expertProbs, e.stage1Probs[k], Length1(e, k));
  }

  lemma {:induction false} DotGrows(w: seq<real>, x: seq<real>, y: seq<real>)
    requires |w| == |x| == |y| && forall i :: 0 <= i < |w| ==> w[i] >= 0.0 && x[i] <= y[i]
    ensures Dot(w, x) <= Dot(w, y)
  {
    if w != [] {
      var n := |w| - 1;
      DotGrows(w[..n], x[..n], y[..n]);
      assert w[n] * x[n] <= w[n] * y[n];
    }
  }

  /** The final probability grows with the probabilities of the contexts, and with a stage-2 step. */
  lemma Stage2Improves(exp: real -> real, e: MixState, u: MixState, r: MixState)
    requires ExpLaws(exp) && Reevaluated(exp, e, u, r) && e.stage2Lr >= 0.0 && e.mixProb > 0.0
    requires StepsAlong(Logits2(e), Logits2(u), e.stage2Mix, e.stage1Probs, e.mixProb, Length2(e))
    requires forall k :: 0 <= k < STAGE1_CONTEXTS ==> r.stage1Probs[k] >= e.stage1Probs[k]
    ensures r.mixProb >= e.mixProb
  {
    hide Softmax, MixRow, Logits1, Logits2, Dot, FreshCaches, StepsAlong;
    EvaluatedMeans(exp, e, 0);
    EvaluatedMeans(exp, r, 0);
    LengthSign(e.stage2Lr, 1.0, e.mixProb);
    StepRaisesMean(exp, Logits2(e), Logits2(u), e.stage1Probs, e.mixProb, Length2(e));
    forall k | 0 <= k < STAGE1_CONTEXTS ensures Softmax(exp, Logits2(r))[k] >= 0.0 {
      SharePositive(exp, Logits2(r), k);
    }
    DotGrows(Softmax(exp, Logits2(r)), e.stage1Probs, r.stage1Probs);
  }

  lemma EvaluatedAgain(exp: real -> real, s: MixState, lps: seq<LogProb>, minProb: real)
    requires WellFormed(s) && |lps| == s.expertCount
    ensures var e := Evaluate(exp, s, lps, minProb);
            Evaluate(exp, e, lps, minProb) == e
  {
    hide Stage1MixOf, Stage2MixOf, WeightsTo, Stage1ProbsTo, ExpertProbs, Dot;
  }

  /** Without experts every context gives the floor, before and after. */
  lemma NoExperts(exp: real -> real, s: MixState, lps: seq<LogProb>, minProb: real)
    requires WellFormed(s) && |lps| == s.expertCount == 0
    ensures Evaluate(exp, s, lps, minProb).stage1Probs == Stage1ProbsTo([], [], ProbFloor(minProb), STAGE1_CONTEXTS)
  {
    hide Stage2MixOf, WeightsTo, Dot, Stage1ProbsTo;
    OffsetIsProduct(STAGE1_CONTEXTS, 0);
    var probed := s.(expertProbs := ExpertProbs(exp, lps, ProbFloor(minProb)));
    assert EnsureMixtures(exp, probed).stage1Mix == [];
    assert EnsureMixtures(exp, probed).expertProbs == [];
  }

  /** All the facts about one evaluation, the update after it and the next evaluation. */
  ghost predicate OneLesson(exp: real -> real, e: MixState, u: MixState, r: MixState)
  {
    && Reevaluated(exp, e, u, r) && e.mixProb > 0.0
    && StepsAlong(Logits2(e), Logits2(u), e.stage2Mix, e.stage1Probs, e.mixProb, Length2(e))
    && (forall k :: 0 <= k < STAGE1_CONTEXTS ==>
          StepsAlong(Logits1(e, k), Logits1(u, k), MixRow(e.stage1Mix, e.expertCount, k), e.expertProbs,
                     e.stage1Probs[k], Length1(e, k)))
    && (e.expertCount == 0 ==> r.stage1Probs == e.stage1Probs)
  }

  lemma LessonOf(exp: real -> real, s: MixState, lps: seq<LogProb>, minProb: real)
    requires Positive(exp) && Coherent(exp, s) && |lps| == s.expertCount
    requires !Skipped(Evaluate(exp, s, lps, minProb))
    ensures var e := Evaluate(exp, s, lps, minProb);
            var u := Update(exp, e, lps, minProb);
            u.expertCount == s.expertCount && OneLesson(exp, e, u, Evaluate(exp, u, lps, minProb))
  {
    hide Evaluate, Update, Coherent, WellFormed, Logits1, Logits2, MixRow, Length1, Length2, StepsAlong, Reevaluated,
         Skipped;
    CoherentParts(exp, s);
    var e := Evaluate(exp, s, lps, minProb);
    UpdateIsReevaluated(exp, s, lps, minProb);
    EvaluateKeepsCoherent(exp, s, lps, minProb);
    CoherentParts(exp, e);
    Stage2Step(exp, e, lps, minProb);
    var u := Update(exp, e, lps, minProb);
    forall k | 0 <= k < STAGE1_CONTEXTS
      ensures StepsAlong(Logits1(e, k), Logits1(u, k), MixRow(e.stage1Mix, e.expertCount, k), e.expertProbs,
                         e.stage1Probs[k], Length1(e, k))
    {
      RowStep(exp, e, lps, minProb, k);
    }
    if s.expertCount == 0 {
      NoExperts(exp, s, lps, minProb);
      NoExperts(exp, u, lps, minProb);
    }
  }

  lemma LessonShape(exp: real -> real, e: MixState, u: MixState, r: MixState)
    requires OneLesson(exp, e, u, r)
    ensures |r.stage1Probs| == |e.stage1Probs| == STAGE1_CONTEXTS && |e.expertProbs| == e.expertCount
  {
  }

  lemma LessonImproves(exp: real -> real, e: MixState, u: MixState, r: MixState)
    requires ExpLaws(exp) && OneLesson(exp, e, u, r) && e.stage1Lr >= 0.0 && e.stage2Lr >= 0.0
    ensures r.mixProb >= e.mixProb
  {
    hide Reevaluated, Logits1, Logits2, MixRow, Length1, Length2, StepsAlong;
    LessonShape(exp, e, u, r);
    forall k | 0 <= k < STAGE1_CONTEXTS ensures r.stage1Probs[k] >= e.stage1Probs[k] {
      if e.expertCount > 0 { Stage1Improves(exp, e, u, r, k); }
    }
    Stage2Improves(exp, e, u, r);
  }

  lemma LessonRates(exp: real -> real, s: MixState, lps: seq<LogProb>, minProb: real)
    requires Positive(exp) && Coherent(exp, s) && |lps| == s.expertCount
    ensures var e := Evaluate(exp, s, lps, minProb);
            e.stage1Lr == s.stage1Lr && e.stage2Lr == s.stage2Lr && Coherent(exp, e)
  {
    hide Evaluate, Coherent;
    CoherentParts(exp, s);
    EvaluateFields(exp, s, lps, minProb);
    EvaluateKeepsCoherent(exp, s, lps, minProb);
  }

  lemma SkippedLesson(exp: real -> real, s: MixState, lps: seq<LogProb>, minProb: real)
    requires Positive(exp) && Coherent(exp, s) && |lps| == s.expertCount
    requires Skipped(Evaluate(exp, s, lps, minProb))
    ensures var e := Evaluate(exp, s, lps, minProb);
            Update(exp, e, lps, minProb) == e && Evaluate(exp, e, lps, minProb) == e
  {
    hide Evaluate, Update, Coherent, WellFormed, Skipped;
    CoherentParts(exp, s);
    EvaluateKeepsCoherent(exp, s, lps, minProb);
    EvaluatedAgain(exp, s, lps, minProb);
    UpdateFields(exp, Evaluate(exp, s, lps, minProb), lps, minProb);
  }

  /** With rates that are not negative, giving the mixer a symbol and evaluating it again in the same context never
      gives that symbol a lower probability than before. */
  lemma LearningNeverHurts(exp: real -> real, s: MixState, lps: seq<LogProb>, minProb: real)
    requires ExpLaws(exp) && Coherent(exp, s) && |lps| == s.expertCount && s.stage1Lr >= 0.0 && s.stage2Lr >= 0.0
    ensures var e := Evaluate(exp, s, lps, minProb);
            var u := Update(exp, e, lps, minProb);
            u.expertCount == s.expertCount && Evaluate(exp, u, lps, minProb).mixProb >= e.mixProb
  {
    hide Evaluate, Update, Coherent, OneLesson, Skipped;
    ExpLawsPositive(exp);
    CoherentParts(exp, s);
    LessonRates(exp, s, lps, minProb);
    var e := Evaluate(exp, s, lps, minProb);
    if Skipped(e) {
      SkippedLesson(exp, s, lps, minProb);
    } else {
      LessonOf(exp, s, lps, minProb);
      var u := Update(exp, e, lps, minProb);
      LessonImproves(exp, e, u, Evaluate(exp, u, lps, minProb));
    }
  }

  // ---------- When it strictly helps ----------

  /** One of the stages has a positive rate and two different probabilities to tell apart. */
  predicate CanLearn(e: MixState)
  {
    || (e.stage1Lr > 0.0 && exists i, j :: 0 <= i < j < |e.expertProbs| && e.expertProbs[i] != e.expertProbs[j])
    || (e.stage2Lr > 0.0 && exists i, j :: 0 <= i < j < |e.stage1Probs| && e.stage1Probs[i] != e.stage1Probs[j])
  }

  lemma Stage1Rises(exp: real -> real, ln: real -> real, e: MixState, u: MixState, r: MixState, k: nat, i: nat, j: nat)
    requires LogLaws(exp, ln) && OneLesson(exp, e, u, r) && k < STAGE1_CONTEXTS && e.stage1Lr > 0.0
    requires i < j < |e.expertProbs| && e.expertProbs[i] != e.expertProbs[j]
    ensures r.stage1Probs[k] > e.stage1Probs[k]
  {
    hide Softmax, MixRow, Logits1, Logits2, Dot, FreshCaches, StepsAlong, Length2, ExpLaws;
    LogLawsExp(exp, ln);
    EvaluatedMeans(exp, e, k);
    EvaluatedMeans(exp, r, k);
    SharePositive(exp, Logits2(e), k);
    LengthSign(e.stage1Lr, e.stage2Mix[k], e.mixProb);
    var off := if e.expertProbs[i] != e.stage1Probs[k] then i else j;
    StepRaisesMeanStrictly(exp, ln, Logits1(e, k), Logits1(u, k), e.expertProbs, e.stage1Probs[k], Length1(e, k), off);
  }

  lemma {:induction false} DotRises(w: seq<real>, x: seq<real>, y: seq<real>)
    requires |w| == |x| == |y| && forall i :: 0 <= i < |w| ==> w[i] > 0.0 && x[i] < y[i]
    ensures w == [] || Dot(w, x) < Dot(w, y)
  {
    if w != [] {
      var n := |w| - 1;
      DotRises(w[..n], x[..n], y[..n]);
      assert w[n] * x[n] < w[n] * y[n];
      assert n == 0 ==> w[..n] == [] == x[..n] == y[..n];
    }
  }

  lemma Stage2Follows(exp: real -> real, e: MixState, u: MixState, r: MixState)
    requires ExpLaws(exp) && OneLesson(exp, e, u, r) && e.stage2Lr >= 0.0
    requires forall k :: 0 <= k < STAGE1_CONTEXTS ==> r.stage1Probs[k] > e.stage1Probs[k]
    ensures r.mixProb > e.mixProb
  {
    hide Softmax, MixRow, Logits1, Logits2, Dot, FreshCaches, StepsAlong, Length1;
    EvaluatedMeans(exp, e, 0);
    EvaluatedMeans(exp, r, 0);
    LengthSign(e.stage2Lr, 1.0, e.mixProb);
    StepRaisesMean(exp, Logits2(e), Logits2(u), e.stage1Probs, e.mixProb, Length2(e));
    forall k | 0 <= k < STAGE1_CONTEXTS ensures Softmax(exp, Logits2(r))[k] > 0.0 {
      SharePositive(exp, Logits2(r), k);
    }
    DotRises(Softmax(exp, Logits2(r)), e.stage1Probs, r.stage1Probs);
  }

  lemma Stage2Rises(exp: real -> real, ln: real -> real, e: MixState, u: MixState, r: MixState, i: nat, j: nat)
    requires LogLaws(exp, ln) && OneLesson(exp, e, u, r) && e.stage1Lr >= 0.0 && e.stage2Lr > 0.0
    requires i < j < |e.stage1Probs| && e.stage1Probs[i] != e.stage1Probs[j]
    ensures r.mixProb > e.mixProb
  {
    hide Softmax, MixRow, Logits1, Logits2, Dot, FreshCaches, StepsAlong, Length1, ExpLaws;
    LogLawsExp(exp, ln);
    EvaluatedMeans(exp, e, 0);
    EvaluatedMeans(exp, r, 0);
    LengthSign(e.stage2Lr, 1.0, e.mixProb);
    var off := if e.stage1Probs[i] != e.mixProb then i else j;
    StepRaisesMeanStrictly(exp, ln, Logits2(e), Logits2(u), e.stage1Probs, e.mixProb, Length2(e), off);
    forall k | 0 <= k < STAGE1_CONTEXTS
      ensures Softmax(exp, Logits2(r))[k] >= 0.0 && e.stage1Probs[k] <= r.stage1Probs[k]
    {
      SharePositive(exp, Logits2(r), k);
      if e.expertCount > 0 { Stage1Improves(exp, e, u, r, k); }
    }
    DotGrows(Softmax(exp, Logits2(r)), e.stage1Probs, r.stage1Probs);
  }

  lemma NoStep(logits: seq<real>, moved: seq<real>, w: seq<real>, x: seq<real>, m: real)
    requires StepsAlong(logits, moved, w, x, m, 0.0)
    ensures moved == logits
  {
  }

  lemma ZeroLength(rate: real, scale: real, p: real)
    requires p > 0.0 && rate == 0.0
    ensures rate * scale / p == 0.0
  {
  }

  lemma ConstantMean(exp: real -> real, logits: seq<real>, x: seq<real>)
    requires Positive(exp) && |logits| == |x| > 0 && forall i :: 0 <= i < |x| ==> x[i] == x[0]
    ensures Dot(Softmax(exp, logits), x) == x[0]
  {
    hide Softmax, Sum;
    SoftmaxIsDistribution(exp, logits);
    DotConstant(Softmax(exp, logits), x, x[0]);
  }

  lemma Stage1Stays(exp: real -> real, e: MixState, u: MixState, r: MixState, k: nat)
    requires ExpLaws(exp) && OneLesson(exp, e, u, r) && k < STAGE1_CONTEXTS
    requires e.stage1Lr == 0.0 || forall i :: 0 <= i < |e.expertProbs| ==> e.expertProbs[i] == e.expertProbs[0]
    ensures r.stage1Probs[k] == e.stage1Probs[k]
  {
    hide Softmax, MixRow, Logits1, Logits2, Dot, FreshCaches, StepsAlong, Length2;
    if e.expertCount > 0 {
      EvaluatedMeans(exp, e, k);
      EvaluatedMeans(exp, r, k);
      if e.stage1Lr == 0.0 {
        ZeroLength(e.stage1Lr, e.stage2Mix[k], e.mixProb);
        NoStep(Logits1(e, k), Logits1(u, k), MixRow(e.stage1Mix, e.expertCount, k), e.expertProbs, e.stage1Probs[k]);
      } else {
        ConstantMean(exp, Logits1(e, k), e.expertProbs);
        ConstantMean(exp, Logits1(r, k), e.expertProbs);
      }
    }
  }

  lemma Stage2Stays(exp: real -> real, e: MixState, u: MixState, r: MixState)
    requires ExpLaws(exp) && OneLesson(exp, e, u, r) && r.stage1Probs == e.stage1Probs
    requires e.stage2Lr == 0.0 || forall i :: 0 <= i < |e.stage1Probs| ==> e.stage1Probs[i] == e.stage1Probs[0]
    ensures r.mixProb == e.mixProb
  {
    hide Softmax, MixRow, Logits1, Logits2, Dot, FreshCaches, StepsAlong, Length1;
    EvaluatedMeans(exp, e, 0);
    EvaluatedMeans(exp, r, 0);
    if e.stage2Lr == 0.0 {
      ZeroLength(e.stage2Lr, 1.0, e.mixProb);
      NoStep(Logits2(e), Logits2(u), e.stage2Mix, e.stage1Probs, e.mixProb);
    } else {
      ConstantMean(exp, Logits2(e), e.stage1Probs);
      ConstantMean(exp, Logits2(r), e.stage1Probs);
    }
  }

  lemma NothingToLearn(exp: real -> real, e: MixState, u: MixState, r: MixState)
    requires ExpLaws(exp) && OneLesson(exp, e, u, r) && e.stage1Lr >= 0.0 && e.stage2Lr >= 0.0 && !CanLearn(e)
    ensures r.mixProb == e.mixProb
  {
    hide OneLesson, Coherent;
    LessonShape(exp, e, u, r);
    forall k | 0 <= k < STAGE1_CONTEXTS ensures r.stage1Probs[k] == e.stage1Probs[k] {
      Stage1Stays(exp, e, u, r, k);
    }
    Stage2Stays(exp, e, u, r);
  }

  lemma SomethingToLearn(exp: real -> real, ln: real -> real, e: MixState, u: MixState, r: MixState)
    requires LogLaws(exp, ln) && OneLesson(exp, e, u, r) && e.stage1Lr >= 0.0 && e.stage2Lr >= 0.0 && CanLearn(e)
    ensures r.mixProb > e.mixProb
  {
    hide OneLesson, Coherent, ExpLaws;
    LogLawsExp(exp, ln);
    LessonShape(exp, e, u, r);
    if e.stage1Lr > 0.0 && exists i, j :: 0 <= i < j < |e.expertProbs| && e.expertProbs[i] != e.expertProbs[j] {
      var i, j :| 0 <= i < j < |e.expertProbs| && e.expertProbs[i] != e.expertProbs[j];
      forall k | 0 <= k < STAGE1_CONTEXTS ensures r.stage1Probs[k] > e.stage1Probs[k] {
        Stage1Rises(exp, ln, e, u, r, k, i, j);
      }
      Stage2Follows(exp, e, u, r);
    } else {
      var i, j :| 0 <= i < j < |e.stage1Probs| && e.stage1Probs[i] != e.stage1Probs[j];
      Stage2Rises(exp, ln, e, u, r, i, j);
    }
  }

  /** The probability rises strictly exactly when the step is not skipped and one of the stages has a positive rate and
      different probabilities to tell apart. */
  lemma LearningHelpsExactly(exp: real -> real, ln: real -> real, s: MixState, lps: seq<LogProb>, minProb: real)
    requires LogLaws(exp, ln) && Coherent(exp, s) && |lps| == s.expertCount && s.stage1Lr >= 0.0 && s.stage2Lr >= 0.0
    ensures var e := Evaluate(exp, s, lps, minProb);
            var u := Update(exp, e, lps, minProb);
            && u.expertCount == s.expertCount
            && (Evaluate(exp, u, lps, minProb).mixProb > e.mixProb <==> !Skipped(e) && CanLearn(e))
  {
    hide Evaluate, Update, Coherent, OneLesson, Skipped, CanLearn, ExpLaws;
    LogLawsExp(exp, ln);
    ExpLawsPositive(exp);
    CoherentParts(exp, s);
    LessonRates(exp, s, lps, minProb);
    var e := Evaluate(exp, s, lps, minProb);
    if Skipped(e) {
      SkippedLesson(exp, s, lps, minProb);
    } else {
      LessonOf(exp, s, lps, minProb);
      var u := Update(exp, e, lps, minProb);
      if CanLearn(e) {
        SomethingToLearn(exp, ln, e, u, Evaluate(exp, u, lps, minProb));
      } else {
        NothingToLearn(exp, e, u, Evaluate(exp, u, lps, minProb));
      }
    }
  }
}
