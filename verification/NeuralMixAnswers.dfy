/** What the two-stage mixer answers, stated on logits, shares and probabilities alone. */
module NeuralMixAnswers {
  import opened RealMath
  import opened LogMath
  import opened ContextHash
  import opened NeuralMix
  import opened NeuralMixLaws
  import opened SoftmaxLaws

  // ---------- Logits and shares ----------

  /** Expert `i`'s logit in row `idx` of stage-1 table `k`. */
  function Logit(s: MixState, k: nat, idx: nat, i: nat): real
    requires WellFormed(s) && k < STAGE1_CONTEXTS && idx < STAGE1_TABLE_SIZES[k] && i < s.expertCount
  {
    OffsetFits(idx, STAGE1_TABLE_SIZES[k], s.expertCount);
    s.stage1Tables[k][Offset(idx, s.expertCount) + i]
  }

  /** Expert `i`'s logit in the row that context `k` selects. */
  function Logit1(s: MixState, k: nat, i: nat): real
    requires WellFormed(s) && k < STAGE1_CONTEXTS && i < s.expertCount
  {
    Logit(s, k, Stage1Indices(s.context)[k], i)
  }

  /** Context `k`'s logit in the selected stage-2 row. */
  function Logit2(s: MixState, k: nat): real
    requires WellFormed(s) && k < STAGE1_CONTEXTS
  {
    s.stage2Table[Stage2Index(s.context)][k]
  }

  /** Expert `i`'s share in the cached mixture of context `k`. */
  function Share1(s: MixState, k: nat, i: nat): real
    requires WellFormed(s) && k < STAGE1_CONTEXTS && i < s.expertCount
  {
    OffsetFits(k, STAGE1_CONTEXTS, s.expertCount);
    s.stage1Mix[Offset(k, s.expertCount) + i]
  }

  /** The logits that context `k` selects, as a row. */
  function Logits1(s: MixState, k: nat): (r: seq<real>)
    requires WellFormed(s) && k < STAGE1_CONTEXTS
    ensures |r| == s.expertCount
  {
    Stage1Row(s.stage1Tables, Stage1Indices(s.context), s.expertCount, k)
  }

  function Logits2(s: MixState): (r: seq<real>)
    requires WellFormed(s)
    ensures |r| == STAGE1_CONTEXTS
  {
    s.stage2Table[Stage2Index(s.context)]
  }

  lemma Logit1InRow(s: MixState, k: nat, i: nat)
    requires WellFormed(s) && k < STAGE1_CONTEXTS && i < s.expertCount
    ensures Logits1(s, k)[i] == Logit1(s, k, i)
  {
  }

  lemma Share1InRow(s: MixState, k: nat, i: nat)
    requires WellFormed(s) && k < STAGE1_CONTEXTS && i < s.expertCount
    ensures MixRow(s.stage1Mix, s.expertCount, k)[i] == Share1(s, k, i)
  {
    OffsetFits(k, STAGE1_CONTEXTS, s.expertCount);
  }

  /** Cached mixtures are the softmax of the selected logits. */
  lemma CachedRow(exp: real -> real, s: MixState, k: nat)
    requires WellFormed(s) && FreshCaches(exp, s) && s.contextMixturesValid && k < STAGE1_CONTEXTS
    ensures MixRow(s.stage1Mix, s.expertCount, k) == Softmax(exp, Logits1(s, k))
    ensures s.stage2Mix == Softmax(exp, Logits2(s))
  {
    hide Softmax, Stage1Indices, Stage2Index, Stage1Row, WeightsTo;
    FreshRow(exp, s.stage1Tables, Stage1Indices(s.context), s.expertCount, STAGE1_CONTEXTS, k);
  }

  // ---------- Evaluation ----------

  /** Evaluating touches no logit, no rate and no context, and leaves valid caches behind. */
  lemma EvaluateFields(exp: real -> real, s: MixState, lps: seq<LogProb>, minProb: real)
    requires WellFormed(s) && |lps| == s.expertCount
    ensures var r := Evaluate(exp, s, lps, minProb);
            && r.stage1Tables == s.stage1Tables && r.stage2Table == s.stage2Table && r.context == s.context
            && r.stage1Lr == s.stage1Lr && r.stage2Lr == s.stage2Lr && r.updateSkipThreshold == s.updateSkipThreshold
            && r.expertProbs == ExpertProbs(exp, lps, ProbFloor(minProb))
            && r.contextMixturesValid
  {
    hide Stage1MixOf, Stage2MixOf, WeightsTo, Stage1ProbsTo, ExpertProbs, Dot;
  }

  /** A finite log probability enters as its exponential inside the floors, any other as the floor. */
  lemma ExpertsEnterAs(exp: real -> real, s: MixState, lps: seq<LogProb>, minProb: real, i: nat)
    requires WellFormed(s) && |lps| == s.expertCount && i < |lps|
    ensures var p, floor := Evaluate(exp, s, lps, minProb).expertProbs[i], ProbFloor(minProb);
            match lps[i]
            case Finite(lp) => p == Clamp(exp(lp), floor, 1.0 - floor)
            case NonFinite => p == floor
  {
    hide Evaluate;
    EvaluateFields(exp, s, lps, minProb);
  }

  lemma SelectedLogits(exp: real -> real, s: MixState, lps: seq<LogProb>, minProb: real, k: nat)
    requires WellFormed(s) && |lps| == s.expertCount && k < STAGE1_CONTEXTS
    ensures var r := Evaluate(exp, s, lps, minProb);
            r.expertCount == s.expertCount && Logits1(r, k) == Logits1(s, k) && Logits2(r) == Logits2(s)
  {
    hide Evaluate, Stage1Indices, Stage2Index, Stage1Row, WellFormed;
    EvaluateFields(exp, s, lps, minProb);
  }

  lemma CoherentParts(exp: real -> real, s: MixState)
    requires Coherent(exp, s)
    ensures WellFormed(s) && FreshCaches(exp, s)
  {
  }

  lemma EvaluatedRow(exp: real -> real, s: MixState, lps: seq<LogProb>, minProb: real, k: nat)
    requires ExpLaws(exp) && Coherent(exp, s) && |lps| == s.expertCount && k < STAGE1_CONTEXTS
    ensures var r := Evaluate(exp, s, lps, minProb);
            && r.expertCount == s.expertCount
            && MixRow(r.stage1Mix, r.expertCount, k) == Softmax(exp, Logits1(s, k))
            && r.stage2Mix == Softmax(exp, Logits2(s))
  {
    hide Evaluate, Coherent, FreshCaches, Softmax, Logits1, Logits2, WellFormed, MixRow;
    CoherentParts(exp, s);
    EvaluateKeepsCoherent(exp, s, lps, minProb);
    CoherentParts(exp, Evaluate(exp, s, lps, minProb));
    EvaluateFields(exp, s, lps, minProb);
    SelectedLogits(exp, s, lps, minProb, k);
    CachedRow(exp, Evaluate(exp, s, lps, minProb), k);
  }

  /** In every context, two experts' shares are to each other as the exponentials of their selected logits. */
  lemma Stage1Odds(exp: real -> real, s: MixState, lps: seq<LogProb>, minProb: real, k: nat, i: nat, j: nat)
    requires ExpLaws(exp) && Coherent(exp, s) && |lps| == s.expertCount
    requires k < STAGE1_CONTEXTS && i < s.expertCount && j < s.expertCount
    ensures var r := Evaluate(exp, s, lps, minProb);
            && r.expertCount == s.expertCount
            && Times(Share1(r, k, i), exp(Logit1(s, k, j))) == Times(Share1(r, k, j), exp(Logit1(s, k, i)))
  {
    hide Evaluate, Coherent, Softmax, Logits1, Logit1, Share1, WellFormed, MixRow, Times;
    CoherentParts(exp, s);
    EvaluatedRow(exp, s, lps, minProb, k);
    var r := Evaluate(exp, s, lps, minProb);
    Share1InRow(r, k, i);
    Share1InRow(r, k, j);
    Logit1InRow(s, k, i);
    Logit1InRow(s, k, j);
    SoftmaxOdds(exp, Logits1(s, k), i, j);
  }

  /** Two contexts' weights are to each other as the exponentials of their selected stage-2 logits. */
  lemma Stage2Odds(exp: real -> real, s: MixState, lps: seq<LogProb>, minProb: real, k: nat, j: nat)
    requires ExpLaws(exp) && Coherent(exp, s) && |lps| == s.expertCount && k < STAGE1_CONTEXTS && j < STAGE1_CONTEXTS
    ensures var r := Evaluate(exp, s, lps, minProb);
            Times(r.stage2Mix[k], exp(Logit2(s, j))) == Times(r.stage2Mix[j], exp(Logit2(s, k)))
  {
    hide Evaluate, Coherent, Softmax, Logits1, MixRow, Times;
    CoherentParts(exp, s);
    EvaluatedRow(exp, s, lps, minProb, k);
    SoftmaxOdds(exp, Logits2(s), k, j);
  }

  // ---------- Expert weights ----------

  /** Expert `i`'s weight over the first `k` contexts: its share in each, times the context's weight. */
  function WeightOver(s: MixState, i: nat, k: nat): real
    requires WellFormed(s) && i < s.expertCount && k <= STAGE1_CONTEXTS
  {
    if k == 0 then 0.0 else WeightOver(s, i, k - 1) + Times(s.stage2Mix[k - 1], Share1(s, k - 1, i))
  }

  lemma {:induction false} WeightsOver(s: MixState, i: nat, k: nat)
    requires WellFormed(s) && i < s.expertCount && k <= STAGE1_CONTEXTS
    ensures WeightsTo(s.stage1Mix, s.stage2Mix, s.expertCount, k)[i] == WeightOver(s, i, k)
  {
    hide Share1, MixRow, AddScaled;
    if k > 0 {
      WeightsOver(s, i, k - 1);
      Share1InRow(s, k - 1, i);
      AddScaledAt(WeightsTo(s.stage1Mix, s.stage2Mix, s.expertCount, k - 1), s.stage2Mix[k - 1],
                  MixRow(s.stage1Mix, s.expertCount, k - 1), i);
    }
  }

  /** An expert's weight after an evaluation: its shares in the four contexts, weighted by these. */
  lemma WeightsAreShares(exp: real -> real, s: MixState, lps: seq<LogProb>, minProb: real, i: nat)
    requires ExpLaws(exp) && Coherent(exp, s) && |lps| == s.expertCount && i < s.expertCount
    ensures var r := Evaluate(exp, s, lps, minProb);
            r.expertCount == s.expertCount && r.expertWeights[i] == WeightOver(r, i, STAGE1_CONTEXTS)
  {
    hide Evaluate, Coherent, WeightsTo, WeightOver, Stage1MixOf, Stage2MixOf;
    CoherentParts(exp, s);
    EvaluateKeepsCoherent(exp, s, lps, minProb);
    var r := Evaluate(exp, s, lps, minProb);
    CoherentParts(exp, r);
    EvaluateFields(exp, s, lps, minProb);
    WeightsOver(r, i, STAGE1_CONTEXTS);
  }

  // ---------- A mixer fresh from its priors ----------

  function FlooredPriors(priors: seq<real>): (r: seq<real>)
    ensures |r| == |priors| && forall i :: 0 <= i < |r| ==> r[i] == Max(priors[i], 0.000000000001) > 0.0
  {
    seq(|priors|, i requires 0 <= i < |priors| => Max(priors[i], 0.000000000001))
  }

  lemma FreshLogit(ln: real -> real, s: MixState, priors: seq<real>, k: nat, i: nat)
    requires WellFormed(s) && s.expertCount == |priors| && PriorTables(ln, s.stage1Tables, priors)
    requires k < STAGE1_CONTEXTS && i < |priors|
    ensures Logits1(s, k)[i] == if k == 0 then ln(FlooredPriors(priors)[i]) else 0.0
  {
    hide Stage1Indices;
    var idx := Stage1Indices(s.context)[k];
    OffsetFits(idx, STAGE1_TABLE_SIZES[k], |priors|);
    if k == 0 {
      assert idx == 0;
      assert s.stage1Tables[0][i] == s.stage1Tables[0][..|priors|][i] == LogPriors(ln, priors)[i];
    }
  }

  lemma ShareOf(share: real, total: real, x: real)
    requires Times(share, total) == x && total > 0.0
    ensures share == x / total
  {
  }

  lemma PriorShare(exp: real -> real, ln: real -> real, logits: seq<real>, priors: seq<real>, i: nat)
    requires LogLaws(exp, ln) && |logits| == |priors| && i < |priors|
    requires forall j :: 0 <= j < |priors| ==> logits[j] == ln(FlooredPriors(priors)[j])
    ensures Sum(FlooredPriors(priors)) > 0.0
    ensures Softmax(exp, logits)[i] == FlooredPriors(priors)[i] / Sum(FlooredPriors(priors))
  {
    hide Softmax, Sum, Times;
    forall j | 0 <= j < |priors| ensures ExpsOf(exp, logits)[j] == FlooredPriors(priors)[j] {
      ExpInverts(exp, ln, FlooredPriors(priors)[j]);
    }
    assert ExpsOf(exp, logits) == FlooredPriors(priors);
    SumPositive(FlooredPriors(priors));
    LogLawsExp(exp, ln);
    SoftmaxShare(exp, logits, i);
    ShareOf(Softmax(exp, logits)[i], Sum(FlooredPriors(priors)), exp(logits[i]));
  }

  lemma FreshInContext(exp: real -> real, ln: real -> real, s: MixState, priors: seq<real>, context: History)
    requires Initial(ln, s, priors)
    ensures var t := SetContext(s, context);
            && Coherent(exp, t) && t.expertCount == |priors| && PriorTables(ln, t.stage1Tables, priors)
            && Logits2(t) == Zeros(STAGE1_CONTEXTS)
  {
    InitialSums(exp, ln, s, priors);
    hide PriorTables, TotalsOf, Stage2Index;
    ContextIsSafe(exp, s, context);
  }

  /** The shares of a fresh mixer: in the global row the floored priors', elsewhere and in stage 2 all equal. */
  lemma FreshShare(exp: real -> real, ln: real -> real, t: MixState, priors: seq<real>, k: nat, i: nat)
    requires LogLaws(exp, ln) && WellFormed(t) && t.expertCount == |priors| && PriorTables(ln, t.stage1Tables, priors)
    requires k < STAGE1_CONTEXTS && i < |priors|
    ensures Sum(FlooredPriors(priors)) > 0.0
    ensures Softmax(exp, Logits1(t, k))[i]
         == if k == 0 then FlooredPriors(priors)[i] / Sum(FlooredPriors(priors)) else 1.0 / |priors| as real
  {
    hide Softmax, Sum, PriorTables, WellFormed, Logits1;
    forall j | 0 <= j < |priors|
      ensures Logits1(t, k)[j] == if k == 0 then ln(FlooredPriors(priors)[j]) else 0.0
    {
      FreshLogit(ln, t, priors, k, j);
    }
    SumPositive(FlooredPriors(priors));
    if k == 0 {
      PriorShare(exp, ln, Logits1(t, k), priors, i);
    } else {
      LogLawsExp(exp, ln);
      UniformShare(exp, Logits1(t, k), i);
    }
  }

  lemma OverNext(r: MixState, i: nat, k: nat)
    requires WellFormed(r) && i < r.expertCount && k < STAGE1_CONTEXTS
    ensures WeightOver(r, i, k + 1) == WeightOver(r, i, k) + r.stage2Mix[k] * Share1(r, k, i)
  {
    hide WellFormed, Share1;
  }

  lemma QuarterOfEach(r: MixState, i: nat, first: real, other: real)
    requires WellFormed(r) && i < r.expertCount && forall k :: 0 <= k < STAGE1_CONTEXTS ==> r.stage2Mix[k] == 0.25
    requires forall k :: 0 <= k < STAGE1_CONTEXTS ==> Share1(r, k, i) == if k == 0 then first else other
    ensures WeightOver(r, i, STAGE1_CONTEXTS) == 0.25 * first + 0.75 * other
  {
    assert WeightOver(r, i, 0) == 0.0;
    hide Share1, WellFormed, WeightOver;
    OverNext(r, i, 0);
    OverNext(r, i, 1);
    OverNext(r, i, 2);
    OverNext(r, i, 3);
  }

  lemma EvenContexts(exp: real -> real, logits: seq<real>)
    requires ExpLaws(exp) && logits == Zeros(STAGE1_CONTEXTS)
    ensures forall k :: 0 <= k < STAGE1_CONTEXTS ==> Softmax(exp, logits)[k] == 0.25
  {
    hide Softmax;
    forall k | 0 <= k < STAGE1_CONTEXTS ensures Softmax(exp, logits)[k] == 0.25 {
      UniformShare(exp, logits, k);
    }
  }

  lemma FreshWeight(exp: real -> real, ln: real -> real, t: MixState, priors: seq<real>, lps: seq<LogProb>,
                    minProb: real, i: nat)
    requires LogLaws(exp, ln) && Coherent(exp, t) && t.expertCount == |priors| == |lps| && i < |priors|
    requires PriorTables(ln, t.stage1Tables, priors) && Logits2(t) == Zeros(STAGE1_CONTEXTS)
    ensures Sum(FlooredPriors(priors)) > 0.0
    ensures Evaluate(exp, t, lps, minProb).expertWeights[i]
         == 0.25 * (FlooredPriors(priors)[i] / Sum(FlooredPriors(priors))) + 0.75 * (1.0 / |priors| as real)
  {
    hide Evaluate, Coherent, WellFormed, FreshCaches, PriorTables, Softmax, Sum, Share1, WeightOver, MixRow, Logits1;
    LogLawsExp(exp, ln);
    CoherentParts(exp, t);
    var r := Evaluate(exp, t, lps, minProb);
    FreshShare(exp, ln, t, priors, 0, i);
    forall k | 0 <= k < STAGE1_CONTEXTS
      ensures Share1(r, k, i)
           == if k == 0 then FlooredPriors(priors)[i] / Sum(FlooredPriors(priors)) else 1.0 / |priors| as real
    {
      EvaluatedRow(exp, t, lps, minProb, k);
      Share1InRow(r, k, i);
      FreshShare(exp, ln, t, priors, k, i);
    }
    EvaluatedRow(exp, t, lps, minProb, 0);
    EvenContexts(exp, Logits2(t));
    QuarterOfEach(r, i, FlooredPriors(priors)[i] / Sum(FlooredPriors(priors)), 1.0 / |priors| as real);
    WeightsAreShares(exp, t, lps, minProb, i);
  }

  /** Every expert's weight in a mixer fresh from `priors`. */
  function FreshWeights(priors: seq<real>): (r: seq<real>)
    requires priors != []
    ensures |r| == |priors|
  {
    SumPositive(FlooredPriors(priors));
    seq(|priors|, i requires 0 <= i < |priors| =>
      0.25 * (FlooredPriors(priors)[i] / Sum(FlooredPriors(priors))) + 0.75 * (1.0 / |priors| as real))
  }

  /** In a mixer fresh from its priors, whatever the context, an expert weighs a quarter of its floored prior's share
      and three quarters of an even one, and the result is the experts' probabilities under these weights. */
  lemma FreshEvaluation(exp: real -> real, ln: real -> real, s: MixState, priors: seq<real>, context: History,
                        lps: seq<LogProb>, minProb: real)
    requires LogLaws(exp, ln) && Initial(ln, s, priors) && |lps| == |priors| > 0
    ensures var t := SetContext(s, context);
            && WellFormed(t) && t.expertCount == |priors|
            && var r := Evaluate(exp, t, lps, minProb);
               && r.expertWeights == FreshWeights(priors)
               && r.mixProb == Dot(r.expertWeights, r.expertProbs)
  {
    hide Initial, SetContext, Evaluate, Coherent, WellFormed, FreshCaches, EvaluationMatches, PriorTables, Sum, Dot,
         Logits2;
    var t := SetContext(s, context);
    FreshInContext(exp, ln, s, priors, context);
    CoherentParts(exp, t);
    LogLawsExp(exp, ln);
    ExpLawsPositive(exp);
    var r := Evaluate(exp, t, lps, minProb);
    EvaluateKeepsCoherent(exp, t, lps, minProb);
    WeightsExplainResult(exp, r);
    WeightCount(exp, r);
    forall i | 0 <= i < |priors| ensures r.expertWeights[i] == FreshWeights(priors)[i] {
      FreshWeight(exp, ln, t, priors, lps, minProb, i);
    }
  }

  lemma WeightCount(exp: real -> real, r: MixState)
    requires Coherent(exp, r)
    ensures |r.expertWeights| == |r.expertProbs| == r.expertCount
  {
  }
}
