/** The two-stage softmax mixer as a state machine on values: lazily cached mixtures, evaluation
    of one symbol, and the gradient update of the logits. */
module NeuralMix {
  import opened RealMath
  import opened ContextHash

  const STAGE1_CONTEXTS: nat := 4
  const STAGE1_TABLE_SIZES: seq<nat> := [1, 256, 4096, 4096]
  const STAGE2_TABLE_SIZE: nat := 2048
  const PROB_MIN := 0.000000000001

  datatype MixState = MixState(
    stage1Tables: seq<seq<real>>,
    stage2Table: seq<seq<real>>,
    stage1Lr: real,
    stage2Lr: real,
    updateSkipThreshold: real,
    context: History,
    expertCount: nat,
    expertProbs: seq<real>,
    stage1Mix: seq<real>,
    stage1Probs: seq<real>,
    stage2Mix: seq<real>,
    expertWeights: seq<real>,
    mixProb: real,
    contextMixturesValid: bool,
    evaluated: bool)

  /** An expert's log-probability; minus infinity and NaN are `NonFinite`. */
  datatype LogProb = Finite(lp: real) | NonFinite

  // ---------- Shapes and row selection ----------

  predicate IndicesInRange(indices: seq<nat>)
  {
    |indices| == STAGE1_CONTEXTS && forall k :: 0 <= k < STAGE1_CONTEXTS ==> indices[k] < STAGE1_TABLE_SIZES[k]
  }

  predicate Shaped1(tables: seq<seq<real>>, n: nat)
  {
    |tables| == STAGE1_CONTEXTS && forall k :: 0 <= k < STAGE1_CONTEXTS ==>
        |tables[k]| == Offset(STAGE1_TABLE_SIZES[k], n)
  }

  predicate Shaped2(table: seq<seq<real>>)
  {
    |table| == STAGE2_TABLE_SIZE && forall j :: 0 <= j < STAGE2_TABLE_SIZE ==> |table[j]| == STAGE1_CONTEXTS
  }

  predicate WellFormed(s: MixState)
  {
    && Shaped1(s.stage1Tables, s.expertCount)
    && Shaped2(s.stage2Table)
    && |s.expertProbs| == s.expertCount == |s.expertWeights|
    && |s.stage1Mix| == Offset(STAGE1_CONTEXTS, s.expertCount)
    && |s.stage1Probs| == STAGE1_CONTEXTS == |s.stage2Mix|
  }

  /** The stage-1 rows a history selects: the global one, the previous byte's own, and two hashed ones. */
  function Stage1Indices(h: History): (r: seq<nat>)
    ensures IndicesInRange(r)
    ensures r[0] == 0 && r[1] == if h.hasHistory then h.prev1 else 0
    ensures !h.hasHistory ==> r[2] == r[3] == 0
  {
    if !h.hasHistory then [0, 0, 0, 0]
    else
      [ 0,
        h.prev1,
        HashFields([h.prev1Class, h.prev2Class, h.wordLenBucket, h.prevWordClass, h.bracketBucket,
                    h.quoteFlags, h.utf8Left, Flag(h.sentenceBoundary), Flag(h.paragraphBreak)], STAGE1_TABLE_SIZES[2]),
        HashFields([h.repeatLenBucket, Flag(h.copiedLastByte), Capped(h.runLen, 63), h.prev1Class, h.prev2Class],
                   STAGE1_TABLE_SIZES[3]) ]
  }

  function Stage2Index(h: History): (r: nat)
    ensures r < STAGE2_TABLE_SIZE
  {
    if !h.hasHistory then 0
    else
      HashFields([h.prev1, h.prev2, h.prev1Class, h.prev2Class, h.wordLenBucket, h.prevWordClass,
                  h.bracketBucket, h.quoteFlags, h.utf8Left, h.repeatLenBucket, Flag(h.copiedLastByte),
                  Flag(h.sentenceBoundary), Flag(h.paragraphBreak), Capped(h.runLen, 127)], STAGE2_TABLE_SIZE)
  }

  /** Row `idx` of a flat table with `n` columns. */
  function RowAt(table: seq<real>, idx: nat, n: nat): (r: seq<real>)
    requires Offset(idx, n) + n <= |table|
    ensures |r| == n
  {
    table[Offset(idx, n)..Offset(idx, n) + n]
  }

  /** The logits that context `k` selects. */
  function Stage1Row(tables: seq<seq<real>>, indices: seq<nat>, n: nat, k: nat): (r: seq<real>)
    requires Shaped1(tables, n) && IndicesInRange(indices) && k < STAGE1_CONTEXTS
    ensures Offset(indices[k], n) + n <= |tables[k]|
    ensures |r| == n
  {
    OffsetFits(indices[k], STAGE1_TABLE_SIZES[k], n);
    RowAt(tables[k], indices[k], n)
  }

  /** The cached mixture of context `k`. */
  function MixRow(mix: seq<real>, n: nat, k: nat): (r: seq<real>)
    requires |mix| == Offset(STAGE1_CONTEXTS, n) && k < STAGE1_CONTEXTS
    ensures |r| == n
  {
    OffsetFits(k, STAGE1_CONTEXTS, n);
    RowAt(mix, k, n)
  }

  // ---------- Softmax ----------

  function MaxOf(s: seq<real>): (m: real)
    requires s != []
    ensures forall i :: 0 <= i < |s| ==> s[i] <= m
  {
    if |s| == 1 then s[0]
    else
      var rest := MaxOf(s[..|s| - 1]);
      if s[|s| - 1] > rest then s[|s| - 1] else rest
  }

  function Exps(exp: real -> real, s: seq<real>, m: real): (r: seq<real>)
    ensures |r| == |s| && forall i :: 0 <= i < |s| ==> r[i] == exp(s[i] - m)
  {
    seq(|s|, i requires 0 <= i < |s| => exp(s[i] - m))
  }

  /** `softmax_into`, shifted by the maximum logit. */
  function Softmax(exp: real -> real, logits: seq<real>): (r: seq<real>)
    ensures |r| == |logits|
  {
    if logits == [] then []
    else
      var xs := Exps(exp, logits, MaxOf(logits));
      if Sum(xs) <= 0.0 then Uniform(|logits|) else Scale(1.0 / Sum(xs), xs)
  }

  // ---------- Context mixtures ----------

  /** The first `k` stage-1 mixtures, end to end. */
  function FreshStage1(exp: real -> real, tables: seq<seq<real>>, indices: seq<nat>, n: nat, k: nat): (r: seq<real>)
    requires Shaped1(tables, n) && IndicesInRange(indices) && k <= STAGE1_CONTEXTS
    ensures |r| == Offset(k, n)
  {
    if k == 0 then []
    else FreshStage1(exp, tables, indices, n, k - 1) + Softmax(exp, Stage1Row(tables, indices, n, k - 1))
  }

  /** Stage-1 mixtures weighted by the first `k` stage-2 weights. */
  function WeightsTo(stage1Mix: seq<real>, stage2Mix: seq<real>, n: nat, k: nat): (r: seq<real>)
    requires |stage1Mix| == Offset(STAGE1_CONTEXTS, n) && |stage2Mix| == STAGE1_CONTEXTS && k <= STAGE1_CONTEXTS
    ensures |r| == n
  {
    if k == 0 then seq(n, i => 0.0)
    else AddScaled(WeightsTo(stage1Mix, stage2Mix, n, k - 1), stage2Mix[k - 1], MixRow(stage1Mix, n, k - 1))
  }

  function Stage1MixOf(exp: real -> real, s: MixState): (r: seq<real>)
    requires WellFormed(s)
    ensures |r| == Offset(STAGE1_CONTEXTS, s.expertCount)
  {
    FreshStage1(exp, s.stage1Tables, Stage1Indices(s.context), s.expertCount, STAGE1_CONTEXTS)
  }

  function Stage2MixOf(exp: real -> real, s: MixState): (r: seq<real>)
    requires WellFormed(s)
    ensures |r| == STAGE1_CONTEXTS
  {
    Softmax(exp, s.stage2Table[Stage2Index(s.context)])
  }

  /** `ensure_context_mixtures`. */
  function EnsureMixtures(exp: real -> real, s: MixState): (r: MixState)
    requires WellFormed(s)
    ensures WellFormed(r) && r.expertCount == s.expertCount && r.expertProbs == s.expertProbs
  {
    if s.contextMixturesValid then s
    else
      var stage1, stage2 := Stage1MixOf(exp, s), Stage2MixOf(exp, s);
      s.(stage1Mix := stage1, stage2Mix := stage2,
         expertWeights := WeightsTo(stage1, stage2, s.expertCount, STAGE1_CONTEXTS),
         contextMixturesValid := true)
  }

  // ---------- Construction ----------

  function LogPriors(ln: real -> real, priors: seq<real>): (r: seq<real>)
    ensures |r| == |priors|
  {
    seq(|priors|, i requires 0 <= i < |priors| => ln(Max(priors[i], PROB_MIN)))
  }

  /** Zero logits everywhere except the global row, which holds the log priors. */
  predicate PriorTables(ln: real -> real, tables: seq<seq<real>>, priors: seq<real>)
  {
    && Shaped1(tables, |priors|)
    && |priors| <= |tables[0]| && tables[0][..|priors|] == LogPriors(ln, priors)
    && (forall k, j :: 0 <= k < STAGE1_CONTEXTS && 0 <= j < |tables[k]| ==>
        (k == 0 && j < |priors|) || tables[k][j] == 0.0)
  }

  /** A mixer as `new` and `reset_to_priors` leave it. */
  predicate Initial(ln: real -> real, s: MixState, priors: seq<real>)
  {
    && s.expertCount == |priors|
    && WellFormed(s)
    && PriorTables(ln, s.stage1Tables, priors)
    && (forall j :: 0 <= j < STAGE2_TABLE_SIZE ==> s.stage2Table[j] == Zeros(STAGE1_CONTEXTS))
    && s.context == EMPTY_HISTORY && s.mixProb == 1.0 / 256.0
    && s.expertProbs == s.expertWeights == Zeros(|priors|)
    && s.stage1Mix == Zeros(|s.stage1Mix|)
    && s.stage1Probs == s.stage2Mix == Zeros(STAGE1_CONTEXTS)
    && !s.contextMixturesValid && !s.evaluated
  }

  function FreshTables(ln: real -> real, priors: seq<real>): (r: seq<seq<real>>)
    ensures PriorTables(ln, r, priors)
  {
    OffsetFits(0, 1, |priors|);
    seq(STAGE1_CONTEXTS, k requires 0 <= k < STAGE1_CONTEXTS =>
      if k == 0 then LogPriors(ln, priors) + Zeros(Offset(STAGE1_TABLE_SIZES[0], |priors|) - |priors|)
      else Zeros(Offset(STAGE1_TABLE_SIZES[k], |priors|)))
  }

  /** `reset_to_priors`: everything but the rates and the threshold starts over. */
  function Reset(ln: real -> real, s: MixState, priors: seq<real>): (r: MixState)
    requires |priors| == s.expertCount
    ensures Initial(ln, r, priors) && r.expertCount == s.expertCount
  {
    var n := s.expertCount;
    MixState(FreshTables(ln, priors), seq(STAGE2_TABLE_SIZE, _ => Zeros(STAGE1_CONTEXTS)),
             s.stage1Lr, s.stage2Lr, s.updateSkipThreshold, EMPTY_HISTORY, n, Zeros(n),
             Zeros(Offset(STAGE1_CONTEXTS, n)), Zeros(STAGE1_CONTEXTS), Zeros(STAGE1_CONTEXTS), Zeros(n),
             1.0 / 256.0, false, false)
  }

  /** The priors determine a mixer that starts over, but for its rates and threshold. */
  lemma InitialIsReset(ln: real -> real, s: MixState, t: MixState, priors: seq<real>)
    requires |priors| == s.expertCount && Initial(ln, t, priors)
    requires t.stage1Lr == s.stage1Lr && t.stage2Lr == s.stage2Lr && t.updateSkipThreshold == s.updateSkipThreshold
    ensures t == Reset(ln, s, priors)
  {
    var r := Reset(ln, s, priors);
    forall k | 0 <= k < STAGE1_CONTEXTS ensures t.stage1Tables[k] == r.stage1Tables[k] {
      SameTable(ln, t.stage1Tables, r.stage1Tables, priors, k);
    }
    assert t.stage1Tables == r.stage1Tables;
    assert t.stage2Table == r.stage2Table;
  }

  lemma SameTable(ln: real -> real, a: seq<seq<real>>, b: seq<seq<real>>, priors: seq<real>, k: nat)
    requires PriorTables(ln, a, priors) && PriorTables(ln, b, priors) && k < STAGE1_CONTEXTS
    ensures a[k] == b[k]
  {
    forall j | 0 <= j < |a[k]| ensures a[k][j] == b[k][j] {
      if k == 0 && j < |priors| {
        assert a[0][..|priors|][j] == b[0][..|priors|][j];
      }
    }
  }

  // ---------- Operations ----------

  function SetContext(s: MixState, context: History): MixState
  {
    s.(context := context, contextMixturesValid := false, evaluated := false)
  }

  function ExpertProb(exp: real -> real, lp: LogProb, floor: real): (p: real)
    requires 0.0 < floor <= 0.49
    ensures floor <= p <= 1.0 - floor
  {
    var p := match lp case Finite(x) => exp(x) case NonFinite => floor;
    Min(Max(p, floor), 1.0 - floor)
  }

  function ExpertProbs(exp: real -> real, lps: seq<LogProb>, floor: real): (r: seq<real>)
    requires 0.0 < floor <= 0.49
    ensures |r| == |lps| && forall i :: 0 <= i < |r| ==> floor <= r[i] <= 1.0 - floor
  {
    seq(|lps|, i requires 0 <= i < |lps| => ExpertProb(exp, lps[i], floor))
  }

  /** The code's `max(floor)` then `min(1 - floor)`. */
  function Bound(x: real, floor: real): (r: real)
    requires 0.0 < floor <= 0.49
    ensures floor <= r <= 1.0 - floor
    ensures floor <= x <= 1.0 - floor ==> r == x
  {
    Min(Max(x, floor), 1.0 - floor)
  }

  /** The bounded stage-1 probabilities of the first `k` contexts. */
  function Stage1ProbsTo(mix: seq<real>, probs: seq<real>, floor: real, k: nat): (r: seq<real>)
    requires 0.0 < floor <= 0.49 && |mix| == Offset(STAGE1_CONTEXTS, |probs|) && k <= STAGE1_CONTEXTS
    ensures |r| == k && forall j :: 0 <= j < k ==> r[j] == Bound(Dot(MixRow(mix, |probs|, j), probs), floor)
  {
    if k == 0 then []
    else Stage1ProbsTo(mix, probs, floor, k - 1) + [Bound(Dot(MixRow(mix, |probs|, k - 1), probs), floor)]
  }

  /** Both stages of the mixture, over refreshed caches. */
  function MixStages(t: MixState, floor: real): (r: MixState)
    requires WellFormed(t) && 0.0 < floor <= 0.49
    ensures WellFormed(r) && r.evaluated && r.expertCount == t.expertCount
  {
    var stage1Probs := Stage1ProbsTo(t.stage1Mix, t.expertProbs, floor, STAGE1_CONTEXTS);
    t.(stage1Probs := stage1Probs, mixProb := Bound(Dot(t.stage2Mix, stage1Probs), floor), evaluated := true)
  }

  /** `evaluate_symbol`: the result is left in `mixProb`. */
  function Evaluate(exp: real -> real, s: MixState, lps: seq<LogProb>, minProb: real): (r: MixState)
    requires WellFormed(s) && |lps| == s.expertCount
    ensures WellFormed(r) && r.evaluated && r.expertCount == s.expertCount
  {
    var floor := ProbFloor(minProb);
    MixStages(EnsureMixtures(exp, s.(expertProbs := ExpertProbs(exp, lps, floor))), floor)
  }

  /** `evaluate_expert_weights`: refreshes the weights and drops any symbol result. */
  function EvaluateWeights(exp: real -> real, s: MixState): (r: MixState)
    requires WellFormed(s)
    ensures WellFormed(r) && r.contextMixturesValid && !r.evaluated
  {
    EnsureMixtures(exp, s).(evaluated := false)
  }

  /** The log-likelihood gradient of one logit. */
  function GradientEntry(scale: real, weight: real, value: real, mean: real, pMix: real): real
    requires pMix > 0.0
  {
    scale * weight * (value - mean) / pMix
  }

  /** The log-likelihood gradient of one row's logits. */
  function Gradient(scale: real, weights: seq<real>, values: seq<real>, mean: real, pMix: real): (r: seq<real>)
    requires |weights| == |values| && pMix > 0.0
    ensures |r| == |weights|
  {
    if weights == [] then []
    else
      var n := |weights| - 1;
      Gradient(scale, weights[..n], values[..n], mean, pMix) + [GradientEntry(scale, weights[n], values[n], mean, pMix)]
  }

  /** Context `k`'s row of logits takes its gradient step. */
  function UpdateRow1(s: MixState, tables: seq<seq<real>>, pMix: real, k: nat): (r: seq<seq<real>>)
    requires WellFormed(s) && Shaped1(tables, s.expertCount) && pMix > 0.0 && k < STAGE1_CONTEXTS
    ensures Shaped1(r, s.expertCount)
  {
    var n, indices := s.expertCount, Stage1Indices(s.context);
    var gradient := Gradient(s.stage2Mix[k], MixRow(s.stage1Mix, n, k), s.expertProbs, s.stage1Probs[k], pMix);
    var row := AddScaled(Stage1Row(tables, indices, n, k), s.stage1Lr, gradient);
    tables[k := Splice(tables[k], Offset(indices[k], n), row)]
  }

  function UpdateRows1(s: MixState, pMix: real, k: nat): (r: seq<seq<real>>)
    requires WellFormed(s) && pMix > 0.0 && k <= STAGE1_CONTEXTS
    ensures Shaped1(r, s.expertCount)
  {
    if k == 0 then s.stage1Tables else UpdateRow1(s, UpdateRows1(s, pMix, k - 1), pMix, k - 1)
  }

  function UpdateRow2(s: MixState, pMix: real): (r: seq<seq<real>>)
    requires WellFormed(s) && pMix > 0.0
    ensures Shaped2(r)
  {
    var j := Stage2Index(s.context);
    var gradient := Gradient(1.0, s.stage2Mix, s.stage1Probs, pMix, pMix);
    s.stage2Table[j := AddScaled(s.stage2Table[j], s.stage2Lr, gradient)]
  }

  function Abs(x: real): real
  {
    if x < 0.0 then -x else x
  }

  /** `update_weights_symbol`. */
  function Update(exp: real -> real, s: MixState, lps: seq<LogProb>, minProb: real): (r: MixState)
    requires WellFormed(s) && |lps| == s.expertCount
    ensures WellFormed(r)
  {
    var t := if s.evaluated then s else Evaluate(exp, s, lps, minProb);
    var pMix := Max(t.mixProb, PROB_MIN);
    if Abs(1.0 - pMix) <= t.updateSkipThreshold then t
    else
      t.(stage2Table := UpdateRow2(t, pMix), stage1Tables := UpdateRows1(t, pMix, STAGE1_CONTEXTS),
         evaluated := false, contextMixturesValid := false)
  }
}
