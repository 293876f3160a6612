/** What the two-stage mixer guarantees over whole runs: its caches are never stale, it predicts a
    convex combination of its experts, and learning conserves every row's total logit. */
module NeuralMixLaws {
  import opened RealMath
  import opened ContextHash
  import opened NeuralMix

  // ---------- Softmax ----------

  predicate Distribution(s: seq<real>)
  {
    Sum(s) == 1.0 && forall i :: 0 <= i < |s| ==> s[i] >= 0.0
  }

  lemma SoftmaxIsDistribution(exp: real -> real, logits: seq<real>)
    requires Positive(exp) && logits != []
    ensures Distribution(Softmax(exp, logits))
  {
    hide Sum, Scale, MaxOf;
    var xs := Exps(exp, logits, MaxOf(logits));
    SumPositive(xs);
    Reciprocal(Sum(xs));
    SumScale(1.0 / Sum(xs), xs);
    ScaleNonNegative(1.0 / Sum(xs), xs);
  }

  lemma Slices(prev: seq<real>, last: seq<real>, start: nat, n: nat)
    requires start + n <= |prev|
    ensures (prev + last)[start..start + n] == prev[start..start + n]
  {
  }

  lemma {:induction false} FreshRow(exp: real -> real, tables: seq<seq<real>>, indices: seq<nat>, n: nat, k: nat,
                                    j: nat)
    requires Shaped1(tables, n) && IndicesInRange(indices) && j < k <= STAGE1_CONTEXTS
    ensures Offset(j, n) + n <= Offset(k, n)
    ensures FreshStage1(exp, tables, indices, n, k)[Offset(j, n)..Offset(j, n) + n]
         == Softmax(exp, Stage1Row(tables, indices, n, j))
  {
    hide Softmax, Stage1Row, Offset, Shaped1, IndicesInRange;
    OffsetFits(j, k, n);
    OffsetStep(k, n);
    var prev := FreshStage1(exp, tables, indices, n, k - 1);
    var last := Softmax(exp, Stage1Row(tables, indices, n, k - 1));
    if j < k - 1 {
      OffsetFits(j, k - 1, n);
      FreshRow(exp, tables, indices, n, k - 1, j);
      Slices(prev, last, Offset(j, n), n);
    } else {
      assert (prev + last)[|prev|..|prev| + n] == last;
    }
  }

  lemma OffsetStep(k: nat, n: nat)
    requires k > 0
    ensures Offset(k, n) == Offset(k - 1, n) + n
  {
  }

  // ---------- The caches ----------

  /** Valid mixtures are the ones a recomputation from the tables and the context would give. */
  ghost predicate FreshCaches(exp: real -> real, s: MixState)
    requires WellFormed(s)
  {
    s.contextMixturesValid ==>
      && s.stage1Mix == Stage1MixOf(exp, s)
      && s.stage2Mix == Stage2MixOf(exp, s)
      && s.expertWeights == WeightsTo(s.stage1Mix, s.stage2Mix, s.expertCount, STAGE1_CONTEXTS)
  }

  /** Evaluated results are the unclamped mixtures of the stored expert probabilities. */
  predicate EvaluationMatches(s: MixState)
    requires WellFormed(s)
  {
    s.evaluated ==>
      && s.contextMixturesValid
      && PROB_MIN <= s.mixProb < 1.0
      && s.mixProb == Dot(s.stage2Mix, s.stage1Probs)
      && (s.expertCount > 0 ==>
           forall k :: 0 <= k < STAGE1_CONTEXTS ==>
             s.stage1Probs[k] == Dot(MixRow(s.stage1Mix, s.expertCount, k), s.expertProbs))
  }

  ghost predicate Coherent(exp: real -> real, s: MixState)
  {
    WellFormed(s) && FreshCaches(exp, s) && EvaluationMatches(s)
  }

  lemma MixturesAreDistributions(exp: real -> real, s: MixState)
    requires Positive(exp) && WellFormed(s) && FreshCaches(exp, s) && s.contextMixturesValid
    ensures Distribution(s.stage2Mix)
    ensures s.expertCount > 0 ==>
              forall k :: 0 <= k < STAGE1_CONTEXTS ==> Distribution(MixRow(s.stage1Mix, s.expertCount, k))
  {
    hide Distribution, Softmax, Stage1Indices, Stage2Index;
    SoftmaxIsDistribution(exp, s.stage2Table[Stage2Index(s.context)]);
    if s.expertCount > 0 {
      var indices := Stage1Indices(s.context);
      forall k | 0 <= k < STAGE1_CONTEXTS ensures Distribution(MixRow(s.stage1Mix, s.expertCount, k)) {
        FreshRow(exp, s.stage1Tables, indices, s.expertCount, STAGE1_CONTEXTS, k);
        SoftmaxIsDistribution(exp, Stage1Row(s.stage1Tables, indices, s.expertCount, k));
      }
    }
  }

  lemma EnsureKeepsFresh(exp: real -> real, s: MixState)
    requires WellFormed(s) && FreshCaches(exp, s)
    ensures FreshCaches(exp, EnsureMixtures(exp, s)) && EnsureMixtures(exp, s).contextMixturesValid
  {
  }

  lemma BoundedDot(w: seq<real>, x: seq<real>, floor: real)
    requires |w| == |x| && Distribution(w) && 0.0 < floor <= 0.49
    requires forall i :: 0 <= i < |x| ==> floor <= x[i] <= 1.0 - floor
    ensures Bound(Dot(w, x), floor) == Dot(w, x)
  {
    DotBounds(w, x, floor, 1.0 - floor);
  }

  /** With distributions for mixtures and bounded experts no clamp of `evaluate_symbol` changes anything. */
  lemma ClampsNeverBite(exp: real -> real, t: MixState, floor: real)
    requires Positive(exp) && WellFormed(t) && FreshCaches(exp, t) && t.contextMixturesValid
    requires 0.0 < floor <= 0.49 && forall i :: 0 <= i < t.expertCount ==> floor <= t.expertProbs[i] <= 1.0 - floor
    ensures var stage1Probs := Stage1ProbsTo(t.stage1Mix, t.expertProbs, floor, STAGE1_CONTEXTS);
            && Bound(Dot(t.stage2Mix, stage1Probs), floor) == Dot(t.stage2Mix, stage1Probs)
            && (t.expertCount > 0 ==>
                 forall k :: 0 <= k < STAGE1_CONTEXTS ==>
                   stage1Probs[k] == Dot(MixRow(t.stage1Mix, t.expertCount, k), t.expertProbs))
  {
    MixturesAreDistributions(exp, t);
    hide FreshCaches, Dot, Distribution;
    var stage1Probs := Stage1ProbsTo(t.stage1Mix, t.expertProbs, floor, STAGE1_CONTEXTS);
    BoundedDot(t.stage2Mix, stage1Probs, floor);
    if t.expertCount > 0 {
      forall k | 0 <= k < STAGE1_CONTEXTS
        ensures stage1Probs[k] == Dot(MixRow(t.stage1Mix, t.expertCount, k), t.expertProbs)
      {
        BoundedDot(MixRow(t.stage1Mix, t.expertCount, k), t.expertProbs, floor);
      }
    }
  }

  lemma MixStagesIsCoherent(exp: real -> real, t: MixState, floor: real)
    requires Positive(exp) && WellFormed(t) && FreshCaches(exp, t) && t.contextMixturesValid
    requires 0.0 < floor <= 0.49 && floor >= PROB_MIN
    requires forall i :: 0 <= i < t.expertCount ==> floor <= t.expertProbs[i] <= 1.0 - floor
    ensures Coherent(exp, MixStages(t, floor))
  {
    ClampsNeverBite(exp, t, floor);
    hide Dot, WeightsTo, Stage1ProbsTo, MixRow;
  }

  /** Evaluating leaves coherent caches and results behind. */
  lemma EvaluateKeepsCoherent(exp: real -> real, s: MixState, lps: seq<LogProb>, minProb: real)
    requires Positive(exp) && Coherent(exp, s) && |lps| == s.expertCount
    ensures Coherent(exp, Evaluate(exp, s, lps, minProb))
  {
    var floor := ProbFloor(minProb);
    var probed := s.(expertProbs := ExpertProbs(exp, lps, floor));
    EnsureKeepsFresh(exp, probed);
    hide FreshCaches, EvaluationMatches, EnsureMixtures, MixStages;
    MixStagesIsCoherent(exp, EnsureMixtures(exp, probed), floor);
  }

  lemma UpdateKeepsCoherent(exp: real -> real, s: MixState, lps: seq<LogProb>, minProb: real)
    requires Positive(exp) && Coherent(exp, s) && |lps| == s.expertCount
    ensures Coherent(exp, Update(exp, s, lps, minProb))
  {
    if !s.evaluated { EvaluateKeepsCoherent(exp, s, lps, minProb); }
  }

  // ---------- The prediction is a convex combination of the experts ----------

  lemma ConvexBounds(w: seq<real>, x: seq<real>, lo: real, hi: real)
    requires |w| == |x| && Distribution(w) && forall i :: 0 <= i < |x| ==> lo <= x[i] <= hi
    ensures lo <= Dot(w, x) <= hi
  {
    DotBounds(w, x, lo, hi);
  }

  lemma WeightsStep(prev: seq<real>, c: real, row: seq<real>, probs: seq<real>, p: real, before: real)
    requires |prev| == |row| == |probs| && p == Dot(row, probs) && Dot(prev, probs) == before
    ensures Dot(AddScaled(prev, c, row), probs) == before + Times(c, p)
  {
    hide Dot, AddScaled, Times;
    DotAddScaled(prev, c, row, probs);
  }

  lemma WeightsMixStep(stage1Mix: seq<real>, stage2Mix: seq<real>, probs: seq<real>, stage1Probs: seq<real>, k: nat)
    requires |stage1Mix| == Offset(STAGE1_CONTEXTS, |probs|) && |stage2Mix| == STAGE1_CONTEXTS == |stage1Probs|
    requires k < STAGE1_CONTEXTS && stage1Probs[k] == Dot(MixRow(stage1Mix, |probs|, k), probs)
    requires Dot(WeightsTo(stage1Mix, stage2Mix, |probs|, k), probs) == Dot(stage2Mix[..k], stage1Probs[..k])
    ensures Dot(WeightsTo(stage1Mix, stage2Mix, |probs|, k + 1), probs) == Dot(stage2Mix[..k + 1], stage1Probs[..k + 1])
  {
    hide Dot, AddScaled, MixRow, Times;
    WeightsStep(WeightsTo(stage1Mix, stage2Mix, |probs|, k), stage2Mix[k], MixRow(stage1Mix, |probs|, k),
                probs, stage1Probs[k], Dot(stage2Mix[..k], stage1Probs[..k]));
    DotStep(stage2Mix, stage1Probs, k);
  }

  /** The expert weights mix the experts exactly as the two stages do one after the other. */
  lemma {:induction false} WeightsMix(stage1Mix: seq<real>, stage2Mix: seq<real>, probs: seq<real>,
                                      stage1Probs: seq<real>, k: nat)
    requires |stage1Mix| == Offset(STAGE1_CONTEXTS, |probs|) && |stage2Mix| == STAGE1_CONTEXTS == |stage1Probs|
    requires k <= STAGE1_CONTEXTS
    requires forall j :: 0 <= j < STAGE1_CONTEXTS ==> stage1Probs[j] == Dot(MixRow(stage1Mix, |probs|, j), probs)
    ensures Dot(WeightsTo(stage1Mix, stage2Mix, |probs|, k), probs) == Dot(stage2Mix[..k], stage1Probs[..k])
  {
    if k == 0 {
      ZerosDot(probs, WeightsTo(stage1Mix, stage2Mix, |probs|, 0));
    } else {
      WeightsMix(stage1Mix, stage2Mix, probs, stage1Probs, k - 1);
      WeightsMixStep(stage1Mix, stage2Mix, probs, stage1Probs, k - 1);
    }
  }

  /** The weights over the first `k` contexts are non-negative and total what stage 2 gives these contexts. */
  predicate WeighedTo(w: seq<real>, stage2Mix: seq<real>, k: nat)
  {
    k <= |stage2Mix| && Sum(w) == Sum(stage2Mix[..k]) && forall i :: 0 <= i < |w| ==> w[i] >= 0.0
  }

  lemma WeightsSumStep(w: seq<real>, row: seq<real>, stage2Mix: seq<real>, k: nat)
    requires k < |stage2Mix| && |w| == |row| && WeighedTo(w, stage2Mix, k)
    requires Distribution(stage2Mix) && Distribution(row)
    ensures WeighedTo(AddScaled(w, stage2Mix[k], row), stage2Mix, k + 1)
  {
    hide Sum, AddScaled;
    AddScaledDistribution(w, stage2Mix[k], row);
    AddScaledNonNegative(w, stage2Mix[k], row);
    SumStep(stage2Mix, k);
  }

  lemma {:induction false} WeightsSum(stage1Mix: seq<real>, stage2Mix: seq<real>, n: nat, k: nat)
    requires |stage1Mix| == Offset(STAGE1_CONTEXTS, n) && Distribution(stage2Mix) && |stage2Mix| == STAGE1_CONTEXTS
    requires forall j :: 0 <= j < STAGE1_CONTEXTS ==> Distribution(MixRow(stage1Mix, n, j))
    requires k <= STAGE1_CONTEXTS
    ensures WeighedTo(WeightsTo(stage1Mix, stage2Mix, n, k), stage2Mix, k)
  {
    hide Distribution, MixRow, AddScaled, Sum, Offset;
    if k == 0 {
      SumZeros(WeightsTo(stage1Mix, stage2Mix, n, 0));
      SumZeros(stage2Mix[..0]);
    } else {
      hide WeighedTo;
      WeightsSum(stage1Mix, stage2Mix, n, k - 1);
      WeightsSumStep(WeightsTo(stage1Mix, stage2Mix, n, k - 1), MixRow(stage1Mix, n, k - 1), stage2Mix, k - 1);
    }
  }

  /** The expert weights are a distribution that mixes the experts to the stored result. */
  lemma WeightsExplainResult(exp: real -> real, r: MixState)
    requires Positive(exp) && Coherent(exp, r) && r.evaluated && r.expertCount > 0
    ensures Distribution(r.expertWeights) && r.mixProb == Dot(r.expertWeights, r.expertProbs)
  {
    MixturesAreDistributions(exp, r);
    assert r.stage2Mix[..STAGE1_CONTEXTS] == r.stage2Mix && r.stage1Probs[..STAGE1_CONTEXTS] == r.stage1Probs;
    hide Dot, WeightsTo, Stage1MixOf, Stage2MixOf, MixRow, Sum;
    WeightsMix(r.stage1Mix, r.stage2Mix, r.expertProbs, r.stage1Probs, STAGE1_CONTEXTS);
    WeightsSum(r.stage1Mix, r.stage2Mix, r.expertCount, STAGE1_CONTEXTS);
  }

  /** `evaluate_symbol` returns the experts' probabilities mixed by `expert_weights`, which is a
      distribution; so the result lies between the smallest and the largest of them. */
  lemma EvaluationIsConvex(exp: real -> real, s: MixState, lps: seq<LogProb>, minProb: real, lo: real, hi: real)
    requires Positive(exp) && Coherent(exp, s) && |lps| == s.expertCount > 0
    requires var r := Evaluate(exp, s, lps, minProb);
             forall i :: 0 <= i < r.expertCount ==> lo <= r.expertProbs[i] <= hi
    ensures var r := Evaluate(exp, s, lps, minProb);
            && Distribution(r.expertWeights)
            && r.mixProb == Dot(r.expertWeights, r.expertProbs)
            && lo <= r.mixProb <= hi
  {
    EvaluateKeepsCoherent(exp, s, lps, minProb);
    var r := Evaluate(exp, s, lps, minProb);
    WeightsExplainResult(exp, r);
    hide Evaluate, Dot, Distribution, Coherent;
    ConvexBounds(r.expertWeights, r.expertProbs, lo, hi);
  }

  // ---------- Learning conserves every row's total logit ----------

  predicate Coefficients(scale: real, mean: real, pMix: real, c: real, d: real)
  {
    pMix > 0.0 && c == scale / pMix && d == -(c * mean)
  }

  lemma GradientTerm(scale: real, w: real, x: real, mean: real, pMix: real, c: real, d: real)
    requires pMix > 0.0 && Coefficients(scale, mean, pMix, c, d)
    ensures GradientEntry(scale, w, x, mean, pMix) == Times(c, Times(w, x)) + Times(d, w)
  {
    assert scale == c * pMix;
    assert scale * w * (x - mean) == pMix * (c * (w * x) + d * w);
  }

  lemma AppendTerms(g: seq<real>, p: seq<real>, q: seq<real>, e: real, u: real, v: real)
    requires Sum(g) == Sum(p) + Sum(q) && e == u + v
    ensures Sum(g + [e]) == Sum(p + [u]) + Sum(q + [v])
  {
    SumAppend(g, e);
    SumAppend(p, u);
    SumAppend(q, v);
  }

  lemma {:induction false} GradientParts(scale: real, w: seq<real>, x: seq<real>, mean: real, pMix: real, c: real,
                                         d: real)
    requires |w| == |x| && pMix > 0.0 && Coefficients(scale, mean, pMix, c, d)
    ensures Sum(Gradient(scale, w, x, mean, pMix)) == Sum(Scale(c, Pointwise(w, x))) + Sum(Scale(d, w))
  {
    hide Coefficients, Times, GradientEntry;
    if w != [] {
      var n := |w| - 1;
      GradientParts(scale, w[..n], x[..n], mean, pMix, c, d);
      GradientTerm(scale, w[n], x[n], mean, pMix, c, d);
      AppendTerms(Gradient(scale, w[..n], x[..n], mean, pMix), Scale(c, Pointwise(w[..n], x[..n])), Scale(d, w[..n]),
                  GradientEntry(scale, w[n], x[n], mean, pMix), Times(c, Times(w[n], x[n])), Times(d, w[n]));
    }
  }

  /** Around its own mean a distribution's gradient sums to zero. */
  lemma GradientSumsToZero(scale: real, w: seq<real>, x: seq<real>, mean: real, pMix: real)
    requires |w| == |x| && pMix > 0.0 && Sum(w) == 1.0 && mean == Dot(w, x)
    ensures Sum(Gradient(scale, w, x, mean, pMix)) == 0.0
  {
    var c := scale / pMix;
    var d := -(c * mean);
    GradientParts(scale, w, x, mean, pMix, c, d);
    SumScale(c, Pointwise(w, x));
    SumPointwise(w, x);
    SumScale(d, w);
  }

  /** The total of the logits in row `idx` of stage-1 table `k`. */
  function RowSum(tables: seq<seq<real>>, n: nat, k: nat, idx: nat): real
    requires Shaped1(tables, n) && k < STAGE1_CONTEXTS && idx < STAGE1_TABLE_SIZES[k]
  {
    OffsetFits(idx, STAGE1_TABLE_SIZES[k], n);
    Sum(RowAt(tables[k], idx, n))
  }

  ghost predicate SameSums1(a: seq<seq<real>>, b: seq<seq<real>>, n: nat)
    requires Shaped1(a, n) && Shaped1(b, n)
  {
    forall k, idx :: 0 <= k < STAGE1_CONTEXTS && 0 <= idx < STAGE1_TABLE_SIZES[k] ==>
        RowSum(a, n, k, idx) == RowSum(b, n, k, idx)
  }

  ghost predicate SameSums2(a: seq<seq<real>>, b: seq<seq<real>>)
    requires Shaped2(a) && Shaped2(b)
  {
    forall j :: 0 <= j < STAGE2_TABLE_SIZE ==> Sum(a[j]) == Sum(b[j])
  }

  /** Every stage-1 row and every stage-2 row has the same total logit in both states. */
  ghost predicate SameSums(s: MixState, t: MixState)
    requires WellFormed(s) && WellFormed(t)
  {
    s.expertCount == t.expertCount
    && SameSums1(s.stage1Tables, t.stage1Tables, s.expertCount)
    && SameSums2(s.stage2Table, t.stage2Table)
  }

  lemma SplicedRow(table: seq<real>, idx: nat, n: nat, row: seq<real>, other: nat)
    requires Offset(idx, n) + n <= |table| && Offset(other, n) + n <= |table| && |row| == n
    ensures RowAt(Splice(table, Offset(idx, n), row), other, n) == if other == idx then row else RowAt(table, other, n)
  {
    hide Splice, Offset;
    SplicedRows(table, idx, n, row, other);
  }

  /** A step along a gradient that sums to zero keeps a row's total. */
  lemma NeutralStep(row: seq<real>, rate: real, gradient: seq<real>)
    requires |row| == |gradient| && Sum(gradient) == 0.0
    ensures Sum(AddScaled(row, rate, gradient)) == Sum(row)
  {
    SumAddScaled(row, rate, gradient);
  }

  lemma Row1GradientIsNeutral(exp: real -> real, s: MixState, k: nat)
    requires Positive(exp) && Coherent(exp, s) && s.evaluated && k < STAGE1_CONTEXTS
    ensures Sum(Gradient(s.stage2Mix[k], MixRow(s.stage1Mix, s.expertCount, k), s.expertProbs, s.stage1Probs[k],
                         s.mixProb)) == 0.0
  {
    hide Gradient, Stage1MixOf, Stage2MixOf, Dot;
    if s.expertCount > 0 {
      MixturesAreDistributions(exp, s);
      GradientSumsToZero(s.stage2Mix[k], MixRow(s.stage1Mix, s.expertCount, k), s.expertProbs, s.stage1Probs[k],
                         s.mixProb);
    } else {
      EmptyGradient(s.stage2Mix[k], MixRow(s.stage1Mix, s.expertCount, k), s.expertProbs, s.stage1Probs[k], s.mixProb);
    }
  }

  lemma EmptyGradient(scale: real, w: seq<real>, x: seq<real>, mean: real, pMix: real)
    requires |w| == |x| == 0 && pMix > 0.0
    ensures Sum(Gradient(scale, w, x, mean, pMix)) == 0.0
  {
  }

  lemma UpdateRow1Conserves(exp: real -> real, s: MixState, tables: seq<seq<real>>, k: nat)
    requires Positive(exp) && Coherent(exp, s) && s.evaluated && k < STAGE1_CONTEXTS && Shaped1(tables, s.expertCount)
    ensures SameSums1(tables, UpdateRow1(s, tables, s.mixProb, k), s.expertCount)
  {
    var n, indices := s.expertCount, Stage1Indices(s.context);
    var gradient := Gradient(s.stage2Mix[k], MixRow(s.stage1Mix, n, k), s.expertProbs, s.stage1Probs[k], s.mixProb);
    var before := Stage1Row(tables, indices, n, k);
    var row := AddScaled(before, s.stage1Lr, gradient);
    var after := UpdateRow1(s, tables, s.mixProb, k);
    assert after[k] == Splice(tables[k], Offset(indices[k], n), row);
    hide Gradient, AddScaled, UpdateRow1, Coherent, Sum, Stage1Indices;
    Row1GradientIsNeutral(exp, s, k);
    NeutralStep(before, s.stage1Lr, gradient);
    forall c, idx | 0 <= c < STAGE1_CONTEXTS && 0 <= idx < STAGE1_TABLE_SIZES[c]
      ensures RowSum(tables, n, c, idx) == RowSum(after, n, c, idx)
    {
      if c == k {
        OffsetFits(idx, STAGE1_TABLE_SIZES[k], n);
        SplicedRow(tables[k], indices[k], n, row, idx);
      }
    }
  }

  lemma {:induction false} UpdateRows1Conserves(exp: real -> real, s: MixState, k: nat)
    requires Positive(exp) && Coherent(exp, s) && s.evaluated && k <= STAGE1_CONTEXTS
    ensures SameSums1(s.stage1Tables, UpdateRows1(s, s.mixProb, k), s.expertCount)
  {
    hide UpdateRow1, RowSum, Sum, FreshCaches;
    if k > 0 {
      UpdateRows1Conserves(exp, s, k - 1);
      UpdateRow1Conserves(exp, s, UpdateRows1(s, s.mixProb, k - 1), k - 1);
    }
  }

  lemma UpdateRow2Conserves(exp: real -> real, s: MixState)
    requires Positive(exp) && Coherent(exp, s) && s.evaluated
    ensures SameSums2(s.stage2Table, UpdateRow2(s, s.mixProb))
  {
    hide Gradient, Dot, Stage1MixOf, Stage2MixOf, AddScaled;
    var j := Stage2Index(s.context);
    MixturesAreDistributions(exp, s);
    GradientSumsToZero(1.0, s.stage2Mix, s.stage1Probs, s.mixProb, s.mixProb);
    NeutralStep(s.stage2Table[j], s.stage2Lr, Gradient(1.0, s.stage2Mix, s.stage1Probs, s.mixProb, s.mixProb));
  }

  lemma EvaluateConserves(exp: real -> real, s: MixState, lps: seq<LogProb>, minProb: real)
    requires WellFormed(s) && |lps| == s.expertCount
    ensures SameSums(s, Evaluate(exp, s, lps, minProb))
  {
    hide Stage1MixOf, Stage2MixOf, WeightsTo, Stage1ProbsTo, ExpertProbs, RowSum, Sum;
  }

  lemma UpdateConserves(exp: real -> real, s: MixState, lps: seq<LogProb>, minProb: real)
    requires Positive(exp) && Coherent(exp, s) && |lps| == s.expertCount
    ensures SameSums(s, Update(exp, s, lps, minProb))
  {
    hide RowSum, Sum, FreshCaches;
    var t := if s.evaluated then s else Evaluate(exp, s, lps, minProb);
    if !s.evaluated {
      EvaluateKeepsCoherent(exp, s, lps, minProb);
      EvaluateConserves(exp, s, lps, minProb);
    }
    SameSumsReflexive(s);
    UpdateRows1Conserves(exp, t, STAGE1_CONTEXTS);
    UpdateRow2Conserves(exp, t);
    var r := Update(exp, s, lps, minProb);
    assert r == t || (r.stage1Tables == UpdateRows1(t, t.mixProb, STAGE1_CONTEXTS)
                      && r.stage2Table == UpdateRow2(t, t.mixProb)) by {
      hide Evaluate, UpdateRows1, UpdateRow2, SameSums, FreshCaches;
    }
    hide Evaluate, Update, UpdateRows1, UpdateRow2, SameSums1, SameSums2;
    SameSumsTransitive(s, t, r);
  }

  lemma SameSumsReflexive(s: MixState)
    requires WellFormed(s)
    ensures SameSums(s, s)
  {
  }

  lemma SameSumsTransitive(s: MixState, t: MixState, r: MixState)
    requires WellFormed(s) && WellFormed(t) && WellFormed(r) && SameSums(s, t)
    requires r == t ||
             (r.expertCount == t.expertCount && SameSums1(t.stage1Tables, r.stage1Tables, t.expertCount)
              && SameSums2(t.stage2Table, r.stage2Table))
    ensures SameSums(s, r)
  {
    hide RowSum, Sum;
  }

  // ---------- Whole runs ----------

  /** One call on the mixer. */
  datatype MixOp =
    | SwitchContext(context: History)
    | EvaluateSymbol(lps: seq<LogProb>, minProb: real)
    | EvaluateExpertWeights
    | UpdateSymbol(lps: seq<LogProb>, minProb: real)
    | ResetToPriors(priors: seq<real>)

  predicate OpFits(op: MixOp, n: nat)
  {
    match op
    case EvaluateSymbol(lps, _) => |lps| == n
    case UpdateSymbol(lps, _) => |lps| == n
    case ResetToPriors(priors) => |priors| == n
    case _ => true
  }

  function Apply(exp: real -> real, ln: real -> real, s: MixState, op: MixOp): (r: MixState)
    requires WellFormed(s) && OpFits(op, s.expertCount)
    ensures WellFormed(r) && r.expertCount == s.expertCount
  {
    match op
    case SwitchContext(context) => SetContext(s, context)
    case EvaluateSymbol(lps, minProb) => Evaluate(exp, s, lps, minProb)
    case EvaluateExpertWeights => EvaluateWeights(exp, s)
    case UpdateSymbol(lps, minProb) => Update(exp, s, lps, minProb)
    case ResetToPriors(priors) => Reset(ln, s, priors)
  }

  function Run(exp: real -> real, ln: real -> real, s: MixState, ops: seq<MixOp>): (r: MixState)
    requires WellFormed(s) && forall op <- ops :: OpFits(op, s.expertCount)
    ensures WellFormed(r) && r.expertCount == s.expertCount
    decreases |ops|
  {
    if ops == [] then s else Run(exp, ln, Apply(exp, ln, s, ops[0]), ops[1..])
  }

  /** The priors that hold after the calls: those of the last reset, or the ones before. */
  function LatestPriors(priors: seq<real>, ops: seq<MixOp>): seq<real>
    decreases |ops|
  {
    if ops == [] then priors
    else LatestPriors(if ops[0].ResetToPriors? then ops[0].priors else priors, ops[1..])
  }

  /** Only the global row has a nonzero total, the sum of the log priors. */
  ghost predicate TotalsOf(ln: real -> real, s: MixState, priors: seq<real>)
    requires WellFormed(s)
  {
    && s.expertCount == |priors|
    && (forall k, idx :: 0 <= k < STAGE1_CONTEXTS && 0 <= idx < STAGE1_TABLE_SIZES[k] ==>
          RowSum(s.stage1Tables, |priors|, k, idx) == if k == 0 then Sum(LogPriors(ln, priors)) else 0.0)
    && forall j :: 0 <= j < STAGE2_TABLE_SIZE ==> Sum(s.stage2Table[j]) == 0.0
  }

  /** A fresh or reset mixer is coherent, and its rows' totals are those of its priors. */
  lemma InitialSums(exp: real -> real, ln: real -> real, s: MixState, priors: seq<real>)
    requires Initial(ln, s, priors)
    ensures Coherent(exp, s) && TotalsOf(ln, s, priors)
  {
    var n := |priors|;
    forall k, idx | 0 <= k < STAGE1_CONTEXTS && 0 <= idx < STAGE1_TABLE_SIZES[k]
      ensures RowSum(s.stage1Tables, n, k, idx) == if k == 0 then Sum(LogPriors(ln, priors)) else 0.0
    {
      OffsetFits(idx, STAGE1_TABLE_SIZES[k], n);
      if k == 0 {
        assert RowAt(s.stage1Tables[0], 0, n) == s.stage1Tables[0][..n];
      } else {
        SumZeros(RowAt(s.stage1Tables[k], idx, n));
      }
    }
    forall j | 0 <= j < STAGE2_TABLE_SIZE ensures Sum(s.stage2Table[j]) == 0.0 {
      SumZeros(s.stage2Table[j]);
    }
  }

  lemma TotalsCarry(ln: real -> real, s: MixState, t: MixState, priors: seq<real>)
    requires WellFormed(s) && WellFormed(t) && SameSums(s, t) && TotalsOf(ln, s, priors)
    ensures TotalsOf(ln, t, priors)
  {
    hide RowSum, Sum, LogPriors;
  }

  lemma ContextIsSafe(exp: real -> real, s: MixState, context: History)
    requires Coherent(exp, s)
    ensures Coherent(exp, SetContext(s, context)) && SameSums(s, SetContext(s, context))
  {
    hide RowSum, Sum;
  }

  lemma WeightsAreSafe(exp: real -> real, s: MixState)
    requires Coherent(exp, s)
    ensures Coherent(exp, EvaluateWeights(exp, s)) && SameSums(s, EvaluateWeights(exp, s))
  {
    EnsureKeepsFresh(exp, s);
    hide RowSum, Sum, Stage1MixOf, Stage2MixOf, WeightsTo;
  }

  /** A call leaves the caches coherent, and every row's total as it was unless it resets the mixer. */
  lemma CallIsSafe(exp: real -> real, ln: real -> real, s: MixState, op: MixOp)
    requires Positive(exp) && Coherent(exp, s) && OpFits(op, s.expertCount)
    ensures Coherent(exp, Apply(exp, ln, s, op))
    ensures if op.ResetToPriors? then TotalsOf(ln, Apply(exp, ln, s, op), op.priors)
            else SameSums(s, Apply(exp, ln, s, op))
  {
    hide Evaluate, EvaluateWeights, Update, SetContext, Reset, FreshCaches, SameSums, TotalsOf, Initial;
    match op
    case SwitchContext(context) =>
      ContextIsSafe(exp, s, context);
    case EvaluateSymbol(lps, minProb) =>
      EvaluateKeepsCoherent(exp, s, lps, minProb);
      EvaluateConserves(exp, s, lps, minProb);
    case EvaluateExpertWeights =>
      WeightsAreSafe(exp, s);
    case UpdateSymbol(lps, minProb) =>
      UpdateKeepsCoherent(exp, s, lps, minProb);
      UpdateConserves(exp, s, lps, minProb);
    case ResetToPriors(priors) =>
      InitialSums(exp, ln, Reset(ln, s, priors), priors);
  }

  /** After any calls in any order, resets included, the caches are coherent and the totals are those of the latest
      priors. */
  lemma {:induction false} RunIsSafe(exp: real -> real, ln: real -> real, s: MixState, priors: seq<real>,
                                     ops: seq<MixOp>)
    requires Positive(exp) && Coherent(exp, s) && TotalsOf(ln, s, priors)
    requires forall op <- ops :: OpFits(op, s.expertCount)
    ensures Coherent(exp, Run(exp, ln, s, ops))
    ensures TotalsOf(ln, Run(exp, ln, s, ops), LatestPriors(priors, ops))
    decreases |ops|
  {
    hide Coherent, TotalsOf, Apply, SameSums, Positive;
    if ops != [] {
      CoherentIsWellFormed(exp, s);
      var next := Apply(exp, ln, s, ops[0]);
      CallIsSafe(exp, ln, s, ops[0]);
      if !ops[0].ResetToPriors? {
        TotalsCarry(ln, s, next, priors);
      }
      RunIsSafe(exp, ln, next, if ops[0].ResetToPriors? then ops[0].priors else priors, ops[1..]);
    }
  }

  lemma CoherentIsWellFormed(exp: real -> real, s: MixState)
    requires Coherent(exp, s)
    ensures WellFormed(s)
  {
  }

  /** Over any run from a fresh mixer, every row's total logit is what the latest priors gave it. */
  lemma LogitsAreConserved(exp: real -> real, ln: real -> real, s: MixState, priors: seq<real>, ops: seq<MixOp>)
    requires Positive(exp) && Initial(ln, s, priors) && forall op <- ops :: OpFits(op, s.expertCount)
    ensures TotalsOf(ln, Run(exp, ln, s, ops), LatestPriors(priors, ops))
    ensures Coherent(exp, Run(exp, ln, s, ops))
  {
    InitialSums(exp, ln, s, priors);
    hide TotalsOf, Coherent, Initial, Run;
    RunIsSafe(exp, ln, s, priors, ops);
  }
}
