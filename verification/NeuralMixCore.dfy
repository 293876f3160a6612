/** The two-stage mixer as it runs: tables, lazily refreshed caches and flags updated in place. */
module NeuralMixCore {
  import opened RealMath
  import opened ContextHash
  import opened NeuralMix
  import opened NeuralMixLaws

  class NeuralMixCore {
    const exp: real -> real
    const ln: real -> real
    const stage1Lr: real
    const stage2Lr: real
    const updateSkipThreshold: real
    const expertCount: nat
    var stage1Tables: seq<seq<real>>
    var stage2Table: seq<seq<real>>
    var context: History
    var expertProbs: seq<real>
    var stage1Mix: seq<real>
    var stage1Probs: seq<real>
    var stage2Mix: seq<real>
    var expertWeights: seq<real>
    var mixProb: real
    var contextMixturesValid: bool
    var evaluated: bool

    function State(): MixState
      reads this
    {
      MixState(stage1Tables, stage2Table, stage1Lr, stage2Lr, updateSkipThreshold, context, expertCount,
               expertProbs, stage1Mix, stage1Probs, stage2Mix, expertWeights, mixProb, contextMixturesValid, evaluated)
    }

    ghost predicate Valid()
      reads this
    {
      Coherent(exp, State())
    }

    constructor (exp: real -> real, ln: real -> real, expertCount: nat, priors: seq<real>,
                 stage1Lr: real, stage2Lr: real, updateSkipThreshold: real)
      requires |priors| == expertCount
      ensures Valid() && Initial(ln, State(), priors)
      ensures this.exp == exp && this.ln == ln
    {
      var built: seq<seq<real>> := [];
      for k := 0 to STAGE1_CONTEXTS
        invariant |built| == k
        invariant forall c :: 0 <= c < k ==> |built[c]| == Offset(STAGE1_TABLE_SIZES[c], expertCount)
        invariant k > 0 ==> expertCount <= |built[0]| && built[0][..expertCount] == LogPriors(ln, priors)
        invariant forall c, j :: 0 <= c < k && 0 <= j < |built[c]| ==> (c == 0 && j < expertCount) || built[c][j] == 0.0
      {
        var table := Zeros(Offset(STAGE1_TABLE_SIZES[k], expertCount));
        if k == 0 && expertCount > 0 {
          table := FillPriors(ln, table, priors);
        }
        built := built + [table];
      }
      this.exp, this.ln, this.expertCount := exp, ln, expertCount;
      this.stage1Lr, this.stage2Lr, this.updateSkipThreshold := stage1Lr, stage2Lr, updateSkipThreshold;
      stage1Tables, stage2Table := built, seq(STAGE2_TABLE_SIZE, i => Zeros(STAGE1_CONTEXTS));
      context := EMPTY_HISTORY;
      expertProbs, stage1Mix := Zeros(expertCount), Zeros(Offset(STAGE1_CONTEXTS, expertCount));
      stage1Probs, stage2Mix, expertWeights := Zeros(STAGE1_CONTEXTS), Zeros(STAGE1_CONTEXTS), Zeros(expertCount);
      mixProb, contextMixturesValid, evaluated := 1.0 / 256.0, false, false;
    }

    /** Write the log priors over the first row of the global table. */
    static method FillPriors(ln: real -> real, global: seq<real>, priors: seq<real>) returns (table: seq<real>)
      requires |priors| <= |global|
      ensures table == LogPriors(ln, priors) + global[|priors|..]
    {
      table := global;
      for i := 0 to |priors|
        invariant table == LogPriors(ln, priors)[..i] + global[i..]
      {
        table := table[i := ln(Max(priors[i], PROB_MIN))];
      }
    }

    method ClearStage1()
      requires Shaped1(stage1Tables, expertCount)
      modifies this`stage1Tables
      ensures Shaped1(stage1Tables, expertCount)
      ensures forall k, j :: 0 <= k < STAGE1_CONTEXTS && 0 <= j < |stage1Tables[k]| ==> stage1Tables[k][j] == 0.0
    {
      for k := 0 to |stage1Tables|
        invariant Shaped1(stage1Tables, expertCount)
        invariant forall c, j :: 0 <= c < k && 0 <= j < |stage1Tables[c]| ==> stage1Tables[c][j] == 0.0
      {
        stage1Tables := stage1Tables[k := Zeros(|stage1Tables[k]|)];
      }
    }

    method ClearStage2()
      requires Shaped2(stage2Table)
      modifies this`stage2Table
      ensures Shaped2(stage2Table)
      ensures forall j :: 0 <= j < STAGE2_TABLE_SIZE ==> stage2Table[j] == Zeros(STAGE1_CONTEXTS)
    {
      for i := 0 to |stage2Table|
        invariant Shaped2(stage2Table)
        invariant forall j :: 0 <= j < i ==> stage2Table[j] == Zeros(STAGE1_CONTEXTS)
      {
        stage2Table := stage2Table[i := Zeros(STAGE1_CONTEXTS)];
      }
    }

    /** Zero logits, log priors in the global row. */
    method ResetTables(priors: seq<real>)
      requires Shaped1(stage1Tables, expertCount) && Shaped2(stage2Table) && |priors| == expertCount
      modifies this`stage1Tables, this`stage2Table
      ensures PriorTables(ln, stage1Tables, priors) && Shaped2(stage2Table)
      ensures forall j :: 0 <= j < STAGE2_TABLE_SIZE ==> stage2Table[j] == Zeros(STAGE1_CONTEXTS)
    {
      ClearStage1();
      if expertCount > 0 {
        var filled := FillPriors(ln, stage1Tables[0], priors);
        stage1Tables := stage1Tables[0 := filled];
      }
      ClearStage2();
    }

    method ResetToPriors(priors: seq<real>)
      requires Valid() && |priors| == expertCount
      modifies this
      ensures Valid() && State() == Reset(ln, old(State()), priors)
    {
      ResetTables(priors);
      context := EMPTY_HISTORY;
      expertProbs, stage1Mix := Zeros(expertCount), Zeros(Offset(STAGE1_CONTEXTS, expertCount));
      stage1Probs, stage2Mix, expertWeights := Zeros(STAGE1_CONTEXTS), Zeros(STAGE1_CONTEXTS), Zeros(expertCount);
      mixProb, contextMixturesValid, evaluated := 1.0 / 256.0, false, false;
      InitialIsReset(ln, old(State()), State(), priors);
    }

    method SetContextState(context: History)
      requires Valid()
      modifies this`context, this`contextMixturesValid, this`evaluated
      ensures Valid() && State() == NeuralMix.SetContext(old(State()), context)
    {
      this.context := context;
      contextMixturesValid, evaluated := false, false;
    }

    static method FindMax(logits: seq<real>) returns (m: real)
      requires logits != []
      ensures m == MaxOf(logits)
    {
      m := logits[0];
      for i := 1 to |logits|
        invariant m == MaxOf(logits[..i])
      {
        assert logits[..i + 1][..i] == logits[..i];
        if logits[i] > m {
          m := logits[i];
        }
      }
      assert logits[..|logits|] == logits;
    }

    /** Exponentials of the shifted logits and their total. */
    static method ShiftedExps(exp: real -> real, logits: seq<real>, m: real) returns (xs: seq<real>, sum: real)
      ensures xs == Exps(exp, logits, m) && sum == Sum(xs)
    {
      xs, sum := [], 0.0;
      for i := 0 to |logits|
        invariant |xs| == i && sum == Sum(xs)
        invariant forall j :: 0 <= j < i ==> xs[j] == exp(logits[j] - m)
      {
        var x := exp(logits[i] - m);
        SumAppend(xs, x);
        xs := xs + [x];
        sum := sum + x;
      }
    }

    static method ScaleAll(xs: seq<real>, c: real) returns (r: seq<real>)
      ensures r == Scale(c, xs)
    {
      r := [];
      for i := 0 to |xs|
        invariant r == Scale(c, xs[..i])
      {
        assert xs[..i + 1] == xs[..i] + [xs[i]];
        var x := c * xs[i];
        ScaleAppend(c, xs[..i], xs[i], x);
        r := r + [x];
      }
      assert xs[..|xs|] == xs;
    }

    static method SoftmaxInto(exp: real -> real, logits: seq<real>) returns (out: seq<real>)
      ensures out == Softmax(exp, logits)
    {
      if logits == [] {
        return [];
      }
      var m := FindMax(logits);
      var xs, sum := ShiftedExps(exp, logits, m);
      if sum <= 0.0 {
        return Uniform(|logits|);
      }
      out := ScaleAll(xs, 1.0 / sum);
    }

    /** `a + c * b`, accumulated element by element. */
    static method Accumulate(a: seq<real>, c: real, b: seq<real>) returns (r: seq<real>)
      requires |a| == |b|
      ensures r == AddScaled(a, c, b)
    {
      r := [];
      for i := 0 to |a|
        invariant r == AddScaled(a[..i], c, b[..i])
      {
        assert a[..i + 1] == a[..i] + [a[i]] && b[..i + 1] == b[..i] + [b[i]];
        var sum := a[i] + c * b[i];
        AddScaledAppend(a[..i], c, b[..i], a[i], b[i], sum);
        r := r + [sum];
      }
      assert a[..|a|] == a && b[..|b|] == b;
    }

    /** The softmax of every selected stage-1 row. */
    method MixStage1() returns (mix: seq<real>)
      requires WellFormed(State())
      ensures mix == Stage1MixOf(exp, State())
    {
      var indices := Stage1Indices(context);
      mix := [];
      for k := 0 to STAGE1_CONTEXTS
        invariant mix == FreshStage1(exp, stage1Tables, indices, expertCount, k)
      {
        var row := SoftmaxInto(exp, Stage1Row(stage1Tables, indices, expertCount, k));
        mix := mix + row;
      }
    }

    /** Stage-1 mixtures weighted by stage 2. */
    static method CombineStages(mix: seq<real>, mix2: seq<real>, n: nat) returns (weights: seq<real>)
      requires |mix| == Offset(STAGE1_CONTEXTS, n) && |mix2| == STAGE1_CONTEXTS
      ensures weights == WeightsTo(mix, mix2, n, STAGE1_CONTEXTS)
    {
      weights := Zeros(n);
      assert weights == WeightsTo(mix, mix2, n, 0);
      for k := 0 to STAGE1_CONTEXTS
        invariant weights == WeightsTo(mix, mix2, n, k)
      {
        weights := Accumulate(weights, mix2[k], MixRow(mix, n, k));
      }
    }

    method ComputeContextMixtures()
      requires WellFormed(State()) && !contextMixturesValid
      modifies this`stage1Mix, this`stage2Mix, this`expertWeights
      ensures State().(contextMixturesValid := true) == EnsureMixtures(exp, old(State()))
    {
      hide Softmax, WeightsTo, Stage2Index, Stage1MixOf;
      var mix := MixStage1();
      var mix2 := SoftmaxInto(exp, stage2Table[Stage2Index(context)]);
      var weights := CombineStages(mix, mix2, expertCount);
      stage1Mix, stage2Mix, expertWeights := mix, mix2, weights;
    }

    method EnsureContextMixtures()
      requires WellFormed(State())
      modifies this`stage1Mix, this`stage2Mix, this`expertWeights, this`contextMixturesValid
      ensures State() == EnsureMixtures(exp, old(State()))
    {
      if contextMixturesValid {
        return;
      }
      ComputeContextMixtures();
      contextMixturesValid := true;
    }

    static method MixedProb(weights: seq<real>, probs: seq<real>) returns (p: real)
      requires |weights| == |probs|
      ensures p == Dot(weights, probs)
    {
      p := 0.0;
      for i := 0 to |weights|
        invariant p == Dot(weights[..i], probs[..i])
      {
        DotStep(weights, probs, i);
        p := p + weights[i] * probs[i];
      }
      assert weights[..|weights|] == weights && probs[..|weights|] == probs;
    }

    static method ReadExperts(exp: real -> real, lps: seq<LogProb>, floor: real) returns (probs: seq<real>)
      requires 0.0 < floor <= 0.49
      ensures probs == ExpertProbs(exp, lps, floor)
    {
      probs := [];
      for i := 0 to |lps|
        invariant |probs| == i && forall j :: 0 <= j < i ==> probs[j] == ExpertProb(exp, lps[j], floor)
      {
        probs := probs + [ExpertProb(exp, lps[i], floor)];
      }
    }

    static lemma EmptyDot()
      ensures Dot([], []) == 0.0
    {
    }

    /** Both stages of the mixture over the given expert probabilities. */
    static method MixBothStages(mix: seq<real>, mix2: seq<real>, probs: seq<real>, floor: real)
      returns (stage1: seq<real>, p: real)
      requires |mix| == Offset(STAGE1_CONTEXTS, |probs|) && |mix2| == STAGE1_CONTEXTS && 0.0 < floor <= 0.49
      ensures stage1 == Stage1ProbsTo(mix, probs, floor, STAGE1_CONTEXTS)
      ensures p == Bound(Dot(mix2, stage1), floor)
    {
      hide Dot, MixRow, Bound;
      stage1 := [];
      var total := 0.0;
      assert mix2[..0] == [] && total == Dot([], []) by { EmptyDot(); }
      for k := 0 to STAGE1_CONTEXTS
        invariant stage1 == Stage1ProbsTo(mix, probs, floor, k)
        invariant total == Dot(mix2[..k], stage1)
      {
        var pk := MixedProb(MixRow(mix, |probs|, k), probs);
        pk := Bound(pk, floor);
        DotAppend(mix2[..k], stage1, mix2[k], pk);
        assert mix2[..k + 1] == mix2[..k] + [mix2[k]];
        stage1 := stage1 + [pk];
        total := total + Times(mix2[k], pk);
      }
      assert mix2[..STAGE1_CONTEXTS] == mix2;
      p := Bound(total, floor);
    }

    method EvaluateSymbol(lps: seq<LogProb>, minProb: real) returns (p: real)
      requires Positive(exp) && Valid() && |lps| == expertCount
      modifies this`expertProbs, this`stage1Mix, this`stage2Mix, this`expertWeights, this`contextMixturesValid,
               this`stage1Probs, this`mixProb, this`evaluated
      ensures Valid() && State() == Evaluate(exp, old(State()), lps, minProb) && p == mixProb
    {
      hide FreshCaches, EvaluationMatches, Stage1MixOf, Stage2MixOf, WeightsTo, Stage1ProbsTo, ExpertProbs, Dot;
      EvaluateKeepsCoherent(exp, State(), lps, minProb);
      var floor := ProbFloor(minProb);
      expertProbs := ReadExperts(exp, lps, floor);
      EnsureContextMixtures();
      stage1Probs, p := MixBothStages(stage1Mix, stage2Mix, expertProbs, floor);
      mixProb, evaluated := p, true;
    }

    method EvaluateExpertWeights()
      requires Valid()
      modifies this`stage1Mix, this`stage2Mix, this`expertWeights, this`contextMixturesValid, this`evaluated
      ensures Valid() && State() == EvaluateWeights(exp, old(State()))
    {
      EnsureKeepsFresh(exp, State());
      EnsureContextMixtures();
      evaluated := false;
    }

    /** One row of logits takes its gradient step. */
    static method StepRow(row: seq<real>, rate: real, scale: real, weights: seq<real>, values: seq<real>, mean: real,
                          pMix: real)
      returns (r: seq<real>)
      requires |row| == |weights| == |values| && pMix > 0.0
      ensures r == AddScaled(row, rate, Gradient(scale, weights, values, mean, pMix))
    {
      r := [];
      ghost var grads: seq<real> := [];
      for i := 0 to |row|
        invariant grads == Gradient(scale, weights[..i], values[..i], mean, pMix)
        invariant r == AddScaled(row[..i], rate, grads)
      {
        var grad := GradientEntry(scale, weights[i], values[i], mean, pMix);
        assert weights[..i + 1][..i] == weights[..i] && values[..i + 1][..i] == values[..i];
        assert row[..i + 1] == row[..i] + [row[i]];
        var logit := row[i] + rate * grad;
        AddScaledAppend(row[..i], rate, grads, row[i], grad, logit);
        r := r + [logit];
        grads := grads + [grad];
      }
      assert weights[..|row|] == weights && values[..|row|] == values && row[..|row|] == row;
    }

    method StepStage2(pMix: real)
      requires WellFormed(State()) && pMix > 0.0
      modifies this`stage2Table
      ensures stage2Table == UpdateRow2(old(State()), pMix)
    {
      var j := Stage2Index(context);
      var row := StepRow(stage2Table[j], stage2Lr, 1.0, stage2Mix, stage1Probs, pMix, pMix);
      stage2Table := stage2Table[j := row];
    }

    method StepStage1(pMix: real)
      requires WellFormed(State()) && pMix > 0.0
      modifies this`stage1Tables
      ensures stage1Tables == UpdateRows1(old(State()), pMix, STAGE1_CONTEXTS)
    {
      var n, indices := expertCount, Stage1Indices(context);
      for k := 0 to STAGE1_CONTEXTS
        invariant Shaped1(stage1Tables, n)
        invariant stage1Tables == UpdateRows1(old(State()), pMix, k)
      {
        var entry := Stage1Row(stage1Tables, indices, n, k);
        var row := StepRow(entry, stage1Lr, stage2Mix[k], MixRow(stage1Mix, n, k), expertProbs, stage1Probs[k], pMix);
        stage1Tables := stage1Tables[k := Splice(stage1Tables[k], Offset(indices[k], n), row)];
      }
    }

    /** Both gradient steps, stage 2 first. */
    method StepLogits(pMix: real)
      requires WellFormed(State()) && pMix > 0.0
      modifies this`stage1Tables, this`stage2Table
      ensures stage2Table == UpdateRow2(old(State()), pMix)
      ensures stage1Tables == UpdateRows1(old(State()), pMix, STAGE1_CONTEXTS)
    {
      hide UpdateRow2;
      StepStage2(pMix);
      Stage1IgnoresStage2(old(State()), State(), pMix, STAGE1_CONTEXTS);
      StepStage1(pMix);
    }

    method UpdateWeightsSymbol(lps: seq<LogProb>, minProb: real)
      requires Positive(exp) && Valid() && |lps| == expertCount
      modifies this
      ensures Valid() && State() == Update(exp, old(State()), lps, minProb)
    {
      hide FreshCaches, EvaluationMatches, UpdateRow2, UpdateRows1, Evaluate;
      UpdateKeepsCoherent(exp, State(), lps, minProb);
      if !evaluated {
        var _ := EvaluateSymbol(lps, minProb);
      }
      var pMix := Max(mixProb, PROB_MIN);
      if Abs(1.0 - pMix) <= updateSkipThreshold {
        return;
      }
      StepLogits(pMix);
      evaluated, contextMixturesValid := false, false;
    }

    /** The stage-1 steps read the old stage-2 mixture, not the stage-2 table just updated. */
    lemma {:induction false} Stage1IgnoresStage2(s: MixState, t: MixState, pMix: real, k: nat)
      requires WellFormed(s) && WellFormed(t) && pMix > 0.0 && k <= STAGE1_CONTEXTS
      requires t == s.(stage2Table := t.stage2Table)
      ensures UpdateRows1(s, pMix, k) == UpdateRows1(t, pMix, k)
    {
      hide Gradient, AddScaled, Stage1Row, MixRow, Stage1Indices;
      if k > 0 { Stage1IgnoresStage2(s, t, pMix, k - 1); }
    }
  }
}
