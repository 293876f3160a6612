/** What the stretch mixer answers, stated on weights, log odds and probabilities alone: it adds up
    weighted log odds, and training moves that sum toward the observed bit. */
module LogisticLaws {
  import opened RealMath
  import opened LogMath
  import opened StretchMixer
  import opened StretchMixerLaws

  // ---------- Weights ----------

  /** Expert `i`'s weight in the row that context `k` selects. */
  function Weight(s: CoreState, k: nat, i: nat): real
    requires WellFormed(s) && k < CONTEXTS && i < s.expertCount
  {
    OffsetFits(s.contextIndices[k], TABLE_SIZES[k], s.expertCount);
    s.tables[k][Offset(s.contextIndices[k], s.expertCount) + i]
  }

  /** Expert `i`'s total weight over the first `k` selected rows. */
  function WeightTo(s: CoreState, i: nat, k: nat): real
    requires WellFormed(s) && k <= CONTEXTS && i < s.expertCount
  {
    if k == 0 then 0.0 else WeightTo(s, i, k - 1) + Weight(s, k - 1, i)
  }

  function WeightsTo(s: CoreState, k: nat): (r: seq<real>)
    requires WellFormed(s) && k <= CONTEXTS
    ensures |r| == s.expertCount && forall i :: 0 <= i < |r| ==> r[i] == WeightTo(s, i, k)
  {
    seq(s.expertCount, i requires 0 <= i < s.expertCount => WeightTo(s, i, k))
  }

  /** Every expert's total weight over the six selected rows. */
  function TotalWeights(s: CoreState): (r: seq<real>)
    requires WellFormed(s)
    ensures |r| == s.expertCount && forall i :: 0 <= i < |r| ==> r[i] == WeightTo(s, i, CONTEXTS)
  {
    WeightsTo(s, CONTEXTS)
  }

  lemma WeightInRow(s: CoreState, k: nat, i: nat)
    requires WellFormed(s) && k < CONTEXTS && i < s.expertCount
    ensures Weight(s, k, i) == Row(s.tables, s.contextIndices, s.expertCount, k)[i]
    ensures Weight(s, k, i) == RowOf(s.tables, s.expertCount, k, s.contextIndices[k])[i]
  {
  }

  lemma NoWeights(s: CoreState, x: seq<real>)
    requires WellFormed(s) && |x| == s.expertCount
    ensures Dot(WeightsTo(s, 0), x) == 0.0
  {
    ZerosDot(x, WeightsTo(s, 0));
  }

  /** Scoring row by row is scoring with the total weights. */
  lemma {:induction false} ScoreIsDot(s: CoreState, x: seq<real>, k: nat)
    requires WellFormed(s) && |x| == s.expertCount && k <= CONTEXTS
    ensures ScoreTo(s.tables, s.contextIndices, s.expertCount, x, k) == Dot(WeightsTo(s, k), x)
  {
    if k == 0 {
      NoWeights(s, x);
    } else {
      hide Row, Weight, Dot;
      ScoreIsDot(s, x, k - 1);
      var row := Row(s.tables, s.contextIndices, s.expertCount, k - 1);
      forall i | 0 <= i < s.expertCount ensures WeightsTo(s, k)[i] == WeightsTo(s, k - 1)[i] + row[i] {
        WeightInRow(s, k - 1, i);
      }
      DotSplit(WeightsTo(s, k - 1), row, WeightsTo(s, k), x);
    }
  }

  // ---------- Log odds ----------

  function Odds(p: real): (r: real)
    requires 0.0 < p < 1.0
    ensures r > 0.0
  {
    p / (1.0 - p)
  }

  function LogOdds(ln: real -> real, p: real): real
    requires 0.0 < p < 1.0
  {
    ln(Odds(p))
  }

  /** The probability whose log odds are `x`. */
  function Sigmoid(exp: real -> real, x: real): (p: real)
    requires Positive(exp)
    ensures 0.0 < p < 1.0
  {
    1.0 / (1.0 + exp(-x))
  }

  /** `prob` inside the floor that `minProb` asks for. */
  function Floored(prob: real, minProb: real): (p: real)
    ensures 0.0 < p < 1.0
  {
    Clamp(prob, ProbFloor(minProb), 1.0 - ProbFloor(minProb))
  }

  lemma OppositeExps(exp: real -> real, x: real)
    requires ExpLaws(exp)
    ensures Times(exp(x), exp(-x)) == 1.0
  {
    AddedExp(exp, x, -x);
    ExpZero(exp);
    assert x + -x == 0.0;
  }

  lemma LowerOfInverse(z: real, y: real)
    requires z > 0.0 && y > 0.0 && Times(z, y) == 1.0
    ensures Lower(z) == 1.0 / (1.0 + y)
  {
    assert z * (1.0 + y) == z + 1.0;
    assert z / (1.0 + z) == 1.0 / (1.0 + y);
  }

  /** Both branches of the logistic function compute the same sigmoid, held inside scores of 64. */
  lemma SquashIsSigmoid(exp: real -> real, score: real)
    requires ExpLaws(exp)
    ensures Squash(exp, score) == Sigmoid(exp, Clamp(score, -64.0, 64.0))
  {
    var x := Clamp(score, -64.0, 64.0);
    if x < 0.0 {
      OppositeExps(exp, x);
      LowerOfInverse(exp(x), exp(-x));
    }
  }

  lemma SigmoidOdds(p: real, y: real, z: real)
    requires 0.0 < p < 1.0 && y == Odds(p) && z > 0.0 && Times(y, z) == 1.0
    ensures 1.0 / (1.0 + z) == p
  {
    assert y * (1.0 - p) == p;
    assert p * z == y * z * (1.0 - p) == 1.0 - p;
    assert p * (1.0 + z) == 1.0;
  }

  /** The sigmoid inverts the log odds. */
  lemma SigmoidInverts(exp: real -> real, ln: real -> real, p: real)
    requires LogLaws(exp, ln) && 0.0 < p < 1.0
    ensures Sigmoid(exp, LogOdds(ln, p)) == p
  {
    var x := LogOdds(ln, p);
    ExpInverts(exp, ln, Odds(p));
    OppositeExps(exp, x);
    SigmoidOdds(p, exp(x), exp(-x));
  }

  lemma SmallerQuotient(a: real, b: real)
    requires 0.0 < a <= b
    ensures 1.0 / (1.0 + b) <= 1.0 / (1.0 + a)
    ensures a < b ==> 1.0 / (1.0 + b) < 1.0 / (1.0 + a)
  {
  }

  lemma SigmoidMonotone(exp: real -> real, x: real, y: real)
    requires ExpFacts(exp) && x <= y
    ensures Sigmoid(exp, x) <= Sigmoid(exp, y)
  {
    SmallerQuotient(exp(-y), exp(-x));
  }

  lemma SigmoidStrict(exp: real -> real, ln: real -> real, x: real, y: real)
    requires LogLaws(exp, ln) && x < y
    ensures Sigmoid(exp, x) < Sigmoid(exp, y)
  {
    ExpStrict(exp, ln, -y, -x);
    SmallerQuotient(exp(-y), exp(-x));
  }

  lemma SigmoidHalf(exp: real -> real)
    requires ExpFacts(exp)
    ensures Sigmoid(exp, 0.0) == 0.5
  {
    assert -0.0 == 0.0;
  }

  // ---------- The prediction ----------

  /** What the mixer predicts from total weights and clipped log odds. */
  function Answer(exp: real -> real, weights: seq<real>, x: seq<real>, minProb: real): (p: real)
    requires Positive(exp) && |weights| == |x|
    ensures 0.0 < p < 1.0
  {
    Floored(Sigmoid(exp, Clamp(Dot(weights, x), -64.0, 64.0)), minProb)
  }

  /** The experts' log odds, each inside the floor and inside the clip of 16. */
  predicate AreLogOdds(ln: real -> real, x: seq<real>, probs: seq<real>, minProb: real)
  {
    |x| == |probs| &&
    forall i :: 0 <= i < |x| ==> x[i] == Clamp(LogOdds(ln, Floored(probs[i], minProb)), -16.0, 16.0)
  }

  lemma {:induction false} SameWeightTo(s: CoreState, t: CoreState, i: nat, k: nat)
    requires WellFormed(s) && WellFormed(t) && k <= CONTEXTS && i < s.expertCount == t.expertCount
    requires s.tables == t.tables && s.contextIndices == t.contextIndices
    ensures WeightTo(s, i, k) == WeightTo(t, i, k)
  {
    hide WellFormed;
    if k > 0 { SameWeightTo(s, t, i, k - 1); }
  }

  lemma SameWeights(s: CoreState, t: CoreState)
    requires WellFormed(s) && WellFormed(t) && s.expertCount == t.expertCount
    requires s.tables == t.tables && s.contextIndices == t.contextIndices
    ensures TotalWeights(s) == TotalWeights(t)
  {
    hide WellFormed, WeightTo;
    forall i | 0 <= i < s.expertCount ensures TotalWeights(s)[i] == TotalWeights(t)[i] {
      SameWeightTo(s, t, i, CONTEXTS);
    }
  }

  lemma StretchIsLogOdds(exp: real -> real, ln: real -> real, prob: real, minProb: real)
    requires ExpFacts(exp)
    ensures ClippedStretch(LogisticCurves(exp, ln), prob, ProbFloor(minProb))
         == Clamp(LogOdds(ln, Floored(prob, minProb)), -16.0, 16.0)
  {
    hide ExpFacts;
  }

  lemma PredictedFields(f: Curves, s: CoreState, probs: seq<real>, minProb: real)
    requires WellFormed(s) && |probs| == s.expertCount
    ensures var r, floor := PredictBit(f, s, probs, minProb), ProbFloor(minProb);
            && r == s.(expertStretches := r.expertStretches, lastProbOne := r.lastProbOne, lastValid := true)
            && |r.expertStretches| == s.expertCount
            && (s.expertCount > 0 ==> r.expertStretches == Stretches(f, probs, floor))
            && (s.expertCount > 0 ==> r.lastProbOne == ProbOne(f, s.tables, s.contextIndices, r.expertStretches, floor))
  {
  }

  lemma ProbOneIsAnswer(exp: real -> real, ln: real -> real, s: CoreState, x: seq<real>, minProb: real)
    requires ExpLaws(exp) && WellFormed(s) && |x| == s.expertCount
    ensures ProbOne(LogisticCurves(exp, ln), s.tables, s.contextIndices, x, ProbFloor(minProb))
         == Answer(exp, TotalWeights(s), x, minProb)
  {
    hide Squash, Sigmoid, ScoreTo, WeightTo, Dot, ExpFacts, ExpLaws;
    ScoreIsDot(s, x, CONTEXTS);
    SquashIsSigmoid(exp, Dot(TotalWeights(s), x));
  }

  /** The mixer adds up the experts' log odds, each times its total weight, and predicts the probability of that sum. */
  lemma PredictionAddsLogOdds(exp: real -> real, ln: real -> real, s: CoreState, probs: seq<real>, minProb: real)
    requires ExpLaws(exp) && WellFormed(s) && |probs| == s.expertCount
    ensures var r := PredictBit(LogisticCurves(exp, ln), s, probs, minProb);
            && TotalWeights(r) == TotalWeights(s) && r.tables == s.tables && r.contextIndices == s.contextIndices
            && r.learningRate == s.learningRate && |r.expertStretches| == s.expertCount
            && (s.expertCount > 0 ==> AreLogOdds(ln, r.expertStretches, probs, minProb))
            && (s.expertCount > 0 ==> r.lastProbOne == Answer(exp, TotalWeights(s), r.expertStretches, minProb))
  {
    hide WellFormed, PredictBit, ProbOne, ClippedStretch, LogOdds, Floored, Answer, ExpFacts, TotalWeights;
    var f := LogisticCurves(exp, ln);
    var r := PredictBit(f, s, probs, minProb);
    PredictedFields(f, s, probs, minProb);
    SameWeights(s, r);
    if s.expertCount > 0 {
      ProbOneIsAnswer(exp, ln, s, r.expertStretches, minProb);
      forall i | 0 <= i < |probs|
        ensures r.expertStretches[i] == Clamp(LogOdds(ln, Floored(probs[i], minProb)), -16.0, 16.0)
      {
        StretchIsLogOdds(exp, ln, probs[i], minProb);
      }
    }
  }

  // ---------- Experts that agree, and experts that change ----------

  /** `p` held where its log odds stay inside the clip. */
  function Held(exp: real -> real, p: real): (r: real)
    requires ExpFacts(exp)
    ensures Sigmoid(exp, -16.0) <= p <= Sigmoid(exp, 16.0) ==> r == p
  {
    SigmoidMonotone(exp, -16.0, 16.0);
    Clamp(p, Sigmoid(exp, -16.0), Sigmoid(exp, 16.0))
  }

  lemma ClippedLogOdds(exp: real -> real, ln: real -> real, p: real)
    requires LogLaws(exp, ln) && 0.0 < p < 1.0
    ensures Sigmoid(exp, Clamp(LogOdds(ln, p), -16.0, 16.0)) == Held(exp, p)
  {
    var x := LogOdds(ln, p);
    SigmoidInverts(exp, ln, p);
    hide Sigmoid, LogOdds;
    SigmoidMonotone(exp, -16.0, 16.0);
    if x <= -16.0 {
      SigmoidMonotone(exp, x, -16.0);
    } else if x >= 16.0 {
      SigmoidMonotone(exp, 16.0, x);
    } else {
      SigmoidMonotone(exp, x, 16.0);
      SigmoidMonotone(exp, -16.0, x);
    }
  }

  /** Holding a floored probability inside the clip leaves it inside its floor. */
  lemma HeldStaysFloored(exp: real -> real, prob: real, minProb: real)
    requires ExpFacts(exp)
    ensures Floored(Held(exp, Floored(prob, minProb)), minProb) == Held(exp, Floored(prob, minProb))
  {
    hide Sigmoid;
    SigmoidHalf(exp);
    SigmoidMonotone(exp, -16.0, 0.0);
    SigmoidMonotone(exp, 0.0, 16.0);
  }

  lemma UnanimousAnswer(exp: real -> real, ln: real -> real, weights: seq<real>, x: seq<real>, probs: seq<real>,
                        prob: real, minProb: real)
    requires LogLaws(exp, ln) && |weights| == |x| && Sum(weights) == 1.0 && AreLogOdds(ln, x, probs, minProb)
    requires forall i :: 0 <= i < |probs| ==> probs[i] == prob
    ensures Answer(exp, weights, x, minProb) == Held(exp, Floored(prob, minProb))
  {
    hide Sigmoid, LogOdds, Floored, Dot, Sum, Held;
    var l := Clamp(LogOdds(ln, Floored(prob, minProb)), -16.0, 16.0);
    DotConstant(weights, x, l);
    ClippedLogOdds(exp, ln, Floored(prob, minProb));
    HeldStaysFloored(exp, prob, minProb);
  }

  /** When all experts report one probability and the selected weights total 1, that probability is predicted: inside
      its floor, and held where the log odds stay inside the clip. */
  lemma UnanimousExpertsAreEchoed(exp: real -> real, ln: real -> real, s: CoreState, probs: seq<real>, prob: real,
                                  minProb: real)
    requires LogLaws(exp, ln) && WellFormed(s) && |probs| == s.expertCount > 0 && Sum(TotalWeights(s)) == 1.0
    requires forall i :: 0 <= i < |probs| ==> probs[i] == prob
    ensures PredictBit(LogisticCurves(exp, ln), s, probs, minProb).lastProbOne == Held(exp, Floored(prob, minProb))
  {
    hide WellFormed, PredictBit, AreLogOdds, Answer, Held, Floored, TotalWeights, Sum;
    PredictionAddsLogOdds(exp, ln, s, probs, minProb);
    var r := PredictBit(LogisticCurves(exp, ln), s, probs, minProb);
    UnanimousAnswer(exp, ln, TotalWeights(s), r.expertStretches, probs, prob, minProb);
  }

  lemma SumOne(s: seq<real>)
    requires |s| == 1
    ensures Sum(s) == s[0]
  {
    assert s[..0] == [];
  }

  lemma LogOddsInside(exp: real -> real, ln: real -> real, p: real)
    requires LogLaws(exp, ln) && 0.0 < p < 1.0 && -16.0 <= LogOdds(ln, p) <= 16.0
    ensures Held(exp, p) == p
  {
    hide Sigmoid, LogOdds, Held;
    ClippedLogOdds(exp, ln, p);
    SigmoidInverts(exp, ln, p);
  }

  /** A single expert whose six selected weights total 1 is believed: its probability, inside the floor, is the
      prediction whenever its log odds lie inside the clip. */
  lemma SingleExpertIsBelieved(exp: real -> real, ln: real -> real, s: CoreState, prob: real, minProb: real)
    requires LogLaws(exp, ln) && WellFormed(s) && s.expertCount == 1 && WeightTo(s, 0, CONTEXTS) == 1.0
    requires -16.0 <= LogOdds(ln, Floored(prob, minProb)) <= 16.0
    ensures PredictBit(LogisticCurves(exp, ln), s, [prob], minProb).lastProbOne == Floored(prob, minProb)
  {
    hide WellFormed, PredictBit, Held, Floored, LogOdds, Sum, WeightTo;
    SumOne(TotalWeights(s));
    UnanimousExpertsAreEchoed(exp, ln, s, [prob], prob, minProb);
    LogOddsInside(exp, ln, Floored(prob, minProb));
  }

  lemma LogOddsMonotone(exp: real -> real, ln: real -> real, prob: real, higher: real, minProb: real)
    requires LogLaws(exp, ln) && prob <= higher
    ensures LogOdds(ln, Floored(prob, minProb)) <= LogOdds(ln, Floored(higher, minProb))
  {
    var p, q := Floored(prob, minProb), Floored(higher, minProb);
    OddsMonotone(p, q);
    LnMonotone(exp, ln, Odds(p), Odds(q));
  }

  lemma OddsMonotone(p: real, q: real)
    requires 0.0 < p <= q < 1.0
    ensures Odds(p) <= Odds(q)
  {
    OddsIsRest(p);
    OddsIsRest(q);
    SmallerReciprocal(1.0 - q, 1.0 - p);
  }

  lemma SmallerReciprocal(a: real, b: real)
    requires 0.0 < a <= b
    ensures 1.0 / b <= 1.0 / a
  {
  }

  lemma OddsIsRest(p: real)
    requires 0.0 < p < 1.0
    ensures Odds(p) == 1.0 / (1.0 - p) - 1.0
  {
  }

  lemma AnswerMonotone(exp: real -> real, weights: seq<real>, x: seq<real>, y: seq<real>, minProb: real)
    requires ExpFacts(exp) && |weights| == |x| == |y| && Dot(weights, x) <= Dot(weights, y)
    ensures Answer(exp, weights, x, minProb) <= Answer(exp, weights, y, minProb)
  {
    hide Sigmoid, Dot;
    SigmoidMonotone(exp, Clamp(Dot(weights, x), -64.0, 64.0), Clamp(Dot(weights, y), -64.0, 64.0));
  }

  lemma ProductSign(w: real, d: real)
    requires d >= 0.0
    ensures w >= 0.0 ==> Times(w, d) >= 0.0
    ensures w <= 0.0 ==> Times(w, d) <= 0.0
  {
  }

  lemma RaisedAnswer(exp: real -> real, ln: real -> real, weights: seq<real>, x: seq<real>, y: seq<real>,
                     probs: seq<real>, i: nat, higher: real, minProb: real)
    requires LogLaws(exp, ln) && |weights| == |x| == |y| == |probs| && i < |probs| && probs[i] <= higher
    requires AreLogOdds(ln, x, probs, minProb) && AreLogOdds(ln, y, probs[i := higher], minProb)
    ensures weights[i] >= 0.0 ==> Answer(exp, weights, x, minProb) <= Answer(exp, weights, y, minProb)
    ensures weights[i] <= 0.0 ==> Answer(exp, weights, y, minProb) <= Answer(exp, weights, x, minProb)
  {
    hide LogOdds, Floored, Dot, Answer, ExpFacts, Times;
    LogOddsMonotone(exp, ln, probs[i], higher, minProb);
    assert y == x[i := y[i]];
    DotUpdate(weights, x, i, y[i]);
    ProductSign(weights[i], y[i] - x[i]);
    LogLawsExp(exp, ln);
    if weights[i] >= 0.0 { AnswerMonotone(exp, weights, x, y, minProb); }
    if weights[i] <= 0.0 { AnswerMonotone(exp, weights, y, x, minProb); }
  }

  /** Raising one expert's probability never lowers the prediction when its selected weights total at least 0, and
      never raises it when they total at most 0. */
  lemma RaisingAnExpert(exp: real -> real, ln: real -> real, s: CoreState, probs: seq<real>, i: nat, higher: real,
                        minProb: real)
    requires LogLaws(exp, ln) && WellFormed(s) && |probs| == s.expertCount && i < |probs| && probs[i] <= higher
    ensures var f := LogisticCurves(exp, ln);
            var before := PredictBit(f, s, probs, minProb).lastProbOne;
            var after := PredictBit(f, s, probs[i := higher], minProb).lastProbOne;
            && (WeightTo(s, i, CONTEXTS) >= 0.0 ==> before <= after)
            && (WeightTo(s, i, CONTEXTS) <= 0.0 ==> after <= before)
  {
    hide WellFormed, PredictBit, AreLogOdds, Answer, WeightTo;
    var f := LogisticCurves(exp, ln);
    PredictionAddsLogOdds(exp, ln, s, probs, minProb);
    PredictionAddsLogOdds(exp, ln, s, probs[i := higher], minProb);
    RaisedAnswer(exp, ln, TotalWeights(s), PredictBit(f, s, probs, minProb).expertStretches,
                 PredictBit(f, s, probs[i := higher], minProb).expertStretches, probs, i, higher, minProb);
  }

  lemma SilentAnswer(exp: real -> real, weights: seq<real>, x: seq<real>, minProb: real)
    requires ExpFacts(exp) && |weights| == |x| && forall i :: 0 <= i < |weights| ==> weights[i] == 0.0
    ensures Answer(exp, weights, x, minProb) == 0.5
  {
    hide Sigmoid, Dot;
    ZerosDot(x, weights);
    SigmoidHalf(exp);
  }

  /** A mixer whose selected weights are all 0, or total 0 for every expert, predicts 1/2. */
  lemma SilentMixerPredictsHalf(exp: real -> real, ln: real -> real, s: CoreState, probs: seq<real>, minProb: real)
    requires ExpLaws(exp) && WellFormed(s) && |probs| == s.expertCount
    requires forall i :: 0 <= i < s.expertCount ==> WeightTo(s, i, CONTEXTS) == 0.0
    ensures PredictBit(LogisticCurves(exp, ln), s, probs, minProb).lastProbOne == 0.5
  {
    hide AreLogOdds, Answer, WeightTo, ProbOne, Stretches;
    if s.expertCount > 0 {
      PredictionAddsLogOdds(exp, ln, s, probs, minProb);
      SilentAnswer(exp, TotalWeights(s), PredictBit(LogisticCurves(exp, ln), s, probs, minProb).expertStretches,
                   minProb);
    }
  }

  lemma {:induction false} OnlyGlobalWeight(s: CoreState, i: nat, k: nat)
    requires WellFormed(s) && 0 < k <= CONTEXTS && i < s.expertCount
    requires forall c :: 0 < c < CONTEXTS ==> Weight(s, c, i) == 0.0
    ensures WeightTo(s, i, k) == Weight(s, 0, i)
  {
    hide Weight, WellFormed;
    if k == 1 {
      assert WeightTo(s, i, 0) == 0.0;
    } else {
      OnlyGlobalWeight(s, i, k - 1);
    }
  }

  lemma FreshWeight(t: CoreState, priors: seq<real>, k: nat, i: nat)
    requires WellFormed(t) && t.expertCount == |priors| && PriorTables(t.tables, priors) && k < CONTEXTS && i < |priors|
    ensures Weight(t, k, i) == if k == 0 then ClipWeight(Max(priors[i], 0.0)) else 0.0
  {
    OffsetFits(t.contextIndices[k], TABLE_SIZES[k], t.expertCount);
    if k == 0 {
      assert t.tables[0][i] == t.tables[0][..|priors|][i] == PriorRow(priors)[i];
      assert t.contextIndices[0] == 0;
    }
  }

  lemma InitialInContext(s: CoreState, priors: seq<real>, learningRate: real, context: MixContext)
    requires Initial(s, priors, learningRate)
    ensures var t := SetContext(s, context);
            WellFormed(t) && t.expertCount == |priors| && PriorTables(t.tables, priors)
  {
    hide PriorTables, ContextIndices, PriorRow;
    InitialIsValid(s, s, priors, learningRate);
  }

  /** In a fresh mixer, whatever the context, an expert's selected weights total its prior, floored at 0 and clipped. */
  lemma FreshWeights(s: CoreState, priors: seq<real>, learningRate: real, context: MixContext, i: nat)
    requires Initial(s, priors, learningRate) && i < |priors|
    ensures WellFormed(SetContext(s, context)) && SetContext(s, context).expertCount == |priors|
    ensures WeightTo(SetContext(s, context), i, CONTEXTS) == Clamp(Max(priors[i], 0.0), -16.0, 16.0)
  {
    hide Initial, SetContext, PriorTables, WellFormed, Weight;
    var t := SetContext(s, context);
    InitialInContext(s, priors, learningRate, context);
    forall k | 0 <= k < CONTEXTS
      ensures Weight(t, k, i) == if k == 0 then ClipWeight(Max(priors[i], 0.0)) else 0.0
    {
      FreshWeight(t, priors, k, i);
    }
    OnlyGlobalWeight(t, i, CONTEXTS);
  }

  // ---------- Training ----------

  /** How far the observed bit lies from the prediction. */
  function Surprise(s: CoreState, bit: bool): real
  {
    (if bit then 1.0 else 0.0) - s.lastProbOne
  }

  lemma StepIs(s: CoreState, bit: bool)
    ensures Step(s, bit) == s.learningRate * Surprise(s, bit) / 6.0
  {
  }

  lemma TrainedEntry(row: seq<real>, x: seq<real>, step: real, i: nat)
    requires |row| == |x| && i < |row|
    ensures TrainRow(row, x, step)[i] == Clamp(row[i] + step * x[i], -16.0, 16.0)
  {
  }

  /** Every selected weight ends at the clip of its old value plus a sixth of the rate times the surprise times its
      expert's log odds. */
  lemma SelectedWeightsMove(s: CoreState, bit: bool, step: real, k: nat, i: nat)
    requires WellFormed(s) && s.lastValid && k < CONTEXTS && i < s.expertCount
    requires step == s.learningRate * Surprise(s, bit) / 6.0
    ensures var r := UpdateLast(s, bit);
            && r.expertCount == s.expertCount
            && Weight(r, k, i) == Clamp(Weight(s, k, i) + step * s.expertStretches[i], -16.0, 16.0)
  {
    hide UpdateLast, RowOf, Weight, TrainRow, Step, Surprise, Shaped, Clamp;
    UpdateTrainsSelectedRows(s, bit, k, s.contextIndices[k]);
    StepIs(s, bit);
    TrainedEntry(RowOf(s.tables, s.expertCount, k, s.contextIndices[k]), s.expertStretches, step, i);
    WeightInRow(s, k, i);
    WeightInRow(UpdateLast(s, bit), k, i);
  }

  /** No selected weight reaches the clip when it takes a step of `step` times its expert's log odds. */
  predicate InsideClip(s: CoreState, step: real)
    requires WellFormed(s)
  {
    forall k, i :: 0 <= k < CONTEXTS && 0 <= i < s.expertCount ==>
      -16.0 <= Weight(s, k, i) + Times(step, s.expertStretches[i]) <= 16.0
  }

  /** Each selected weight of `t` is that of `s` plus `step` times its expert's log odds. */
  predicate Moved(s: CoreState, t: CoreState, step: real)
    requires WellFormed(s) && WellFormed(t) && t.expertCount == s.expertCount
  {
    forall k, i :: 0 <= k < CONTEXTS && 0 <= i < s.expertCount ==>
      Weight(t, k, i) == Weight(s, k, i) + Times(step, s.expertStretches[i])
  }

  lemma UnclippedMove(s: CoreState, bit: bool, step: real)
    requires WellFormed(s) && s.lastValid && s.expertCount > 0 && step == s.learningRate * Surprise(s, bit) / 6.0
    requires InsideClip(s, step)
    ensures UpdateLast(s, bit).expertCount == s.expertCount && Moved(s, UpdateLast(s, bit), step)
  {
    hide UpdateLast, Weight, Surprise, WellFormed;
    StretchCount(s);
    SelectedWeightsMove(s, bit, step, 0, 0);
    forall k, i | 0 <= k < CONTEXTS && 0 <= i < s.expertCount
      ensures Weight(UpdateLast(s, bit), k, i) == Weight(s, k, i) + Times(step, s.expertStretches[i])
    {
      SelectedWeightsMove(s, bit, step, k, i);
    }
  }

  /** `k` steps of `d`. */
  function Steps(k: nat, d: real): real
  {
    if k == 0 then 0.0 else Steps(k - 1, d) + d
  }

  lemma {:induction false} MovedTotal(s: CoreState, t: CoreState, step: real, i: nat, k: nat)
    requires WellFormed(s) && WellFormed(t) && t.expertCount == s.expertCount && Moved(s, t, step)
    requires i < s.expertCount && k <= CONTEXTS
    ensures WeightTo(t, i, k) == WeightTo(s, i, k) + Steps(k, Times(step, s.expertStretches[i]))
  {
    hide Weight, WellFormed, Times;
    StretchCount(s);
    if k > 0 {
      MovedTotal(s, t, step, i, k - 1);
    }
  }

  lemma NextStep(k: nat, d: real)
    ensures Steps(k + 1, d) == Steps(k, d) + d
  {
  }

  lemma SixTimes(d: real)
    ensures Steps(6, d) == 6.0 * d
  {
    assert Steps(0, d) == 0.0;
    hide Steps;
    NextStep(0, d);
    NextStep(1, d);
    NextStep(2, d);
    NextStep(3, d);
    NextStep(4, d);
    NextStep(5, d);
  }

  lemma SixSteps(rate: real, surprise: real, step: real, x: real)
    requires step == rate * surprise / 6.0
    ensures Steps(CONTEXTS, Times(step, x)) == Times(Times(rate, surprise), x)
  {
    SixTimes(Times(step, x));
    assert rate * surprise == 6.0 * step;
  }

  lemma MovedTotals(s: CoreState, t: CoreState, rate: real, surprise: real, step: real)
    requires WellFormed(s) && WellFormed(t) && t.expertCount == s.expertCount && Moved(s, t, step)
    requires step == rate * surprise / 6.0
    ensures TotalWeights(t) == AddScaled(TotalWeights(s), Times(rate, surprise), s.expertStretches)
  {
    hide Weight, WeightTo, Moved;
    var c, x := Times(rate, surprise), s.expertStretches;
    forall i | 0 <= i < s.expertCount ensures TotalWeights(t)[i] == AddScaled(TotalWeights(s), c, x)[i] {
      MovedTotal(s, t, step, i, CONTEXTS);
      SixSteps(rate, surprise, step, x[i]);
      AddScaledAt(TotalWeights(s), c, x, i);
    }
  }

  /** As long as no weight reaches the clip, an update moves the summed log odds by exactly the rate times the surprise
      times the sum of the squared log odds. */
  lemma UpdateMovesScore(s: CoreState, bit: bool)
    requires WellFormed(s) && s.lastValid && s.expertCount > 0
    requires InsideClip(s, s.learningRate * Surprise(s, bit) / 6.0)
    ensures var r, x := UpdateLast(s, bit), s.expertStretches;
            && r.expertCount == s.expertCount
            && Dot(TotalWeights(r), x) == Dot(TotalWeights(s), x) + s.learningRate * Surprise(s, bit) * Dot(x, x)
  {
    hide UpdateLast, WellFormed, Surprise, InsideClip, Moved, TotalWeights;
    var r, x := UpdateLast(s, bit), s.expertStretches;
    var step := s.learningRate * Surprise(s, bit) / 6.0;
    UnclippedMove(s, bit, step);
    StretchCount(s);
    MovedTotals(s, r, s.learningRate, Surprise(s, bit), step);
    DotAddScaled(TotalWeights(s), Times(s.learningRate, Surprise(s, bit)), x, x);
  }

  lemma StretchCount(s: CoreState)
    requires WellFormed(s)
    ensures |s.expertStretches| == s.expertCount
  {
  }

  // ---------- Training moves the score strictly ----------

  /** The step times the change of a weighted value: at least 0 when the change is the way the step points. */
  function Gain(step: real, before: real, after: real, x: real): real
  {
    Times(step, Times(after - before, x))
  }

  lemma GainAdds(step: real, a: real, b: real, c: real, d: real, x: real)
    ensures Gain(step, a + c, b + d, x) == Gain(step, a, b, x) + Gain(step, c, d, x)
  {
    assert (b + d - (a + c)) * x == (b - a) * x + (d - c) * x;
  }

  lemma NoGain(step: real, a: real, x: real)
    ensures Gain(step, a, a, x) == 0.0
  {
  }

  lemma ClippedMove(w: real, d: real)
    requires -16.0 <= w <= 16.0
    ensures var e := Clamp(w + d, -16.0, 16.0) - w;
            && (d >= 0.0 ==> e >= 0.0) && (d <= 0.0 ==> e <= 0.0)
            && (d != 0.0 && -16.0 < w < 16.0 ==> e != 0.0)
  {
  }

  lemma NonzeroProduct(a: real, b: real)
    requires a != 0.0 && b != 0.0
    ensures a * b != 0.0
  {
  }

  /** A clipped gradient step gains, strictly unless the weight was at the clip or its expert had nothing to say. */
  lemma WeightGains(w: real, after: real, step: real, x: real)
    requires -16.0 <= w <= 16.0 && after == Clamp(w + step * x, -16.0, 16.0)
    ensures Gain(step, w, after, x) >= 0.0
    ensures step != 0.0 && x != 0.0 && -16.0 < w < 16.0 ==> Gain(step, w, after, x) > 0.0
  {
    var d, e := step * x, after - w;
    ClippedMove(w, d);
    SameSignProduct(d, e);
    if step != 0.0 && x != 0.0 { NonzeroProduct(step, x); }
    assert step * (e * x) == d * e;
  }

  /** Every selected weight gains from the step, and the weights of `free` gain strictly. */
  predicate Gains(s: CoreState, t: CoreState, step: real, free: (nat, nat))
    requires WellFormed(s) && WellFormed(t) && t.expertCount == s.expertCount
  {
    forall k: nat, i: nat :: k < CONTEXTS && i < s.expertCount ==>
      && Gain(step, Weight(s, k, i), Weight(t, k, i), s.expertStretches[i]) >= 0.0
      && ((k, i) == free ==> Gain(step, Weight(s, k, i), Weight(t, k, i), s.expertStretches[i]) > 0.0)
  }

  lemma {:induction false} TotalGains(s: CoreState, t: CoreState, step: real, free: (nat, nat), i: nat, k: nat)
    requires WellFormed(s) && WellFormed(t) && t.expertCount == s.expertCount && Gains(s, t, step, free)
    requires i < s.expertCount && k <= CONTEXTS
    ensures var gain := Gain(step, WeightTo(s, i, k), WeightTo(t, i, k), s.expertStretches[i]);
            gain >= 0.0 && (free.0 < k && free.1 == i ==> gain > 0.0)
  {
    hide Weight, WellFormed, Gain;
    StretchCount(s);
    if k == 0 {
      NoGain(step, 0.0, s.expertStretches[i]);
    } else {
      TotalGains(s, t, step, free, i, k - 1);
      GainAdds(step, WeightTo(s, i, k - 1), WeightTo(t, i, k - 1), Weight(s, k - 1, i), Weight(t, k - 1, i),
               s.expertStretches[i]);
    }
  }

  lemma DotGainStep(step: real, a: real, b: real, w: real, v: real, x: real)
    ensures Times(step, b + Times(v, x) - (a + Times(w, x))) == Times(step, b - a) + Gain(step, w, v, x)
  {
    assert v * x - w * x == (v - w) * x;
  }

  lemma {:induction false} DotGains(a: seq<real>, b: seq<real>, x: seq<real>, step: real, free: nat)
    requires |a| == |b| == |x|
    requires forall i :: 0 <= i < |a| ==> Gain(step, a[i], b[i], x[i]) >= 0.0
    requires free < |a| ==> Gain(step, a[free], b[free], x[free]) > 0.0
    ensures Times(step, Dot(b, x) - Dot(a, x)) >= 0.0
    ensures free < |a| ==> Times(step, Dot(b, x) - Dot(a, x)) > 0.0
  {
    if a == [] {
      assert Dot(b, x) - Dot(a, x) == 0.0;
    } else {
      hide Times, Gain;
      var n := |a| - 1;
      DotGains(a[..n], b[..n], x[..n], step, free);
      DotGainStep(step, Dot(a[..n], x[..n]), Dot(b[..n], x[..n]), a[n], b[n], x[n]);
    }
  }

  lemma SignOfGain(step: real, d: real)
    requires Times(step, d) > 0.0
    ensures step > 0.0 ==> d > 0.0
    ensures step < 0.0 ==> d < 0.0
  {
  }

  lemma UpdateGains(s: CoreState, bit: bool, step: real, free: (nat, nat))
    requires Valid(s) && s.lastValid && s.expertCount > 0
    requires step == s.learningRate * Surprise(s, bit) / 6.0 && step != 0.0
    requires free.0 < CONTEXTS && free.1 < s.expertCount
    requires s.expertStretches[free.1] != 0.0 && -16.0 < Weight(s, free.0, free.1) < 16.0
    ensures UpdateLast(s, bit).expertCount == s.expertCount && Gains(s, UpdateLast(s, bit), step, free)
  {
    hide UpdateLast, Weight, Surprise, Coherent, Clipped, WellFormed, Gain, Shaped;
    StretchCount(s);
    SelectedWeightsMove(s, bit, step, 0, 0);
    forall k: nat, i: nat | k < CONTEXTS && i < s.expertCount
      ensures Gain(step, Weight(s, k, i), Weight(UpdateLast(s, bit), k, i), s.expertStretches[i]) >= 0.0
      ensures (k, i) == free ==>
                Gain(step, Weight(s, k, i), Weight(UpdateLast(s, bit), k, i), s.expertStretches[i]) > 0.0
    {
      SelectedWeightsMove(s, bit, step, k, i);
      WeightInsideClip(s, k, i);
      WeightGains(Weight(s, k, i), Weight(UpdateLast(s, bit), k, i), step, s.expertStretches[i]);
    }
  }

  lemma WeightInsideClip(s: CoreState, k: nat, i: nat)
    requires WellFormed(s) && Clipped(s.tables) && k < CONTEXTS && i < s.expertCount
    ensures -16.0 <= Weight(s, k, i) <= 16.0
  {
    OffsetFits(s.contextIndices[k], TABLE_SIZES[k], s.expertCount);
  }

  lemma StepIsNonzero(rate: real, surprise: real, step: real)
    requires rate > 0.0 && surprise != 0.0 && step == rate * surprise / 6.0
    ensures surprise > 0.0 ==> step > 0.0
    ensures surprise < 0.0 ==> step < 0.0
  {
    SignedProduct(rate, surprise);
  }

  lemma SignedProduct(a: real, b: real)
    requires a > 0.0
    ensures b > 0.0 ==> a * b > 0.0
    ensures b < 0.0 ==> a * b < 0.0
  {
  }

  lemma SurpriseSign(s: CoreState, bit: bool)
    requires 0.0 < s.lastProbOne < 1.0
    ensures if bit then Surprise(s, bit) > 0.0 else Surprise(s, bit) < 0.0
  {
  }

  lemma ScoreGains(s: CoreState, t: CoreState, step: real, free: (nat, nat))
    requires WellFormed(s) && WellFormed(t) && t.expertCount == s.expertCount && Gains(s, t, step, free)
    requires free.0 < CONTEXTS && free.1 < s.expertCount
    ensures |s.expertStretches| == s.expertCount
    ensures Times(step, Dot(TotalWeights(t), s.expertStretches) - Dot(TotalWeights(s), s.expertStretches)) > 0.0
  {
    hide Gains, Gain, Times, WeightTo, WellFormed;
    StretchCount(s);
    forall j | 0 <= j < s.expertCount
      ensures Gain(step, TotalWeights(s)[j], TotalWeights(t)[j], s.expertStretches[j]) >= 0.0
      ensures j == free.1 ==> Gain(step, TotalWeights(s)[j], TotalWeights(t)[j], s.expertStretches[j]) > 0.0
    {
      TotalGains(s, t, step, free, j, CONTEXTS);
    }
    DotGains(TotalWeights(s), TotalWeights(t), s.expertStretches, step, free.1);
  }

  /** With a positive rate, the summed log odds strictly move toward the observed bit as soon as one expert with nonzero
      log odds has one selected weight inside the clip. */
  lemma TrainingMovesScore(s: CoreState, bit: bool, k: nat, i: nat)
    requires Valid(s) && s.lastValid && 0.0 < s.lastProbOne < 1.0 && s.learningRate > 0.0
    requires k < CONTEXTS && i < s.expertCount && s.expertStretches[i] != 0.0 && -16.0 < Weight(s, k, i) < 16.0
    ensures var r, x := UpdateLast(s, bit), s.expertStretches;
            && r.expertCount == s.expertCount
            && if bit then Dot(TotalWeights(r), x) > Dot(TotalWeights(s), x)
               else Dot(TotalWeights(r), x) < Dot(TotalWeights(s), x)
  {
    hide Surprise, UpdateLast, Weight, Coherent, Clipped, WellFormed, Gains, Times, TotalWeights;
    var r, x, step := UpdateLast(s, bit), s.expertStretches, s.learningRate * Surprise(s, bit) / 6.0;
    SurpriseSign(s, bit);
    StepIsNonzero(s.learningRate, Surprise(s, bit), step);
    UpdateGains(s, bit, step, (k, i));
    ScoreGains(s, r, step, (k, i));
    SignOfGain(step, Dot(TotalWeights(r), x) - Dot(TotalWeights(s), x));
  }

  /** A floored probability other than 1/2 has log odds other than 0. */
  lemma OpinionatedLogOdds(exp: real -> real, ln: real -> real, p: real)
    requires LogLaws(exp, ln) && 0.0 < p < 1.0 && p != 0.5
    ensures Clamp(LogOdds(ln, p), -16.0, 16.0) != 0.0
  {
    SigmoidInverts(exp, ln, p);
    SigmoidHalf(exp);
  }

  lemma AnswerStrict(exp: real -> real, ln: real -> real, before: seq<real>, after: seq<real>, x: seq<real>,
                     minProb: real, bit: bool)
    requires LogLaws(exp, ln) && |before| == |after| == |x| && -64.0 < Dot(before, x) < 64.0
    requires ProbFloor(minProb) < Answer(exp, before, x, minProb) < 1.0 - ProbFloor(minProb)
    requires if bit then Dot(after, x) > Dot(before, x) else Dot(after, x) < Dot(before, x)
    ensures if bit then Answer(exp, after, x, minProb) > Answer(exp, before, x, minProb)
            else Answer(exp, after, x, minProb) < Answer(exp, before, x, minProb)
  {
    hide Sigmoid, Dot, ProbFloor;
    if bit {
      SigmoidStrict(exp, ln, Dot(before, x), Clamp(Dot(after, x), -64.0, 64.0));
    } else {
      SigmoidStrict(exp, ln, Clamp(Dot(after, x), -64.0, 64.0), Dot(before, x));
    }
  }

  lemma SameLogOdds(ln: real -> real, x: seq<real>, y: seq<real>, probs: seq<real>, minProb: real)
    requires AreLogOdds(ln, x, probs, minProb) && AreLogOdds(ln, y, probs, minProb)
    ensures x == y
  {
    hide LogOdds, Floored, Clamp;
  }

  lemma ValidPrediction(f: Curves, s: CoreState, probs: seq<real>, minProb: real)
    requires Valid(s) && |probs| == s.expertCount
    ensures Valid(PredictBit(f, s, probs, minProb))
  {
    PredictedFields(f, s, probs, minProb);
  }

  lemma UpdatedFields(s: CoreState, bit: bool)
    requires WellFormed(s)
    ensures UpdateLast(s, bit).expertCount == s.expertCount
  {
  }

  /**
    Observing a bit and re-predicting with the same experts makes the bit strictly more probable, as soon as one expert
    that does not say 1/2 has one selected weight inside the clip, unless the floor or the clip of the score already
    holds the prediction.
    */
  lemma TrainingMovesPrediction(exp: real -> real, ln: real -> real, s: CoreState, probs: seq<real>, minProb: real,
                                bit: bool, k: nat, i: nat)
    requires LogLaws(exp, ln) && Valid(s) && |probs| == s.expertCount && s.learningRate > 0.0
    requires k < CONTEXTS && i < s.expertCount && Floored(probs[i], minProb) != 0.5 && -16.0 < Weight(s, k, i) < 16.0
    requires var before := PredictBit(LogisticCurves(exp, ln), s, probs, minProb);
             && ProbFloor(minProb) < before.lastProbOne < 1.0 - ProbFloor(minProb)
             && -64.0 < Dot(TotalWeights(s), before.expertStretches) < 64.0
    ensures var f := LogisticCurves(exp, ln);
            var before := PredictBit(f, s, probs, minProb);
            var after := PredictBit(f, UpdateLast(before, bit), probs, minProb);
            if bit then after.lastProbOne > before.lastProbOne else after.lastProbOne < before.lastProbOne
  {
    var f := LogisticCurves(exp, ln);
    var before := PredictBit(f, s, probs, minProb);
    var x := before.expertStretches;
    PredictionAddsLogOdds(exp, ln, s, probs, minProb);
    OpinionatedLogOdds(exp, ln, Floored(probs[i], minProb));
    assert x[i] != 0.0;
    WeightInRow(s, k, i);
    WeightInRow(before, k, i);
    hide PredictBit, UpdateLast, Row, RowOf, Answer, AreLogOdds, TotalWeights, Weight, Dot, LogOdds, Floored, ProbFloor,
         Valid, ExpFacts;
    ValidPrediction(f, s, probs, minProb);
    ValidIsWellFormed(before);
    UpdatedFields(before, bit);
    TrainingMovesScore(before, bit, k, i);
    PredictionAddsLogOdds(exp, ln, UpdateLast(before, bit), probs, minProb);
    SameLogOdds(ln, x, PredictBit(f, UpdateLast(before, bit), probs, minProb).expertStretches, probs, minProb);
    AnswerStrict(exp, ln, TotalWeights(s), TotalWeights(UpdateLast(before, bit)), x, minProb, bit);
  }

  lemma ValidIsWellFormed(s: CoreState)
    requires Valid(s)
    ensures WellFormed(s)
  {
  }
}
