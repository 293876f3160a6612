/** The experiment's loop over log weights and costs, proved to track the two recursions: its code
    lengths are the negative logarithms of the sum and the maximum over all switching schedules. */
module FixedShareRun {
  import opened RealMath
  import opened LogMath
  import opened FixedShare
  import opened FixedShareLaws

  // ---------- Log-sum-exp ----------

  method MaxOf(xs: seq<real>) returns (m: real)
    requires xs != []
    ensures forall i :: 0 <= i < |xs| ==> xs[i] <= m
  {
    m := xs[0];
    for i := 1 to |xs|
      invariant forall j :: 0 <= j < i ==> xs[j] <= m
    {
      if xs[i] > m {
        m := xs[i];
      }
    }
  }

  /** `max + ln(sum of exp(x - max))`. */
  method LogSumExp(exp: real -> real, ln: real -> real, xs: seq<real>) returns (r: real)
    requires LogLaws(exp, ln) && xs != []
    ensures exp(r) == Sum(ExpsOf(exp, xs))
  {
    hide LogLaws, Scale, Times, Sum;
    var m := MaxOf(xs);
    var sum := 0.0;
    ghost var shifted: seq<real> := [];
    assert Sum(shifted) == 0.0 by { EmptySum(); }
    for i := 0 to |xs|
      invariant |shifted| == i && forall j :: 0 <= j < i ==> shifted[j] == exp(xs[j] - m)
      invariant sum == Sum(shifted)
    {
      var x := exp(xs[i] - m);
      SumAppend(shifted, x);
      shifted := shifted + [x];
      sum := sum + x;
    }
    r := m + ln(sum);
    forall i | 0 <= i < |xs| ensures shifted[i] > 0.0 { ExpPositive(exp, ln, xs[i] - m); }
    SumPositive(shifted);
    LogLawsExp(exp, ln);
    ShiftedSum(exp, xs, shifted, m);
    ScaledSum(exp(m), shifted);
    ExpLn(exp, ln, m, sum);
  }

  lemma EmptySum()
    ensures Sum([]) == 0.0
  {
  }

  method LogSumExp2(exp: real -> real, ln: real -> real, a: real, b: real) returns (r: real)
    requires LogLaws(exp, ln)
    ensures exp(r) == exp(a) + exp(b)
  {
    hide LogLaws;
    var m := if a > b then a else b;
    var x, y := exp(a - m), exp(b - m);
    r := m + ln(x + y);
    ExpPositive(exp, ln, a - m);
    ExpPositive(exp, ln, b - m);
    ExpLn(exp, ln, m, x + y);
    ExpSum(exp, ln, m, a - m);
    ExpSum(exp, ln, m, b - m);
    assert m + (a - m) == a && m + (b - m) == b;
  }

  // ---------- The problem the logarithms describe ----------

  function ProblemOf(exp: real -> real, logPriors: seq<real>, alpha: real, stepLogps: seq<seq<real>>): (p: Problem)
    ensures |p.prior| == |logPriors| && |p.likelihoods| == |stepLogps| && p.alpha == alpha
  {
    Problem(ExpsOf(exp, logPriors), alpha,
            seq(|stepLogps|, t requires 0 <= t < |stepLogps| => ExpsOf(exp, stepLogps[t])))
  }

  /** Log weights, after adding back the accumulated normalisers, are the forward masses. */
  ghost predicate ForwardTracks(exp: real -> real, p: Problem, t: nat, logw: seq<real>, acc: real)
    requires p.Valid() && t <= |p.likelihoods|
  {
    && |logw| == |p.prior|
    && (forall i :: 0 <= i < |logw| ==> exp(logw[i] + acc) == Forward(p, t)[i])
    && exp(acc) == Sum(Forward(p, t))
  }

  /** Costs are the negative logarithms of the Viterbi masses. */
  ghost predicate ViterbiTracks(exp: real -> real, p: Problem, t: nat, cost: seq<real>)
    requires p.Valid() && t <= |p.likelihoods|
  {
    |cost| == |p.prior| && forall i :: 0 <= i < |cost| ==> exp(-cost[i]) == Viterbi(p, t)[i]
  }

  lemma ForwardArithmetic(l: real, u: real, w: real, r: real, a: real)
    ensures Times(Times(l, Times(u, w) + r), a) == Times(Times(u, Times(w, a)) + Times(r, a), l)
  {
    var x := u * w + r;
    assert l * x * a == (x * a) * l;
    assert x * a == u * (w * a) + r * a;
  }

  /** One forward step in logarithms, as products. */
  lemma ForwardScalar(exp: real -> real, ln: real -> real, u: real, rate: real, logw: real, acc: real,
                      logRate: real, logp: real, mixed: real)
    requires LogLaws(exp, ln) && u > 0.0 && exp(logRate) == rate
    requires exp(mixed) == exp(ln(u) + logw) + exp(logRate)
    ensures exp(logp + mixed + acc) == Times(Times(u, exp(logw + acc)) + Times(rate, exp(acc)), exp(logp))
  {
    hide Times, LogLaws;
    LnExp(exp, ln, u, logw);
    ExpSum(exp, ln, logw, acc);
    ExpSum(exp, ln, logp, mixed);
    ExpSum(exp, ln, logp + mixed, acc);
    ForwardArithmetic(exp(logp), u, exp(logw), rate, exp(acc));
  }

  /** One Viterbi step in costs, as products. */
  lemma ViterbiScalar(exp: real -> real, ln: real -> real, u: real, rate: real, cost: real, best: real,
                      logAlpha: real, logPrior: real, logp: real)
    requires LogLaws(exp, ln) && u > 0.0 && exp(logAlpha + logPrior) == rate
    ensures exp(-(Min(cost - ln(u), best - logAlpha - logPrior) - logp))
         == Times(Max(Times(u, exp(-cost)), Times(rate, exp(-best))), exp(logp))
  {
    hide Times, LogLaws;
    var stay, switch := cost - ln(u), best - logAlpha - logPrior;
    MaxPair(exp, ln, stay, switch);
    LnExp(exp, ln, u, -cost);
    assert -stay == ln(u) + -cost;
    ExpSum(exp, ln, logAlpha + logPrior, -best);
    assert -switch == logAlpha + logPrior + -best;
    ExpSum(exp, ln, -Min(stay, switch), logp);
    assert -(Min(stay, switch) - logp) == -Min(stay, switch) + logp;
  }

  lemma RateOf(exp: real -> real, ln: real -> real, p: Problem, logPrior: real, i: nat)
    requires LogLaws(exp, ln) && p.Valid() && i < |p.prior| && exp(logPrior) == p.prior[i]
    ensures exp(ln(p.alpha) + logPrior) == SwitchRate(p, i)
  {
    LnExp(exp, ln, p.alpha, logPrior);
  }

  lemma MaxPair(exp: real -> real, ln: real -> real, x: real, y: real)
    requires LogLaws(exp, ln)
    ensures exp(-Min(x, y)) == Max(exp(-x), exp(-y))
  {
  }

  function MinEntry(s: seq<real>): (m: real)
    requires s != []
  {
    if |s| == 1 then s[0] else Min(MinEntry(s[..|s| - 1]), s[|s| - 1])
  }

  lemma {:induction false} MinIsMax(exp: real -> real, ln: real -> real, cost: seq<real>, masses: seq<real>)
    requires LogLaws(exp, ln) && |cost| == |masses| > 0
    requires forall i :: 0 <= i < |cost| ==> exp(-cost[i]) == masses[i]
    ensures exp(-MinEntry(cost)) == MaxEntry(masses)
  {
    var n := |cost| - 1;
    hide LogLaws;
    if n > 0 {
      MinIsMax(exp, ln, cost[..n], masses[..n]);
      MaxPair(exp, ln, MinEntry(cost[..n]), cost[n]);
    }
  }

  // ---------- The loop ----------

  /** Every expert's next log weight, and the log of the mixture's probability for this symbol. */
  method ForwardStep(exp: real -> real, ln: real -> real, logw: seq<real>, logPriors: seq<real>, logps: seq<real>,
                     logStay: real, logSwitch: real) returns (next: seq<real>, logMix: real)
    requires LogLaws(exp, ln) && |logw| == |logPriors| == |logps| > 0
    ensures |next| == |logw| && exp(logMix) == Sum(ExpsOf(exp, next))
    ensures forall i :: 0 <= i < |logw| ==> StepsTo(exp, next[i], logps[i], logStay + logw[i], logSwitch + logPriors[i])
  {
    hide LogLaws, Sum;
    next := [];
    for i := 0 to |logw|
      invariant |next| == i
      invariant forall j :: 0 <= j < i ==> StepsTo(exp, next[j], logps[j], logStay + logw[j], logSwitch + logPriors[j])
    {
      var mixed := LogSumExp2(exp, ln, logStay + logw[i], logSwitch + logPriors[i]);
      next := next + [logps[i] + mixed];
    }
    logMix := LogSumExp(exp, ln, next);
  }

  /** The cheaper of staying and switching from the best expert, plus this symbol's cost. */
  function NextCost(cost: real, best: real, logPrior: real, logp: real, logStay: real, logSwitch: real): real
  {
    Min(cost - logStay, best - logSwitch - logPrior) - logp
  }

  method ViterbiStep(cost: seq<real>, logPriors: seq<real>, logps: seq<real>, logStay: real, logSwitch: real)
    returns (next: seq<real>)
    requires |cost| == |logPriors| == |logps| > 0
    ensures |next| == |cost|
    ensures forall i :: 0 <= i < |cost| ==>
              next[i] == NextCost(cost[i], MinEntry(cost), logPriors[i], logps[i], logStay, logSwitch)
  {
    var best := FindMin(cost);
    next := [];
    for i := 0 to |cost|
      invariant |next| == i
      invariant forall j :: 0 <= j < i ==>
        next[j] == NextCost(cost[j], MinEntry(cost), logPriors[j], logps[j], logStay, logSwitch)
    {
      var stay := cost[i] - logStay;
      var switchCost := best - logSwitch - logPriors[i];
      next := next + [Min(stay, switchCost) - logps[i]];
    }
  }

  method FindMin(cost: seq<real>) returns (best: real)
    requires cost != []
    ensures best == MinEntry(cost)
  {
    best := cost[0];
    for i := 1 to |cost|
      invariant best == MinEntry(cost[..i])
    {
      assert cost[..i + 1][..i] == cost[..i];
      best := Min(best, cost[i]);
    }
    assert cost[..|cost|] == cost;
  }

  /** What one forward step computes for one expert. */
  ghost predicate StepsTo(exp: real -> real, next: real, logp: real, stay: real, switch: real)
  {
    exists mixed :: next == logp + mixed && exp(mixed) == exp(stay) + exp(switch)
  }

  lemma StayRate(p: Problem)
    requires p.Valid()
    ensures 0.0 < 1.0 - p.alpha < 1.0 && |p.prior| > 0
  {
  }

  lemma ForwardUnfolds(p: Problem, t: nat, i: nat)
    requires p.Valid() && t < |p.likelihoods| && i < |p.prior|
    ensures Forward(p, t + 1)[i]
         == Times(Times(1.0 - p.alpha, Forward(p, t)[i]) + Times(SwitchRate(p, i), Sum(Forward(p, t))),
                  p.likelihoods[t][i])
  {
    hide Times, SwitchRate, Sum;
    assert Forward(p, t + 1)[i] == ForwardEntry(p, t, Forward(p, t)[i], Sum(Forward(p, t)), i);
  }

  lemma ViterbiUnfolds(p: Problem, t: nat, i: nat)
    requires p.Valid() && t < |p.likelihoods| && i < |p.prior|
    ensures Viterbi(p, t + 1)[i]
         == Times(Max(Times(1.0 - p.alpha, Viterbi(p, t)[i]), Times(SwitchRate(p, i), MaxEntry(Viterbi(p, t)))),
                  p.likelihoods[t][i])
  {
    hide Times, SwitchRate, MaxEntry;
    assert Viterbi(p, t + 1)[i] == ViterbiEntry(p, t, Viterbi(p, t)[i], MaxEntry(Viterbi(p, t)), i);
  }

  lemma ForwardEntryTracks(exp: real -> real, ln: real -> real, p: Problem, t: nat, logw: seq<real>, acc: real,
                           logPriors: seq<real>, logps: seq<real>, next: real, i: nat)
    requires LogLaws(exp, ln) && p.Valid() && t < |p.likelihoods| && i < |p.prior| == |logPriors| == |logps|
    requires ForwardTracks(exp, p, t, logw, acc)
    requires p.prior == ExpsOf(exp, logPriors) && p.likelihoods[t] == ExpsOf(exp, logps)
    requires StepsTo(exp, next, logps[i], ln(1.0 - p.alpha) + logw[i], ln(p.alpha) + logPriors[i])
    ensures exp(next + acc) == Forward(p, t + 1)[i]
  {
    hide LogLaws, Times, SwitchRate, Forward, Sum, Problem.Valid;
    StayRate(p);
    ForwardUnfolds(p, t, i);
    RateOf(exp, ln, p, logPriors[i], i);
    var mixed :| next == logps[i] + mixed
                 && exp(mixed) == exp(ln(1.0 - p.alpha) + logw[i]) + exp(ln(p.alpha) + logPriors[i]);
    ForwardScalar(exp, ln, 1.0 - p.alpha, SwitchRate(p, i), logw[i], acc, ln(p.alpha) + logPriors[i], logps[i], mixed);
  }

  /** Subtracting the normaliser from the weights and adding it to the account keeps the tracking. */
  lemma ForwardStepTracks(exp: real -> real, ln: real -> real, p: Problem, t: nat, logw: seq<real>, acc: real,
                          logPriors: seq<real>, logps: seq<real>, next: seq<real>, logMix: real, normalised: seq<real>)
    requires LogLaws(exp, ln) && p.Valid() && t < |p.likelihoods| && |p.prior| == |logPriors| == |logps| == |next|
    requires ForwardTracks(exp, p, t, logw, acc)
    requires p.prior == ExpsOf(exp, logPriors) && p.likelihoods[t] == ExpsOf(exp, logps)
    requires forall i :: 0 <= i < |next| ==>
               StepsTo(exp, next[i], logps[i], ln(1.0 - p.alpha) + logw[i], ln(p.alpha) + logPriors[i])
    requires exp(logMix) == Sum(ExpsOf(exp, next))
    requires |normalised| == |next| && forall i :: 0 <= i < |next| ==> normalised[i] == next[i] - logMix
    ensures ForwardTracks(exp, p, t + 1, normalised, acc + logMix)
  {
    hide LogLaws, StepsTo, Forward, Sum, Scale;
    var masses := Forward(p, t + 1);
    forall i | 0 <= i < |next|
      ensures exp(normalised[i] + (acc + logMix)) == masses[i] && Scale(exp(acc), ExpsOf(exp, next))[i] == masses[i]
    {
      ForwardEntryTracks(exp, ln, p, t, logw, acc, logPriors, logps, next[i], i);
      assert normalised[i] + (acc + logMix) == next[i] + acc;
      ScaleAt(exp(acc), ExpsOf(exp, next), i);
      ExpSum(exp, ln, next[i], acc);
    }
    assert Scale(exp(acc), ExpsOf(exp, next)) == masses;
    ScaledSum(exp(acc), ExpsOf(exp, next));
    ExpSum(exp, ln, acc, logMix);
  }

  lemma ViterbiEntryTracks(exp: real -> real, ln: real -> real, p: Problem, t: nat, cost: real, best: real,
                           logPrior: real, logp: real, next: real, i: nat)
    requires LogLaws(exp, ln) && p.Valid() && t < |p.likelihoods| && i < |p.prior|
    requires exp(-cost) == Viterbi(p, t)[i] && exp(-best) == MaxEntry(Viterbi(p, t))
    requires exp(logPrior) == p.prior[i] && exp(logp) == p.likelihoods[t][i]
    requires next == NextCost(cost, best, logPrior, logp, ln(1.0 - p.alpha), ln(p.alpha))
    ensures exp(-next) == Viterbi(p, t + 1)[i]
  {
    hide LogLaws, Times, SwitchRate, Viterbi, MaxEntry, Problem.Valid, Max, Min;
    StayRate(p);
    ViterbiUnfolds(p, t, i);
    RateOf(exp, ln, p, logPrior, i);
    ViterbiScalar(exp, ln, 1.0 - p.alpha, SwitchRate(p, i), cost, best, ln(p.alpha), logPrior, logp);
  }

  lemma ViterbiCostTracks(exp: real -> real, ln: real -> real, p: Problem, t: nat, cost: seq<real>,
                          logPriors: seq<real>, logps: seq<real>, i: nat)
    requires LogLaws(exp, ln) && p.Valid() && t < |p.likelihoods| && |p.prior| == |logPriors| == |logps|
             && i < |p.prior|
    requires ViterbiTracks(exp, p, t, cost)
    requires p.prior == ExpsOf(exp, logPriors) && p.likelihoods[t] == ExpsOf(exp, logps)
    ensures exp(-NextCost(cost[i], MinEntry(cost), logPriors[i], logps[i], ln(1.0 - p.alpha), ln(p.alpha)))
         == Viterbi(p, t + 1)[i]
  {
    hide LogLaws, Viterbi, MaxEntry, MinEntry, Problem.Valid, NextCost;
    StayRate(p);
    MinIsMax(exp, ln, cost, Viterbi(p, t));
    assert exp(logPriors[i]) == p.prior[i] && exp(logps[i]) == p.likelihoods[t][i];
    ViterbiEntryTracks(exp, ln, p, t, cost[i], MinEntry(cost), logPriors[i], logps[i],
                       NextCost(cost[i], MinEntry(cost), logPriors[i], logps[i], ln(1.0 - p.alpha), ln(p.alpha)), i);
  }

  lemma ViterbiStepTracks(exp: real -> real, ln: real -> real, p: Problem, t: nat, cost: seq<real>,
                          logPriors: seq<real>, logps: seq<real>, next: seq<real>)
    requires LogLaws(exp, ln) && p.Valid() && t < |p.likelihoods| && |p.prior| == |logPriors| == |logps| == |next|
    requires ViterbiTracks(exp, p, t, cost)
    requires p.prior == ExpsOf(exp, logPriors) && p.likelihoods[t] == ExpsOf(exp, logps)
    requires forall i :: 0 <= i < |cost| ==>
               next[i] == NextCost(cost[i], MinEntry(cost), logPriors[i], logps[i], ln(1.0 - p.alpha), ln(p.alpha))
    ensures ViterbiTracks(exp, p, t + 1, next)
  {
    hide LogLaws, Viterbi, MinEntry, Problem.Valid, NextCost, ExpsOf;
    StayRate(p);
    forall i | 0 <= i < |next| ensures exp(-next[i]) == Viterbi(p, t + 1)[i] {
      ViterbiCostTracks(exp, ln, p, t, cost, logPriors, logps, i);
    }
  }

  method Shift(xs: seq<real>, c: real) returns (r: seq<real>)
    ensures |r| == |xs| && forall i :: 0 <= i < |xs| ==> r[i] == xs[i] - c
  {
    r := [];
    for i := 0 to |xs|
      invariant |r| == i && forall j :: 0 <= j < i ==> r[j] == xs[j] - c
    {
      r := r + [xs[i] - c];
    }
  }

  method Negate(xs: seq<real>) returns (r: seq<real>)
    ensures |r| == |xs| && forall i :: 0 <= i < |xs| ==> r[i] == -xs[i]
  {
    r := [];
    for i := 0 to |xs|
      invariant |r| == i && forall j :: 0 <= j < i ==> r[j] == -xs[j]
    {
      r := r + [-xs[i]];
    }
  }

  /** Subtracting the log of the total turns log weights into a log distribution. */
  lemma NormalisedPriors(exp: real -> real, ln: real -> real, raw: seq<real>, norm: real, logPriors: seq<real>)
    requires LogLaws(exp, ln) && |logPriors| == |raw| && exp(norm) == Sum(ExpsOf(exp, raw))
    requires forall i :: 0 <= i < |raw| ==> logPriors[i] == raw[i] - norm
    ensures Sum(ExpsOf(exp, logPriors)) == 1.0
  {
    hide LogLaws, Sum, Scale;
    ExpPositive(exp, ln, norm);
    LogLawsExp(exp, ln);
    ShiftedSum(exp, raw, ExpsOf(exp, logPriors), norm);
    ScaledSum(exp(norm), ExpsOf(exp, logPriors));
    UnitFactor(exp(norm), Sum(ExpsOf(exp, logPriors)));
  }

  /** The priors with their total divided out, as logarithms. */
  function LogPriorsOf(exp: real -> real, ln: real -> real, raw: seq<real>): (r: seq<real>)
    ensures |r| == |raw|
  {
    seq(|raw|, i requires 0 <= i < |raw| => raw[i] - ln(Sum(ExpsOf(exp, raw))))
  }

  method NormalisePriors(exp: real -> real, ln: real -> real, raw: seq<real>) returns (logPriors: seq<real>)
    requires LogLaws(exp, ln) && raw != []
    ensures logPriors == LogPriorsOf(exp, ln, raw) && Sum(ExpsOf(exp, logPriors)) == 1.0
  {
    hide LogLaws, Sum, ExpsOf;
    var norm := LogSumExp(exp, ln, raw);
    logPriors := Shift(raw, norm);
    NormalisedPriors(exp, ln, raw, norm, logPriors);
    LnInverts(exp, ln, norm);
  }

  lemma UnitFactor(x: real, y: real)
    requires x > 0.0 && Times(x, y) == x
    ensures y == 1.0
  {
    assert x * (y - 1.0) == 0.0;
  }

  lemma ProblemIsValid(exp: real -> real, ln: real -> real, logPriors: seq<real>, alpha: real,
                       stepLogps: seq<seq<real>>)
    requires LogLaws(exp, ln) && |logPriors| > 0 && 0.0 < alpha < 1.0 && Sum(ExpsOf(exp, logPriors)) == 1.0
    requires forall t :: 0 <= t < |stepLogps| ==> |stepLogps[t]| == |logPriors|
    ensures ProblemOf(exp, logPriors, alpha, stepLogps).Valid()
    ensures forall t :: 0 <= t < |stepLogps| ==>
              ProblemOf(exp, logPriors, alpha, stepLogps).likelihoods[t] == ExpsOf(exp, stepLogps[t])
  {
    hide LogLaws, Sum;
    var p := ProblemOf(exp, logPriors, alpha, stepLogps);
    forall i | 0 <= i < |logPriors| ensures p.prior[i] > 0.0 {
      ExpPositive(exp, ln, logPriors[i]);
    }
    forall t, i | 0 <= t < |stepLogps| && 0 <= i < |logPriors| ensures p.likelihoods[t][i] > 0.0 {
      ExpPositive(exp, ln, stepLogps[t][i]);
    }
  }

  /** Before the first symbol both recursions hold the prior. */
  lemma InitiallyTracks(exp: real -> real, ln: real -> real, p: Problem, logPriors: seq<real>, cost: seq<real>)
    requires LogLaws(exp, ln) && p.Valid() && p.prior == ExpsOf(exp, logPriors) && |cost| == |logPriors|
    requires forall i :: 0 <= i < |cost| ==> cost[i] == -logPriors[i]
    ensures ForwardTracks(exp, p, 0, logPriors, 0.0) && ViterbiTracks(exp, p, 0, cost)
  {
    hide Sum, LogLaws;
    LogLawsExp(exp, ln);
    ExpZero(exp);
    forall i | 0 <= i < |cost| ensures exp(-cost[i]) == p.prior[i] == exp(logPriors[i] + 0.0) {
      assert -cost[i] == logPriors[i] + 0.0 == logPriors[i];
    }
  }

  lemma AddBits(total: real, x: real, ln2: real)
    requires ln2 > 0.0
    ensures -total / ln2 + -x / ln2 == -(total + x) / ln2
  {
  }

  /** The experiment's forward and Viterbi code lengths, in bits. */
  method CodeLengths(exp: real -> real, ln: real -> real, ln2: real, rawLogPriors: seq<real>, alpha: real,
                     stepLogps: seq<seq<real>>) returns (forwardBits: real, viterbiBits: real, logPriors: seq<real>)
    requires LogLaws(exp, ln) && ln2 > 0.0 && |rawLogPriors| > 0 && 0.0 < alpha < 1.0
    requires forall t :: 0 <= t < |stepLogps| ==> |stepLogps[t]| == |rawLogPriors|
    ensures logPriors == LogPriorsOf(exp, ln, rawLogPriors)
    ensures var p := ProblemOf(exp, logPriors, alpha, stepLogps);
            && p.Valid()
            && forwardBits == -ln(Sum(Forward(p, |stepLogps|))) / ln2
            && viterbiBits == -ln(MaxEntry(Viterbi(p, |stepLogps|))) / ln2
  {
    hide LogLaws, Sum, Forward, Viterbi, MaxEntry, MinEntry, ExpsOf, StepsTo, Problem.Valid, NextCost,
         ForwardTracks, ViterbiTracks, ProblemOf, LogPriorsOf;
    logPriors := NormalisePriors(exp, ln, rawLogPriors);
    ghost var p := ProblemOf(exp, logPriors, alpha, stepLogps);
    ProblemIsValid(exp, ln, logPriors, alpha, stepLogps);
    PriorOf(exp, logPriors, alpha, stepLogps);

    var logw := logPriors;
    var cost := Negate(logPriors);
    forwardBits := 0.0;
    ghost var acc := 0.0;
    var logSwitch, logStay := ln(alpha), ln(1.0 - alpha);
    InitiallyTracks(exp, ln, p, logPriors, cost);
    for t := 0 to |stepLogps|
      invariant |logw| == |cost| == |logPriors|
      invariant ForwardTracks(exp, p, t, logw, acc) && forwardBits == -acc / ln2
      invariant ViterbiTracks(exp, p, t, cost)
    {
      var next, logMix := ForwardStep(exp, ln, logw, logPriors, stepLogps[t], logStay, logSwitch);
      forwardBits := forwardBits + -logMix / ln2;
      AddBits(acc, logMix, ln2);
      var normalised := Shift(next, logMix);
      ForwardStepTracks(exp, ln, p, t, logw, acc, logPriors, stepLogps[t], next, logMix, normalised);
      logw, acc := normalised, acc + logMix;
      var nextCost := ViterbiStep(cost, logPriors, stepLogps[t], logStay, logSwitch);
      ViterbiStepTracks(exp, ln, p, t, cost, logPriors, stepLogps[t], nextCost);
      cost := nextCost;
    }
    var best := FindMin(cost);
    viterbiBits := best / ln2;
    FinalLengths(exp, ln, p, |stepLogps|, logw, acc, cost);
  }

  lemma PriorOf(exp: real -> real, logPriors: seq<real>, alpha: real, stepLogps: seq<seq<real>>)
    ensures ProblemOf(exp, logPriors, alpha, stepLogps).prior == ExpsOf(exp, logPriors)
  {
  }

  lemma FinalLengths(exp: real -> real, ln: real -> real, p: Problem, t: nat, logw: seq<real>, acc: real,
                     cost: seq<real>)
    requires LogLaws(exp, ln) && p.Valid() && t <= |p.likelihoods| && |cost| > 0
    requires ForwardTracks(exp, p, t, logw, acc) && ViterbiTracks(exp, p, t, cost)
    ensures acc == ln(Sum(Forward(p, t))) && MinEntry(cost) == -ln(MaxEntry(Viterbi(p, t)))
  {
    hide Sum, Forward, Viterbi, MaxEntry, MinEntry, Problem.Valid;
    MinIsMax(exp, ln, cost, Viterbi(p, t));
    assert ln(exp(acc)) == acc && ln(exp(-MinEntry(cost))) == -MinEntry(cost);
  }

  /** The forward code length never exceeds the Viterbi one, which never exceeds the code length of any
      fixed switching schedule: its prior, switching factors and expert likelihoods. */
  lemma ForwardCodeIsShortest(exp: real -> real, ln: real -> real, ln2: real, p: Problem, s: Schedule)
    requires LogLaws(exp, ln) && ln2 > 0.0 && p.Valid() && s.Valid(|p.prior|) && |s.choices| == |p.likelihoods|
    ensures var t := |p.likelihoods|;
            -ln(Sum(Forward(p, t))) / ln2 <= -ln(MaxEntry(Viterbi(p, t))) / ln2 <= -ln(Weight(p, s)) / ln2
  {
    hide Sum, Forward, Viterbi, MaxEntry, Weight, Problem.Valid;
    var t := |p.likelihoods|;
    WeightPositive(p, s);
    ForwardDominates(p, s);
    LnMonotone(exp, ln, MaxEntry(Viterbi(p, t)), Sum(Forward(p, t)));
    LnMonotone(exp, ln, Weight(p, s), MaxEntry(Viterbi(p, t)));
    hide LogLaws;
    DivideOrder(-ln(Sum(Forward(p, t))), -ln(MaxEntry(Viterbi(p, t))), ln2);
    DivideOrder(-ln(MaxEntry(Viterbi(p, t))), -ln(Weight(p, s)), ln2);
  }

  lemma DivideOrder(x: real, y: real, d: real)
    requires x <= y && d > 0.0
    ensures x / d <= y / d
  {
  }
}
