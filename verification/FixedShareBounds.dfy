/** What switching schedules weigh, written out factor by factor, and what that gives the forward
    code: its cost over the best single expert, and the distribution it tracks. */
module FixedShareBounds {
  import opened RealMath
  import opened LogMath
  import opened FixedShare
  import opened FixedShareLaws
  import opened FixedShareRun

  function Power(x: real, k: nat): (r: real)
  {
    if k == 0 then 1.0 else Times(Power(x, k - 1), x)
  }

  /** How often the tracked expert stays. */
  function Stays(choices: seq<Choice>): (n: nat)
    ensures n <= |choices|
  {
    if choices == [] then 0
    else Stays(choices[..|choices| - 1]) + if choices[|choices| - 1].Stay? then 1 else 0
  }

  /** The product of the priors of the experts that are switched to. */
  function Drawn(prior: seq<real>, choices: seq<Choice>): real
    requires forall c <- choices :: c.Switch? ==> c.expert < |prior|
  {
    if choices == [] then 1.0
    else
      var c := choices[|choices| - 1];
      Times(Drawn(prior, choices[..|choices| - 1]), if c.Switch? then prior[c.expert] else 1.0)
  }

  /** The product, over the symbols, of the likelihood that the expert in charge gives. */
  function Fit(p: Problem, s: Schedule): real
    requires p.Valid() && s.Valid(|p.prior|) && |s.choices| <= |p.likelihoods|
    decreases |s.choices|
  {
    if s.choices == [] then 1.0
    else
      ExpertInRange(s, |p.prior|);
      BeforeIsValid(s, |p.prior|);
      Times(Fit(p, s.Before()), p.likelihoods[|s.choices| - 1][s.Expert()])
  }

  /** Prior of the first expert, staying and switching rates, priors of the experts switched to, likelihoods. */
  function Factors(first: real, stay: real, switches: real, drawn: real, fit: real): real
  {
    Times(Times(Times(Times(first, stay), switches), drawn), fit)
  }

  lemma StayFactor(first: real, stay: real, switches: real, drawn: real, fit: real, x: real, l: real)
    ensures Times(Times(Factors(first, stay, switches, drawn, fit), x), l)
         == Factors(first, Times(stay, x), switches, drawn, Times(fit, l))
  {
    var rest := first * switches * drawn;
    assert Factors(first, stay, switches, drawn, fit) == rest * (stay * fit);
    assert Factors(first, stay * x, switches, drawn, fit * l) == rest * (stay * x * (fit * l));
    assert rest * (stay * fit) * x * l == rest * (stay * x * (fit * l));
  }

  lemma SwitchFactor(first: real, stay: real, switches: real, drawn: real, fit: real, a: real, q: real, rate: real,
                     l: real)
    requires rate == a * q
    ensures Times(Times(Factors(first, stay, switches, drawn, fit), rate), l)
         == Factors(first, stay, Times(switches, a), Times(drawn, q), Times(fit, l))
  {
    var rest := first * stay;
    assert Factors(first, stay, switches, drawn, fit) == rest * (switches * drawn * fit);
    assert Factors(first, stay, switches * a, drawn * q, fit * l) == rest * (switches * a * (drawn * q) * (fit * l));
    assert switches * drawn * fit * (a * q) * l == switches * a * (drawn * q) * (fit * l);
  }

  lemma ValidChoices(s: Schedule, n: nat)
    requires s.Valid(n)
    ensures s.first < n && forall c <- s.choices :: c.Switch? ==> c.expert < n
  {
  }

  /** The same with the rates written as powers. */
  function Rated(p: Problem, first: real, stays: nat, switches: nat, drawn: real, fit: real): real
  {
    Factors(first, Power(1.0 - p.alpha, stays), Power(p.alpha, switches), drawn, fit)
  }

  /** The weight of a schedule, factor by factor. */
  function WrittenOut(p: Problem, s: Schedule): real
    requires p.Valid() && s.Valid(|p.prior|) && |s.choices| <= |p.likelihoods|
  {
    ValidChoices(s, |p.prior|);
    Rated(p, p.prior[s.first], Stays(s.choices), |s.choices| - Stays(s.choices), Drawn(p.prior, s.choices), Fit(p, s))
  }

  lemma TimesOne(x: real)
    ensures Times(x, 1.0) == x
  {
  }

  lemma FitStep(p: Problem, s: Schedule)
    requires p.Valid() && s.Valid(|p.prior|) && 0 < |s.choices| <= |p.likelihoods|
    ensures s.Before().Valid(|p.prior|) && s.Expert() < |p.prior|
    ensures Fit(p, s) == Times(Fit(p, s.Before()), p.likelihoods[|s.choices| - 1][s.Expert()])
  {
    hide Times, Schedule.Expert;
    ExpertInRange(s, |p.prior|);
    BeforeIsValid(s, |p.prior|);
  }

  lemma StayStep(prior: seq<real>, choices: seq<Choice>, n: nat)
    requires (forall c <- choices :: c.Switch? ==> c.expert < |prior|) && |choices| == n + 1 && choices[n].Stay?
    ensures Stays(choices) == Stays(choices[..n]) + 1 && Drawn(prior, choices) == Drawn(prior, choices[..n])
  {
    TimesOne(Drawn(prior, choices[..n]));
  }

  lemma SwitchStep(prior: seq<real>, choices: seq<Choice>, n: nat)
    requires (forall c <- choices :: c.Switch? ==> c.expert < |prior|) && |choices| == n + 1 && choices[n].Switch?
    ensures choices[n].expert < |prior|
    ensures Stays(choices) == Stays(choices[..n])
    ensures Drawn(prior, choices) == Times(Drawn(prior, choices[..n]), prior[choices[n].expert])
  {
    hide Times;
  }

  lemma PowerStep(x: real, k: nat)
    ensures Power(x, k + 1) == Times(Power(x, k), x)
  {
  }

  lemma RatedStay(p: Problem, first: real, stays: nat, switches: nat, drawn: real, fit: real, l: real)
    ensures Rated(p, first, stays + 1, switches, drawn, Times(fit, l))
         == Times(Times(Rated(p, first, stays, switches, drawn, fit), 1.0 - p.alpha), l)
  {
    hide Times, Factors, Power;
    PowerStep(1.0 - p.alpha, stays);
    StayFactor(first, Power(1.0 - p.alpha, stays), Power(p.alpha, switches), drawn, fit, 1.0 - p.alpha, l);
  }

  lemma RatedSwitch(p: Problem, first: real, stays: nat, switches: nat, drawn: real, fit: real, q: real, rate: real,
                    l: real)
    requires rate == p.alpha * q
    ensures Rated(p, first, stays, switches + 1, Times(drawn, q), Times(fit, l))
         == Times(Times(Rated(p, first, stays, switches, drawn, fit), rate), l)
  {
    hide Times, Factors, Power;
    PowerStep(p.alpha, switches);
    SwitchFactor(first, Power(1.0 - p.alpha, stays), Power(p.alpha, switches), drawn, fit, p.alpha, q, rate, l);
  }

  lemma WrittenOutStay(p: Problem, s: Schedule, l: real)
    requires p.Valid() && s.Valid(|p.prior|) && 0 < |s.choices| <= |p.likelihoods| && s.Before().Valid(|p.prior|)
    requires s.Last().Stay? && Fit(p, s) == Times(Fit(p, s.Before()), l)
    ensures WrittenOut(p, s) == Times(Times(WrittenOut(p, s.Before()), 1.0 - p.alpha), l)
  {
    hide Times, Rated, Problem.Valid, Fit, Drawn, Stays, Schedule.Valid;
    ValidChoices(s, |p.prior|);
    ValidChoices(s.Before(), |p.prior|);
    var b, n := s.Before(), |s.choices| - 1;
    StayStep(p.prior, s.choices, n);
    RatedStay(p, p.prior[s.first], Stays(b.choices), n - Stays(b.choices), Drawn(p.prior, b.choices), Fit(p, b), l);
  }

  lemma WrittenOutSwitch(p: Problem, s: Schedule, l: real)
    requires p.Valid() && s.Valid(|p.prior|) && 0 < |s.choices| <= |p.likelihoods| && s.Before().Valid(|p.prior|)
    requires s.Last().Switch? && s.Last().expert < |p.prior| && Fit(p, s) == Times(Fit(p, s.Before()), l)
    ensures WrittenOut(p, s) == Times(Times(WrittenOut(p, s.Before()), SwitchRate(p, s.Last().expert)), l)
  {
    hide Times, Rated, Problem.Valid, Fit, Drawn, Stays, Schedule.Valid;
    ValidChoices(s, |p.prior|);
    ValidChoices(s.Before(), |p.prior|);
    var b, n := s.Before(), |s.choices| - 1;
    SwitchStep(p.prior, s.choices, n);
    RatedSwitch(p, p.prior[s.first], Stays(b.choices), n - Stays(b.choices), Drawn(p.prior, b.choices), Fit(p, b),
                p.prior[s.Last().expert], SwitchRate(p, s.Last().expert), l);
  }

  lemma WrittenOutStep(p: Problem, s: Schedule)
    requires p.Valid() && s.Valid(|p.prior|) && 0 < |s.choices| <= |p.likelihoods| && s.Before().Valid(|p.prior|)
    requires s.Expert() < |p.prior|
    ensures s.Last().Switch? ==> s.Last().expert < |p.prior|
    ensures WrittenOut(p, s)
         == Times(Times(WrittenOut(p, s.Before()), Move(p, s.Last())), p.likelihoods[|s.choices| - 1][s.Expert()])
  {
    hide Times, WrittenOut, Fit, Schedule.Expert, Schedule.Valid, SwitchRate;
    FitStep(p, s);
    BeforeIsValid(s, |p.prior|);
    var l := p.likelihoods[|s.choices| - 1][s.Expert()];
    match s.Last()
    case Stay => WrittenOutStay(p, s, l);
    case Switch(j) => WrittenOutSwitch(p, s, l);
  }

  lemma FirstWrittenOut(p: Problem, s: Schedule)
    requires p.Valid() && s.Valid(|p.prior|) && s.choices == []
    ensures WrittenOut(p, s) == Weight(p, s)
  {
    TimesOne(p.prior[s.first]);
    assert Rated(p, p.prior[s.first], 0, 0, 1.0, 1.0) == p.prior[s.first];
  }

  lemma WeightUnrolls(p: Problem, s: Schedule)
    requires p.Valid() && s.Valid(|p.prior|) && 0 < |s.choices| <= |p.likelihoods|
    ensures s.Before().Valid(|p.prior|) && s.Expert() < |p.prior|
    ensures s.Last().Switch? ==> s.Last().expert < |p.prior|
    ensures Weight(p, s)
         == Times(Times(Weight(p, s.Before()), Move(p, s.Last())), p.likelihoods[|s.choices| - 1][s.Expert()])
  {
    BeforeIsValid(s, |p.prior|);
    ExpertInRange(s, |p.prior|);
  }

  /** A schedule weighs the first expert's prior, times the staying rate for every stay, times the switching rate and
      the new expert's prior for every switch, times the likelihoods of the experts in charge. */
  lemma {:induction false} WeightIsWrittenOut(p: Problem, s: Schedule)
    requires p.Valid() && s.Valid(|p.prior|) && |s.choices| <= |p.likelihoods|
    ensures Weight(p, s) == WrittenOut(p, s)
    decreases |s.choices|
  {
    hide Weight, WrittenOut, Problem.Valid, Schedule.Valid, Schedule.Expert, Move, Times;
    if s.choices == [] {
      FirstWrittenOut(p, s);
    } else {
      WeightUnrolls(p, s);
      WeightIsWrittenOut(p, s.Before());
      WrittenOutStep(p, s);
    }
  }

  // ---------- One expert throughout ----------

  function Staying(i: nat, t: nat): Schedule
  {
    Schedule(i, seq(t, _ => Stay))
  }

  /** The likelihood that expert `i` gives the first `t` symbols. */
  function Likelihood(p: Problem, i: nat, t: nat): (r: real)
    requires p.Valid() && i < |p.prior| && t <= |p.likelihoods|
    ensures r > 0.0
  {
    if t == 0 then 1.0
    else
      PositiveProduct(Likelihood(p, i, t - 1), p.likelihoods[t - 1][i]);
      Times(Likelihood(p, i, t - 1), p.likelihoods[t - 1][i])
  }

  lemma {:induction false} StayingParts(p: Problem, i: nat, t: nat)
    requires p.Valid() && i < |p.prior| && t <= |p.likelihoods|
    ensures var s := Staying(i, t);
            && s.Valid(|p.prior|) && s.Expert() == i && Stays(s.choices) == t
            && Drawn(p.prior, s.choices) == 1.0 && Fit(p, s) == Likelihood(p, i, t)
  {
    if t > 0 {
      StayingParts(p, i, t - 1);
      assert Staying(i, t).choices[..t - 1] == Staying(i, t - 1).choices;
      assert Staying(i, t).Before() == Staying(i, t - 1);
      TimesOne(Drawn(p.prior, Staying(i, t - 1).choices));
    }
  }

  lemma StayingFactors(p: Problem, first: real, t: nat, fit: real)
    ensures Rated(p, first, t, 0, 1.0, fit) == Times(Times(first, Power(1.0 - p.alpha, t)), fit)
  {
  }

  /** The forward mass is at least what any single expert earns: its prior, times the staying rate for every symbol,
      times its likelihood of the data. */
  lemma ForwardTracksExpert(p: Problem, i: nat, t: nat)
    requires p.Valid() && i < |p.prior| && t <= |p.likelihoods|
    ensures Times(Times(p.prior[i], Power(1.0 - p.alpha, t)), Likelihood(p, i, t)) <= MaxEntry(Viterbi(p, t))
    ensures MaxEntry(Viterbi(p, t)) <= Sum(Forward(p, t))
  {
    hide Sum, Forward, Viterbi, MaxEntry, Weight, Problem.Valid, Times, Rated, Likelihood, Fit, Drawn, Power;
    StayingParts(p, i, t);
    WeightIsWrittenOut(p, Staying(i, t));
    StayingFactors(p, p.prior[i], t, Likelihood(p, i, t));
    ForwardDominates(p, Staying(i, t));
  }

  lemma LnProduct(exp: real -> real, ln: real -> real, x: real, y: real)
    requires LogLaws(exp, ln) && x > 0.0 && y > 0.0
    ensures Times(x, y) > 0.0 && ln(Times(x, y)) == ln(x) + ln(y)
  {
    PositiveProduct(x, y);
    ExpLn(exp, ln, ln(x), y);
    ExpInverts(exp, ln, x);
    LnInverts(exp, ln, ln(x) + ln(y));
  }

  lemma OneMoreTime(k: nat, x: real)
    requires k > 0
    ensures k as real * x == (k - 1) as real * x + x
  {
  }

  lemma LnOne(exp: real -> real, ln: real -> real)
    requires LogLaws(exp, ln)
    ensures ln(1.0) == 0.0
  {
    ExpZero(exp);
  }

  lemma {:induction false} LnPower(exp: real -> real, ln: real -> real, x: real, k: nat)
    requires LogLaws(exp, ln) && x > 0.0
    ensures Power(x, k) > 0.0 && ln(Power(x, k)) == k as real * ln(x)
  {
    hide LogLaws, Times;
    if k == 0 {
      LnOne(exp, ln);
    } else {
      LnPower(exp, ln, x, k - 1);
      LnProduct(exp, ln, Power(x, k - 1), x);
      OneMoreTime(k, ln(x));
    }
  }

  lemma ProblemRanges(p: Problem, i: nat)
    requires p.Valid() && i < |p.prior|
    ensures p.prior[i] > 0.0 && 0.0 < 1.0 - p.alpha
  {
  }

  /** The forward code is longer than a single expert's by at most the code of its prior and, per symbol, that of
      staying. */
  lemma RegretBound(exp: real -> real, ln: real -> real, p: Problem, i: nat, t: nat)
    requires LogLaws(exp, ln) && p.Valid() && i < |p.prior| && t <= |p.likelihoods|
    ensures -ln(Sum(Forward(p, t))) <= -ln(Likelihood(p, i, t)) - ln(p.prior[i]) - t as real * ln(1.0 - p.alpha)
  {
    hide LogLaws, Sum, Forward, Viterbi, MaxEntry, Problem.Valid, Times, Likelihood, Power;
    ProblemRanges(p, i);
    ForwardTracksExpert(p, i, t);
    LnPower(exp, ln, 1.0 - p.alpha, t);
    LnProduct(exp, ln, p.prior[i], Power(1.0 - p.alpha, t));
    LnProduct(exp, ln, Times(p.prior[i], Power(1.0 - p.alpha, t)), Likelihood(p, i, t));
    LnMonotone(exp, ln, Times(Times(p.prior[i], Power(1.0 - p.alpha, t)), Likelihood(p, i, t)), Sum(Forward(p, t)));
  }

  // ---------- Without evidence ----------

  lemma StationaryEntry(alpha: real, prior: real, rate: real)
    requires rate == alpha * prior
    ensures Times(Times(1.0 - alpha, prior) + Times(rate, 1.0), 1.0) == prior
  {
  }

  lemma NextEntry(p: Problem, t: nat, i: nat)
    requires p.Valid() && t < |p.likelihoods| && i < |p.prior|
    ensures Forward(p, t + 1)[i] == ForwardEntry(p, t, Forward(p, t)[i], Sum(Forward(p, t)), i)
  {
    hide Sum, ForwardEntry;
  }

  lemma PriorTotal(p: Problem)
    requires p.Valid()
    ensures Sum(p.prior) == 1.0
  {
  }

  lemma EvenEntry(p: Problem, t: nat, i: nat)
    requires p.Valid() && t < |p.likelihoods| && i < |p.prior| && p.likelihoods[t][i] == 1.0
    ensures ForwardEntry(p, t, p.prior[i], 1.0, i) == p.prior[i]
  {
    hide Times, Sum;
    StationaryEntry(p.alpha, p.prior[i], SwitchRate(p, i));
  }

  lemma NoEvidenceYet(p: Problem)
    requires p.Valid()
    ensures Forward(p, 0) == p.prior
  {
  }

  /** While no symbol tells the experts apart, the tracked expert keeps the prior distribution: switching redraws it. */
  lemma {:induction false} PriorIsStationary(p: Problem, t: nat)
    requires p.Valid() && t <= |p.likelihoods|
    requires forall u, i :: 0 <= u < t && 0 <= i < |p.prior| ==> p.likelihoods[u][i] == 1.0
    ensures Forward(p, t) == p.prior
  {
    hide Forward, ForwardEntry, Sum;
    if t == 0 {
      NoEvidenceYet(p);
    } else {
      PriorIsStationary(p, t - 1);
      PriorTotal(p);
      forall i | 0 <= i < |p.prior| ensures Forward(p, t)[i] == p.prior[i] {
        NextEntry(p, t - 1, i);
        EvenEntry(p, t - 1, i);
      }
    }
  }
}
