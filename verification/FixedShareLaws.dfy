/** The dynamic programs compute what they stand for: the forward recursion sums, and the Viterbi
    recursion maximises, over every switching schedule. */
module FixedShareLaws {
  import opened RealMath
  import opened FixedShare

  /** Valid schedules over `t` symbols. */
  predicate OfLength(p: Problem, list: seq<Schedule>, t: nat)
  {
    t <= |p.likelihoods| && forall i :: 0 <= i < |list| ==> list[i].Valid(|p.prior|) && |list[i].choices| == t
  }

  lemma ThenIsValid(p: Problem, s: Schedule, c: Choice)
    requires s.Valid(|p.prior|) && (c.Switch? ==> c.expert < |p.prior|)
    ensures s.Then(c).Valid(|p.prior|)
    ensures s.Then(c).Expert() == match c case Stay => s.Expert() case Switch(j) => j
  {
    IsThen(s.Then(c), s, c);
  }

  lemma WeightThen(p: Problem, s: Schedule, c: Choice)
    requires p.Valid() && s.Valid(|p.prior|) && (c.Switch? ==> c.expert < |p.prior|)
    requires |s.choices| < |p.likelihoods|
    ensures s.Then(c).Valid(|p.prior|) && s.Then(c).Expert() < |p.prior|
    ensures Weight(p, s.Then(c))
         == Times(Times(Weight(p, s), Move(p, c)), p.likelihoods[|s.choices|][s.Then(c).Expert()])
  {
    ThenIsValid(p, s, c);
    IsThen(s.Then(c), s, c);
    ExpertInRange(s.Then(c), |p.prior|);
  }

  // ---------- Extending one schedule ----------

  /** What switching to `j` contributes. */
  function SwitchTerm(p: Problem, t: nat, w: real, j: nat): real
    requires p.Valid() && t < |p.likelihoods| && j < |p.prior|
  {
    Times(Times(w, Move(p, Switch(j))), p.likelihoods[t][j])
  }

  /** A schedule's own weight if it ends with `j`, otherwise 0. */
  function Own(p: Problem, s: Schedule, j: nat): real
    requires p.Valid() && s.Valid(|p.prior|) && |s.choices| <= |p.likelihoods|
  {
    if s.Expert() == j then Weight(p, s) else 0.0
  }

  lemma SwitchWeight(p: Problem, s: Schedule, i: nat, j: nat)
    requires p.Valid() && s.Valid(|p.prior|) && |s.choices| < |p.likelihoods| && i < |p.prior|
    ensures var next := s.Then(Switch(i));
            && next.Valid(|p.prior|) && |next.choices| == |s.choices| + 1
            && Own(p, next, j) == if i == j then SwitchTerm(p, |s.choices|, Weight(p, s), i) else 0.0
    ensures SwitchTerm(p, |s.choices|, Weight(p, s), i) > 0.0
  {
    WeightThen(p, s, Switch(i));
    ThenIsValid(p, s, Switch(i));
    WeightPositive(p, s.Then(Switch(i)));
  }

  lemma MassAppend(p: Problem, list: seq<Schedule>, t: nat, s: Schedule, j: nat)
    requires p.Valid() && OfLength(p, list, t) && s.Valid(|p.prior|) && |s.choices| == t
    ensures OfLength(p, list + [s], t)
    ensures Mass(p, list + [s], j) == Mass(p, list, j) + Own(p, s, j)
    ensures Best(p, list + [s], j) == Max(Best(p, list, j), Own(p, s, j))
    ensures TotalMass(p, list + [s]) == TotalMass(p, list) + Weight(p, s)
    ensures BestOf(p, list + [s]) == Max(BestOf(p, list), Weight(p, s))
  {
    assert (list + [s])[..|list|] == list;
  }

  /** `list` holds, with the weight one switch gives it, exactly one schedule ending with `j` if `j < m`. */
  predicate SwitchFacts(p: Problem, list: seq<Schedule>, s: Schedule, m: nat, j: nat)
    requires p.Valid() && s.Valid(|p.prior|) && |s.choices| < |p.likelihoods| && j < |p.prior|
  {
    && OfLength(p, list, |s.choices| + 1)
    && Mass(p, list, j) == Best(p, list, j) == if j < m then SwitchTerm(p, |s.choices|, Weight(p, s), j) else 0.0
  }

  lemma SwitchesStep(p: Problem, front: seq<Schedule>, s: Schedule, i: nat, j: nat)
    requires p.Valid() && s.Valid(|p.prior|) && |s.choices| < |p.likelihoods| && i < |p.prior| && j < |p.prior|
    requires SwitchFacts(p, front, s, i, j)
    ensures SwitchFacts(p, front + [s.Then(Switch(i))], s, i + 1, j)
  {
    SwitchWeight(p, s, i, j);
    if j < i { SwitchWeight(p, s, j, j); }
    hide Weight, SwitchTerm, Own, Mass, Best, TotalMass, BestOf, Schedule.Then, Schedule.Valid, Problem.Valid;
    MassAppend(p, front, |s.choices| + 1, s.Then(Switch(i)), j);
  }

  lemma NoSwitches(p: Problem, s: Schedule, j: nat)
    requires p.Valid() && s.Valid(|p.prior|) && |s.choices| < |p.likelihoods| && j < |p.prior|
    ensures SwitchFacts(p, Switches(s, 0), s, 0, j)
  {
  }

  lemma {:induction false} SwitchesMass(p: Problem, s: Schedule, m: nat, j: nat)
    requires p.Valid() && s.Valid(|p.prior|) && |s.choices| < |p.likelihoods| && m <= |p.prior| && j < |p.prior|
    ensures SwitchFacts(p, Switches(s, m), s, m, j)
  {
    hide SwitchFacts, Problem.Valid, Schedule.Valid;
    if m == 0 {
      NoSwitches(p, s, j);
    } else {
      SwitchesMass(p, s, m - 1, j);
      SwitchesStep(p, Switches(s, m - 1), s, m - 1, j);
    }
  }

  /** What staying with the expert in charge contributes. */
  function StayTerm(p: Problem, t: nat, own: real, j: nat): real
    requires p.Valid() && t < |p.likelihoods| && j < |p.prior|
  {
    Times(Times(own, Move(p, Stay)), p.likelihoods[t][j])
  }

  lemma Entries(p: Problem, t: nat, w: real, own: real, j: nat)
    requires p.Valid() && t < |p.likelihoods| && j < |p.prior| && w >= 0.0 && own >= 0.0
    ensures ForwardEntry(p, t, own, w, j) == StayTerm(p, t, own, j) + SwitchTerm(p, t, w, j)
    ensures ViterbiEntry(p, t, own, w, j) == Max(StayTerm(p, t, own, j), SwitchTerm(p, t, w, j))
    ensures SwitchTerm(p, t, w, j) >= 0.0 && StayTerm(p, t, own, j) >= 0.0
  {
    MovePositive(p, Switch(j));
    hide Times, SwitchRate;
    TwoTerms(own, w, 1.0 - p.alpha, SwitchRate(p, j), p.likelihoods[t][j]);
  }

  lemma TwoTerms(own: real, w: real, a: real, q: real, l: real)
    requires l > 0.0 && w >= 0.0 && own >= 0.0 && a > 0.0 && q > 0.0
    ensures Times(Times(a, own) + Times(q, w), l) == Times(Times(own, a), l) + Times(Times(w, q), l)
    ensures Times(Max(Times(a, own), Times(q, w)), l) == Max(Times(Times(own, a), l), Times(Times(w, q), l))
    ensures Times(Times(own, a), l) >= 0.0 && Times(Times(w, q), l) >= 0.0
  {
    var x, y := a * own, q * w;
    assert x >= 0.0 && y >= 0.0;
    ScaleOrder(x, y, l);
    ScaleOrder(0.0, x, l);
    ScaleOrder(0.0, y, l);
  }

  lemma ScaleOrder(x: real, y: real, l: real)
    requires l > 0.0
    ensures x <= y ==> x * l <= y * l
    ensures x >= y ==> x * l >= y * l
  {
  }

  /** Extending one schedule in every way redistributes its weight as one step of each recursion. */
  lemma ExtensionsMass(p: Problem, s: Schedule, j: nat)
    requires p.Valid() && s.Valid(|p.prior|) && |s.choices| < |p.likelihoods| && j < |p.prior|
    ensures var list, t, w := Extensions(s, |p.prior|), |s.choices|, Weight(p, s);
            && OfLength(p, list, t + 1)
            && Mass(p, list, j) == ForwardEntry(p, t, Own(p, s, j), w, j)
            && Best(p, list, j) == ViterbiEntry(p, t, Own(p, s, j), w, j)
  {
    var n, t, w := |p.prior|, |s.choices|, Weight(p, s);
    WeightPositive(p, s);
    Entries(p, t, w, Own(p, s, j), j);
    StayMass(p, s, j);
    SwitchesMass(p, s, n, j);
    hide Mass, Best, Weight, ForwardEntry, ViterbiEntry, SwitchTerm, StayTerm, Own, Schedule.Valid, Problem.Valid;
    MassConcat(p, [s.Then(Stay)], Switches(s, n), j);
  }

  lemma StayMass(p: Problem, s: Schedule, j: nat)
    requires p.Valid() && s.Valid(|p.prior|) && |s.choices| < |p.likelihoods| && j < |p.prior|
    ensures var list := [s.Then(Stay)];
            && OfLength(p, list, |s.choices| + 1)
            && Mass(p, list, j) == StayTerm(p, |s.choices|, Own(p, s, j), j)
            && Best(p, list, j) == StayTerm(p, |s.choices|, Own(p, s, j), j)
  {
    WeightThen(p, s, Stay);
    ThenIsValid(p, s, Stay);
    WeightPositive(p, s.Then(Stay));
    SingletonMass(p, s.Then(Stay), j);
    assert s.Expert() != j ==> Own(p, s, j) == 0.0 && StayTerm(p, |s.choices|, 0.0, j) == 0.0;
    hide Mass, Best, Times;
  }

  lemma SingletonMass(p: Problem, s: Schedule, j: nat)
    requires p.Valid() && s.Valid(|p.prior|) && |s.choices| <= |p.likelihoods|
    ensures Mass(p, [s], j) == Best(p, [s], j) == Own(p, s, j)
  {
    WeightPositive(p, s);
    assert [s][..0] == [];
  }

  // ---------- Extending a list ----------

  lemma EntriesAdd(p: Problem, t: nat, a: real, b: real, c: real, d: real, j: nat)
    requires p.Valid() && t < |p.likelihoods| && j < |p.prior|
    ensures ForwardEntry(p, t, a + c, b + d, j) == ForwardEntry(p, t, a, b, j) + ForwardEntry(p, t, c, d, j)
  {
    hide Times, SwitchRate;
    AddProducts(1.0 - p.alpha, SwitchRate(p, j), p.likelihoods[t][j], a, b, c, d);
  }

  lemma AddProducts(u: real, v: real, l: real, a: real, b: real, c: real, d: real)
    ensures Times(Times(u, a + c) + Times(v, b + d), l)
         == Times(Times(u, a) + Times(v, b), l) + Times(Times(u, c) + Times(v, d), l)
  {
    assert u * (a + c) == u * a + u * c && v * (b + d) == v * b + v * d;
  }

  lemma MaxProducts(u: real, v: real, l: real, a: real, b: real, c: real, d: real)
    requires u > 0.0 && v > 0.0 && l > 0.0
    ensures Times(Max(Times(u, Max(a, c)), Times(v, Max(b, d))), l)
         == Max(Times(Max(Times(u, a), Times(v, b)), l), Times(Max(Times(u, c), Times(v, d)), l))
  {
    MaxScaled(u, a, c);
    MaxScaled(v, b, d);
    hide Times;
    MaxScaled(l, Max(Times(u, a), Times(v, b)), Max(Times(u, c), Times(v, d)));
  }

  lemma MaxScaled(u: real, a: real, c: real)
    requires u > 0.0
    ensures Times(u, Max(a, c)) == Max(Times(u, a), Times(u, c))
    ensures Times(Max(a, c), u) == Max(Times(a, u), Times(c, u))
  {
    ScaleOrder(a, c, u);
  }

  lemma EntriesMax(p: Problem, t: nat, a: real, b: real, c: real, d: real, j: nat)
    requires p.Valid() && t < |p.likelihoods| && j < |p.prior|
    ensures ViterbiEntry(p, t, Max(a, c), Max(b, d), j) == Max(ViterbiEntry(p, t, a, b, j), ViterbiEntry(p, t, c, d, j))
  {
    hide Times, Max, SwitchRate;
    MaxProducts(1.0 - p.alpha, SwitchRate(p, j), p.likelihoods[t][j], a, b, c, d);
  }

  lemma EmptyEntries(p: Problem, t: nat, j: nat)
    requires p.Valid() && t < |p.likelihoods| && j < |p.prior|
    ensures ForwardEntry(p, t, 0.0, 0.0, j) == 0.0 == ViterbiEntry(p, t, 0.0, 0.0, j)
  {
    assert Times(1.0 - p.alpha, 0.0) == 0.0 && Times(SwitchRate(p, j), 0.0) == 0.0;
  }

  lemma ConcatOfLength(p: Problem, a: seq<Schedule>, b: seq<Schedule>, t: nat)
    requires OfLength(p, a, t) && OfLength(p, b, t)
    ensures OfLength(p, a + b, t) && Weighable(p, a) && Weighable(p, b)
  {
  }

  lemma ExtendOneMore(p: Problem, front: seq<Schedule>, last: Schedule, longer: seq<Schedule>, t: nat, j: nat)
    requires p.Valid() && OfLength(p, front, t) && t < |p.likelihoods| && j < |p.prior|
    requires last.Valid(|p.prior|) && |last.choices| == t && OfLength(p, longer, t + 1)
    requires Mass(p, longer, j) == ForwardEntry(p, t, Mass(p, front, j), TotalMass(p, front), j)
    requires Best(p, longer, j) == ViterbiEntry(p, t, Best(p, front, j), BestOf(p, front), j)
    ensures var list, all := front + [last], longer + Extensions(last, |p.prior|);
            && OfLength(p, list, t) && OfLength(p, all, t + 1)
            && Mass(p, all, j) == ForwardEntry(p, t, Mass(p, list, j), TotalMass(p, list), j)
            && Best(p, all, j) == ViterbiEntry(p, t, Best(p, list, j), BestOf(p, list), j)
  {
    hide Mass, Best, TotalMass, BestOf, ForwardEntry, ViterbiEntry, Weight, Own, Extensions, Max,
         Schedule.Valid, Problem.Valid;
    MassAppend(p, front, t, last, j);
    ExtensionsMass(p, last, j);
    ConcatOfLength(p, longer, Extensions(last, |p.prior|), t + 1);
    EntriesAdd(p, t, Mass(p, front, j), TotalMass(p, front), Own(p, last, j), Weight(p, last), j);
    EntriesMax(p, t, Best(p, front, j), BestOf(p, front), Own(p, last, j), Weight(p, last), j);
    hide OfLength, Weighable;
    MassConcat(p, longer, Extensions(last, |p.prior|), j);
  }

  /** One step of each recursion is what extending every schedule of a list does. */
  lemma {:induction false} ExtendAllMass(p: Problem, list: seq<Schedule>, t: nat, j: nat)
    requires p.Valid() && OfLength(p, list, t) && t < |p.likelihoods| && j < |p.prior|
    ensures var longer := ExtendAll(list, |p.prior|);
            && OfLength(p, longer, t + 1)
            && Mass(p, longer, j) == ForwardEntry(p, t, Mass(p, list, j), TotalMass(p, list), j)
            && Best(p, longer, j) == ViterbiEntry(p, t, Best(p, list, j), BestOf(p, list), j)
  {
    if list == [] {
      EmptyEntries(p, t, j);
    } else {
      var front, last := list[..|list| - 1], list[|list| - 1];
      ExtendAllMass(p, front, t, j);
      assert list == front + [last];
      hide Mass, Best, TotalMass, BestOf, ForwardEntry, ViterbiEntry, Extensions, Schedule.Valid, Problem.Valid;
      ExtendOneMore(p, front, last, ExtendAll(front, |p.prior|), t, j);
    }
  }

  // ---------- From lists to vectors ----------

  /** The listed mass per final expert. */
  function Masses(p: Problem, list: seq<Schedule>): (r: seq<real>)
    requires p.Valid() && Weighable(p, list)
    ensures |r| == |p.prior| && forall j :: 0 <= j < |r| ==> r[j] == Mass(p, list, j)
  {
    seq(|p.prior|, j requires 0 <= j < |p.prior| => Mass(p, list, j))
  }

  function Bests(p: Problem, list: seq<Schedule>): (r: seq<real>)
    requires p.Valid() && Weighable(p, list)
    ensures |r| == |p.prior| && forall j :: 0 <= j < |r| ==> r[j] == Best(p, list, j)
  {
    seq(|p.prior|, j requires 0 <= j < |p.prior| => Best(p, list, j))
  }

  lemma {:induction false} SumBump(a: seq<real>, b: seq<real>, k: nat, w: real)
    requires |a| == |b| && k < |a| && b[k] == a[k] + w
    requires forall i :: 0 <= i < |a| && i != k ==> b[i] == a[i]
    ensures Sum(b) == Sum(a) + w
  {
    var n := |a| - 1;
    if k == n {
      assert b[..n] == a[..n];
    } else {
      SumBump(a[..n], b[..n], k, w);
    }
  }

  lemma {:induction false} MaxBump(a: seq<real>, b: seq<real>, k: nat, w: real)
    requires |a| == |b| && k < |a| && b[k] == Max(a[k], w)
    requires forall i :: 0 <= i < |a| && i != k ==> b[i] == a[i]
    ensures MaxEntry(b) == Max(MaxEntry(a), w)
  {
    var n := |a| - 1;
    if n > 0 {
      if k == n {
        assert b[..n] == a[..n];
      } else {
        MaxBump(a[..n], b[..n], k, w);
      }
    }
  }

  lemma {:induction false} MaxOfZeros(s: seq<real>)
    requires s != [] && forall i :: 0 <= i < |s| ==> s[i] == 0.0
    ensures MaxEntry(s) == 0.0
  {
    if |s| > 1 { MaxOfZeros(s[..|s| - 1]); }
  }

  /** Every listed schedule ends with exactly one expert. */
  lemma {:induction false} TotalIsSum(p: Problem, list: seq<Schedule>, t: nat)
    requires p.Valid() && OfLength(p, list, t)
    ensures TotalMass(p, list) == Sum(Masses(p, list)) && BestOf(p, list) == MaxEntry(Bests(p, list))
  {
    if list == [] {
      SumZeros(Masses(p, list));
      MaxOfZeros(Bests(p, list));
    } else {
      var front, last := list[..|list| - 1], list[|list| - 1];
      TotalIsSum(p, front, t);
      ExpertInRange(last, |p.prior|);
      WeightPositive(p, last);
      forall j | 0 <= j < |p.prior| ensures Best(p, front, j) >= 0.0 { BestNonNegative(p, front, j); }
      hide Weight, Schedule.Expert, Schedule.Valid, Sum, MaxEntry;
      SumBump(Masses(p, front), Masses(p, list), last.Expert(), Weight(p, last));
      MaxBump(Bests(p, front), Bests(p, list), last.Expert(), Weight(p, last));
    }
  }

  // ---------- Main results ----------

  /** The recursions hold, expert by expert, the mass and the best weight of a list of schedules. */
  predicate Computes(p: Problem, list: seq<Schedule>, t: nat)
    requires p.Valid() && t <= |p.likelihoods|
  {
    OfLength(p, list, t) && Forward(p, t) == Masses(p, list) && Viterbi(p, t) == Bests(p, list)
  }

  lemma {:induction false} StartsMass(p: Problem, m: nat, j: nat)
    requires p.Valid() && m <= |p.prior| && j < |p.prior|
    ensures OfLength(p, Starts(m), 0)
    ensures Mass(p, Starts(m), j) == Best(p, Starts(m), j) == if j < m then p.prior[j] else 0.0
  {
    if m > 0 {
      StartsMass(p, m - 1, j);
      assert Weight(p, Schedule(m - 1, [])) == p.prior[m - 1];
      hide Weight, Mass, Best;
      MassAppend(p, Starts(m - 1), 0, Schedule(m - 1, []), j);
    }
  }

  lemma StepEntry(p: Problem, list: seq<Schedule>, t: nat, j: nat)
    requires p.Valid() && t < |p.likelihoods| && Computes(p, list, t) && j < |p.prior|
    ensures var longer := ExtendAll(list, |p.prior|);
            && OfLength(p, longer, t + 1)
            && Forward(p, t + 1)[j] == Mass(p, longer, j)
            && Viterbi(p, t + 1)[j] == Best(p, longer, j)
  {
    TotalIsSum(p, list, t);
    ExtendAllMass(p, list, t, j);
    hide ForwardEntry, ViterbiEntry, Mass, Best, TotalMass, BestOf, Sum, MaxEntry, ExtendAll;
  }

  lemma StepComputes(p: Problem, list: seq<Schedule>, t: nat)
    requires p.Valid() && t < |p.likelihoods| && Computes(p, list, t)
    ensures Computes(p, ExtendAll(list, |p.prior|), t + 1)
  {
    hide Forward, Viterbi, Mass, Best, ExtendAll;
    StepEntry(p, list, t, 0);
    var longer := ExtendAll(list, |p.prior|);
    forall j | 0 <= j < |p.prior|
      ensures Forward(p, t + 1)[j] == Mass(p, longer, j) && Viterbi(p, t + 1)[j] == Best(p, longer, j)
    {
      StepEntry(p, list, t, j);
    }
  }

  lemma {:induction false} RecursionsCompute(p: Problem, t: nat)
    requires p.Valid() && t <= |p.likelihoods|
    ensures Computes(p, Schedules(|p.prior|, t), t)
  {
    if t == 0 {
      var list := Starts(|p.prior|);
      forall j | 0 <= j < |p.prior|
        ensures OfLength(p, list, 0) && Mass(p, list, j) == Best(p, list, j) == p.prior[j]
      {
        StartsMass(p, |p.prior|, j);
      }
      hide Mass, Best, Starts;
    } else {
      hide Computes, ExtendAll;
      RecursionsCompute(p, t - 1);
      StepComputes(p, Schedules(|p.prior|, t - 1), t - 1);
    }
  }

  /** The forward recursion's total is the sum, the Viterbi recursion's maximum the largest, over every
      switching schedule of its weight. */
  lemma RecursionsCoverAllSchedules(p: Problem, t: nat)
    requires p.Valid() && t <= |p.likelihoods|
    ensures var all := Schedules(|p.prior|, t);
            && Weighable(p, all)
            && Sum(Forward(p, t)) == TotalMass(p, all)
            && MaxEntry(Viterbi(p, t)) == BestOf(p, all)
  {
    RecursionsCompute(p, t);
    TotalIsSum(p, Schedules(|p.prior|, t), t);
  }

  lemma {:induction false} BestDominates(p: Problem, list: seq<Schedule>, t: nat, i: nat)
    requires p.Valid() && OfLength(p, list, t) && i < |list|
    ensures Weight(p, list[i]) <= BestOf(p, list)
  {
    if i < |list| - 1 {
      hide Weight, Schedule.Valid, Problem.Valid;
      BestDominates(p, list[..|list| - 1], t, i);
    }
  }

  lemma {:induction false} TotalDominates(p: Problem, list: seq<Schedule>, t: nat)
    requires p.Valid() && OfLength(p, list, t)
    ensures 0.0 <= BestOf(p, list) <= TotalMass(p, list)
  {
    if list != [] {
      WeightPositive(p, list[|list| - 1]);
      hide Weight, Schedule.Valid, Problem.Valid;
      TotalDominates(p, list[..|list| - 1], t);
    }
  }

  /** For every switching schedule: its own weight is at most the Viterbi mass, which is at most the forward mass. */
  lemma ForwardDominates(p: Problem, s: Schedule)
    requires p.Valid() && s.Valid(|p.prior|) && |s.choices| <= |p.likelihoods|
    ensures Weight(p, s) <= MaxEntry(Viterbi(p, |s.choices|)) <= Sum(Forward(p, |s.choices|))
  {
    var t := |s.choices|;
    var all := Schedules(|p.prior|, t);
    SchedulesOnce(|p.prior|, t, s);
    assert s in all;
    var i :| 0 <= i < |all| && all[i] == s;
    RecursionsCompute(p, t);
    RecursionsCoverAllSchedules(p, t);
    hide Weight, TotalMass, BestOf, Schedules, Masses, Bests, Sum, MaxEntry, Forward, Viterbi;
    BestDominates(p, all, t, i);
    TotalDominates(p, all, t);
  }
}
