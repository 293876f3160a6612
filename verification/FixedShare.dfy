/** Fixed-share tracking of experts: switching schedules, their probabilities, and the two dynamic
    programs that sum and maximise over all of them. */
module FixedShare {
  import opened RealMath

  /** At each symbol the tracked expert stays, or is redrawn from the prior. */
  datatype Choice = Stay | Switch(expert: nat)

  datatype Schedule = Schedule(first: nat, choices: seq<Choice>)
  {
    function Before(): Schedule
      requires choices != []
    {
      Schedule(first, choices[..|choices| - 1])
    }

    function Last(): Choice
      requires choices != []
    {
      choices[|choices| - 1]
    }

    function Then(c: Choice): Schedule
    {
      Schedule(first, choices + [c])
    }

    /** The expert in charge of the latest symbol. */
    function Expert(): nat
      decreases |choices|
    {
      if choices == [] then first
      else
        match Last()
        case Stay => Before().Expert()
        case Switch(j) => j
    }

    /** Only experts below `n` ever take charge. */
    predicate Valid(n: nat)
    {
      first < n && forall c <- choices :: c.Switch? ==> c.expert < n
    }
  }

  /** Prior, switching rate and per-symbol expert likelihoods. */
  datatype Problem = Problem(prior: seq<real>, alpha: real, likelihoods: seq<seq<real>>)
  {
    predicate Valid()
    {
      && |prior| > 0 && Sum(prior) == 1.0 && (forall i :: 0 <= i < |prior| ==> prior[i] > 0.0)
      && 0.0 < alpha < 1.0
      && (forall t :: 0 <= t < |likelihoods| ==> |likelihoods[t]| == |prior|)
      && (forall t, i :: 0 <= t < |likelihoods| && 0 <= i < |prior| ==> likelihoods[t][i] > 0.0)
    }
  }

  lemma {:induction false} ExpertInRange(s: Schedule, n: nat)
    requires s.Valid(n)
    ensures s.Expert() < n
    decreases |s.choices|
  {
    if s.choices != [] {
      assert s.Last() in s.choices;
      if s.Last().Stay? {
        BeforeIsValid(s, n);
        ExpertInRange(s.Before(), n);
      }
    }
  }

  lemma BeforeIsValid(s: Schedule, n: nat)
    requires s.choices != []
    ensures s.Valid(n) <==> s.Before().Valid(n) && (s.Last().Switch? ==> s.Last().expert < n)
  {
    assert s.choices == s.Before().choices + [s.Last()];
  }

  /** The probability of redrawing expert `j`. */
  function SwitchRate(p: Problem, j: nat): (r: real)
    requires p.Valid() && j < |p.prior|
    ensures r > 0.0
  {
    PositiveProduct(p.alpha, p.prior[j]);
    p.alpha * p.prior[j]
  }

  /** What one choice multiplies into a schedule's probability. */
  function Move(p: Problem, c: Choice): real
    requires p.Valid() && (c.Switch? ==> c.expert < |p.prior|)
  {
    match c
    case Stay => 1.0 - p.alpha
    case Switch(j) => SwitchRate(p, j)
  }

  /** A schedule's prior, times its moves, times the likelihoods of the experts in charge. */
  function Weight(p: Problem, s: Schedule): (w: real)
    requires p.Valid() && s.Valid(|p.prior|) && |s.choices| <= |p.likelihoods|
    decreases |s.choices|
  {
    ExpertInRange(s, |p.prior|);
    if s.choices == [] then p.prior[s.first]
    else
      BeforeIsValid(s, |p.prior|);
      Times(Times(Weight(p, s.Before()), Move(p, s.Last())), p.likelihoods[|s.choices| - 1][s.Expert()])
  }

  lemma MovePositive(p: Problem, c: Choice)
    requires p.Valid() && (c.Switch? ==> c.expert < |p.prior|)
    ensures Move(p, c) > 0.0
  {
  }

  lemma {:induction false} WeightPositive(p: Problem, s: Schedule)
    requires p.Valid() && s.Valid(|p.prior|) && |s.choices| <= |p.likelihoods|
    ensures Weight(p, s) > 0.0
    decreases |s.choices|
  {
    if s.choices != [] {
      BeforeIsValid(s, |p.prior|);
      ExpertInRange(s, |p.prior|);
      WeightPositive(p, s.Before());
      MovePositive(p, s.Last());
      PositiveProduct(Weight(p, s.Before()), Move(p, s.Last()));
      PositiveProduct(Times(Weight(p, s.Before()), Move(p, s.Last())), p.likelihoods[|s.choices| - 1][s.Expert()]);
    }
  }

  // ---------- All schedules ----------

  function Switches(s: Schedule, m: nat): seq<Schedule>
  {
    if m == 0 then [] else Switches(s, m - 1) + [s.Then(Switch(m - 1))]
  }

  /** A schedule continued in every possible way by one symbol. */
  function Extensions(s: Schedule, n: nat): seq<Schedule>
  {
    [s.Then(Stay)] + Switches(s, n)
  }

  function ExtendAll(schedules: seq<Schedule>, n: nat): seq<Schedule>
  {
    if schedules == [] then []
    else ExtendAll(schedules[..|schedules| - 1], n) + Extensions(schedules[|schedules| - 1], n)
  }

  function Starts(n: nat): seq<Schedule>
  {
    if n == 0 then [] else Starts(n - 1) + [Schedule(n - 1, [])]
  }

  /** Every schedule over `n` experts and `steps` symbols. */
  function Schedules(n: nat, steps: nat): seq<Schedule>
  {
    if steps == 0 then Starts(n) else ExtendAll(Schedules(n, steps - 1), n)
  }

  lemma {:induction false} StartsOnce(n: nat, s: Schedule)
    ensures multiset(Starts(n))[s] == if s.choices == [] && s.first < n then 1 else 0
  {
    if n > 0 {
      StartsOnce(n - 1, s);
      assert multiset(Starts(n)) == multiset(Starts(n - 1)) + multiset{Schedule(n - 1, [])};
    }
  }

  /** `s` is `from` continued by one valid choice. */
  predicate Continues(s: Schedule, from: Schedule, n: nat)
  {
    s.choices != [] && s.Before() == from && (s.Last().Switch? ==> s.Last().expert < n)
  }

  lemma IsThen(s: Schedule, from: Schedule, c: Choice)
    ensures s == from.Then(c) <==> s.choices != [] && s.Before() == from && s.Last() == c
  {
    if s.choices != [] { assert s.choices == s.Before().choices + [s.Last()]; }
  }

  lemma SwitchesOneMore(from: Schedule, m: nat, s: Schedule)
    requires m > 0
    ensures Continues(s, from, m) && s.Last().Switch?
       <==> (Continues(s, from, m - 1) && s.Last().Switch?) || s == from.Then(Switch(m - 1))
    ensures s == from.Then(Switch(m - 1)) ==> !(Continues(s, from, m - 1) && s.Last().Switch?)
  {
    IsThen(s, from, Switch(m - 1));
    hide Schedule.Then, Schedule.Before, Schedule.Last;
  }

  lemma {:induction false} SwitchesOnce(from: Schedule, m: nat, s: Schedule)
    ensures multiset(Switches(from, m))[s] == if Continues(s, from, m) && s.Last().Switch? then 1 else 0
  {
    if m > 0 {
      hide Continues, Schedule.Then, Schedule.Before, Schedule.Last;
      SwitchesOnce(from, m - 1, s);
      SwitchesOneMore(from, m, s);
      CountLast(Switches(from, m), s);
    }
  }

  lemma ExtensionsOnce(from: Schedule, n: nat, s: Schedule)
    ensures multiset(Extensions(from, n))[s] == if Continues(s, from, n) then 1 else 0
  {
    SwitchesOnce(from, n, s);
    IsThen(s, from, Stay);
    assert multiset(Extensions(from, n)) == multiset{from.Then(Stay)} + multiset(Switches(from, n));
  }

  lemma ContinuesFrom(s: Schedule, from: Schedule, n: nat)
    ensures Continues(s, from, n) <==> s.choices != [] && s.Before() == from && Continues(s, s.Before(), n)
  {
  }

  lemma CountLast<T>(list: seq<T>, x: T)
    requires list != []
    ensures multiset(list)[x] == multiset(list[..|list| - 1])[x] + if list[|list| - 1] == x then 1 else 0
  {
    assert list == list[..|list| - 1] + [list[|list| - 1]];
  }

  lemma {:induction false} ExtendAllOnce(list: seq<Schedule>, n: nat, s: Schedule)
    ensures multiset(ExtendAll(list, n))[s]
         == if s.choices != [] && Continues(s, s.Before(), n) then multiset(list)[s.Before()] else 0
  {
    if list != [] {
      var front, last := list[..|list| - 1], list[|list| - 1];
      assert multiset(ExtendAll(list, n)) == multiset(ExtendAll(front, n)) + multiset(Extensions(last, n));
      hide ExtendAll, Extensions, Continues;
      ExtendAllOnce(front, n, s);
      ExtensionsOnce(last, n, s);
      ContinuesFrom(s, last, n);
      CountLast(list, if s.choices == [] then s else s.Before());
    }
  }

  lemma ValidExtension(s: Schedule, n: nat)
    requires s.choices != []
    ensures s.Valid(n) <==> s.Before().Valid(n) && Continues(s, s.Before(), n)
  {
    BeforeIsValid(s, n);
  }

  lemma ExtendedOnce(list: seq<Schedule>, n: nat, steps: nat, s: Schedule, before: Schedule)
    requires s.choices != [] && before == s.Before()
    requires multiset(list)[before] == if before.Valid(n) && |before.choices| == steps then 1 else 0
    ensures multiset(ExtendAll(list, n))[s] == if s.Valid(n) && |s.choices| == steps + 1 then 1 else 0
  {
    ExtendAllOnce(list, n, s);
    ValidExtension(s, n);
    hide ExtendAll, Continues, Schedule.Valid;
  }

  lemma NoExtensionIsEmpty(list: seq<Schedule>, n: nat, s: Schedule)
    requires s.choices == []
    ensures multiset(ExtendAll(list, n))[s] == 0
  {
    ExtendAllOnce(list, n, s);
  }

  lemma NoChoicesYet(n: nat, s: Schedule)
    ensures multiset(Starts(n))[s] == if s.Valid(n) && |s.choices| == 0 then 1 else 0
  {
    StartsOnce(n, s);
  }

  /** The enumeration holds every valid schedule of its length exactly once, and nothing else. */
  lemma {:induction false} SchedulesOnce(n: nat, steps: nat, s: Schedule)
    ensures multiset(Schedules(n, steps))[s] == if s.Valid(n) && |s.choices| == steps then 1 else 0
  {
    hide ExtendAll, Starts, Schedule.Valid, Schedule.Before;
    if steps == 0 {
      NoChoicesYet(n, s);
    } else if s.choices == [] {
      NoExtensionIsEmpty(Schedules(n, steps - 1), n, s);
    } else {
      SchedulesOnce(n, steps - 1, s.Before());
      ExtendedOnce(Schedules(n, steps - 1), n, steps - 1, s, s.Before());
    }
  }

  // ---------- Sum and maximum over all schedules ----------

  /** The total weight of the listed schedules that end with expert `j` in charge. */
  function Mass(p: Problem, list: seq<Schedule>, j: nat): real
    requires p.Valid() && Weighable(p, list)
  {
    if list == [] then 0.0
    else
      var last := list[|list| - 1];
      Mass(p, list[..|list| - 1], j) + if last.Expert() == j then Weight(p, last) else 0.0
  }

  function TotalMass(p: Problem, list: seq<Schedule>): real
    requires p.Valid() && Weighable(p, list)
  {
    if list == [] then 0.0 else TotalMass(p, list[..|list| - 1]) + Weight(p, list[|list| - 1])
  }

  predicate Weighable(p: Problem, list: seq<Schedule>)
  {
    forall i :: 0 <= i < |list| ==> list[i].Valid(|p.prior|) && |list[i].choices| <= |p.likelihoods|
  }

  /** The largest weight among the listed schedules that end with expert `j`; 0 if there is none. */
  function Best(p: Problem, list: seq<Schedule>, j: nat): real
    requires p.Valid() && Weighable(p, list)
  {
    if list == [] then 0.0
    else
      var last := list[|list| - 1];
      Max(Best(p, list[..|list| - 1], j), if last.Expert() == j then Weight(p, last) else 0.0)
  }

  function BestOf(p: Problem, list: seq<Schedule>): real
    requires p.Valid() && Weighable(p, list)
  {
    if list == [] then 0.0 else Max(BestOf(p, list[..|list| - 1]), Weight(p, list[|list| - 1]))
  }

  /** Joining lists adds masses and takes the larger of the best weights. */
  predicate Joins(p: Problem, a: seq<Schedule>, b: seq<Schedule>, j: nat)
    requires p.Valid() && Weighable(p, a) && Weighable(p, b)
  {
    && Weighable(p, a + b)
    && Mass(p, a + b, j) == Mass(p, a, j) + Mass(p, b, j)
    && Best(p, a + b, j) == Max(Best(p, a, j), Best(p, b, j))
  }

  lemma JoinsNothing(p: Problem, a: seq<Schedule>, j: nat)
    requires p.Valid() && Weighable(p, a)
    ensures Joins(p, a, [], j)
  {
    hide Weight, Schedule.Expert;
    assert a + [] == a;
    BestNonNegative(p, a, j);
  }

  lemma JoinsOneMore(p: Problem, a: seq<Schedule>, b: seq<Schedule>, j: nat)
    requires p.Valid() && Weighable(p, a) && Weighable(p, b) && b != []
    requires Joins(p, a, b[..|b| - 1], j)
    ensures Joins(p, a, b, j)
  {
    hide Weight, Schedule.Expert, Schedule.Valid, Problem.Valid;
    assert (a + b)[..|a + b| - 1] == a + b[..|b| - 1];
    assert Weighable(p, a + b);
  }

  lemma {:induction false} MassConcat(p: Problem, a: seq<Schedule>, b: seq<Schedule>, j: nat)
    requires p.Valid() && Weighable(p, a) && Weighable(p, b)
    ensures Joins(p, a, b, j)
  {
    hide Joins, Problem.Valid, Schedule.Valid;
    if b == [] {
      JoinsNothing(p, a, j);
    } else {
      MassConcat(p, a, b[..|b| - 1], j);
      JoinsOneMore(p, a, b, j);
    }
  }

  lemma {:induction false} BestNonNegative(p: Problem, list: seq<Schedule>, j: nat)
    requires p.Valid() && Weighable(p, list)
    ensures Best(p, list, j) >= 0.0
  {
    if list != [] { BestNonNegative(p, list[..|list| - 1], j); }
  }

  // ---------- The dynamic programs ----------

  /** Expert `i`'s mass after one more symbol: stay with it, or redraw it from anywhere. */
  function ForwardEntry(p: Problem, t: nat, own: real, total: real, i: nat): real
    requires p.Valid() && t < |p.likelihoods| && i < |p.prior|
  {
    Times(Times(1.0 - p.alpha, own) + Times(SwitchRate(p, i), total), p.likelihoods[t][i])
  }

  function ViterbiEntry(p: Problem, t: nat, own: real, best: real, i: nat): real
    requires p.Valid() && t < |p.likelihoods| && i < |p.prior|
  {
    Times(Max(Times(1.0 - p.alpha, own), Times(SwitchRate(p, i), best)), p.likelihoods[t][i])
  }

  function MaxEntry(s: seq<real>): (m: real)
    requires s != []
    ensures forall i :: 0 <= i < |s| ==> s[i] <= m
  {
    if |s| == 1 then s[0] else Max(MaxEntry(s[..|s| - 1]), s[|s| - 1])
  }

  /** Unnormalised forward masses after `t` symbols. */
  function Forward(p: Problem, t: nat): (r: seq<real>)
    requires p.Valid() && t <= |p.likelihoods|
    ensures |r| == |p.prior|
  {
    if t == 0 then p.prior
    else
      var prev := Forward(p, t - 1);
      seq(|p.prior|, i requires 0 <= i < |p.prior| => ForwardEntry(p, t - 1, prev[i], Sum(prev), i))
  }

  /** Best single-schedule masses after `t` symbols. */
  function Viterbi(p: Problem, t: nat): (r: seq<real>)
    requires p.Valid() && t <= |p.likelihoods|
    ensures |r| == |p.prior|
  {
    if t == 0 then p.prior
    else
      var prev := Viterbi(p, t - 1);
      seq(|p.prior|, i requires 0 <= i < |p.prior| => ViterbiEntry(p, t - 1, prev[i], MaxEntry(prev), i))
  }
}
