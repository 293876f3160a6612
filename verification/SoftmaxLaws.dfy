/** Softmax without its shift: shares in proportion to the exponentials of the logits; and what
    moving the logits along a likelihood gradient does to a weighted mean. */
module SoftmaxLaws {
  import opened RealMath
  import opened LogMath
  import opened NeuralMix
  import opened NeuralMixLaws

  // ---------- Shares ----------

  lemma ScaledShare(share: real, total: real, inv: real, sum: real, factor: real, x: real)
    requires share == Times(inv, x) && total == Times(factor, sum) && Times(inv, sum) == 1.0
    ensures Times(share, total) == Times(factor, x)
  {
    assert inv * x * (factor * sum) == factor * x * (inv * sum);
  }

  lemma ExpAbove(exp: real -> real, x: real)
    requires Positive(exp)
    ensures exp(x) > 0.0
  {
  }

  lemma ScaledEntry(c: real, s: seq<real>, i: nat)
    requires i < |s|
    ensures Scale(c, s)[i] == Times(c, s[i])
  {
    ScaleAt(c, s, i);
  }

  lemma Inverse(x: real)
    requires x > 0.0
    ensures Times(1.0 / x, x) == 1.0
  {
  }

  /** Softmax scales the shifted exponentials by the inverse of their sum. */
  lemma SoftmaxIsScaled(exp: real -> real, logits: seq<real>) returns (inv: real, xs: seq<real>)
    requires Positive(exp) && logits != []
    ensures xs == Exps(exp, logits, MaxOf(logits)) && Times(inv, Sum(xs)) == 1.0
    ensures Softmax(exp, logits) == Scale(inv, xs)
  {
    hide Sum, Scale, MaxOf, Times;
    xs := Exps(exp, logits, MaxOf(logits));
    SumPositive(xs);
    inv := 1.0 / Sum(xs);
    Inverse(Sum(xs));
  }

  lemma ShiftedExp(exp: real -> real, x: real, m: real)
    requires ExpLaws(exp)
    ensures Times(exp(m), exp(x - m)) == exp(x)
  {
    AddedExp(exp, m, x - m);
    assert m + (x - m) == x;
  }

  /** Every share times the sum of all exponentials is the exponential of its own logit: the shift cancels. */
  lemma SoftmaxShare(exp: real -> real, logits: seq<real>, i: nat)
    requires ExpLaws(exp) && i < |logits|
    ensures Times(Softmax(exp, logits)[i], Sum(ExpsOf(exp, logits))) == exp(logits[i])
  {
    hide Softmax, Sum, Scale, MaxOf, Times;
    var m := MaxOf(logits);
    var inv, xs := SoftmaxIsScaled(exp, logits);
    ScaledEntry(inv, xs, i);
    ShiftedSum(exp, logits, xs, m);
    ScaledSum(exp(m), xs);
    ScaledShare(Softmax(exp, logits)[i], Sum(ExpsOf(exp, logits)), inv, Sum(xs), exp(m), xs[i]);
    ShiftedExp(exp, logits[i], m);
  }

  lemma CrossedShares(a: real, b: real, total: real, x: real, y: real)
    requires Times(a, total) == x && Times(b, total) == y
    ensures Times(a, y) == Times(b, x)
  {
    assert a * (b * total) == b * (a * total);
  }

  /** The odds law: two shares are to each other as the exponentials of their logits. */
  lemma SoftmaxOdds(exp: real -> real, logits: seq<real>, i: nat, j: nat)
    requires ExpLaws(exp) && i < |logits| && j < |logits|
    ensures Times(Softmax(exp, logits)[i], exp(logits[j])) == Times(Softmax(exp, logits)[j], exp(logits[i]))
  {
    hide Softmax, Sum, Times;
    SoftmaxShare(exp, logits, i);
    SoftmaxShare(exp, logits, j);
    CrossedShares(Softmax(exp, logits)[i], Softmax(exp, logits)[j], Sum(ExpsOf(exp, logits)), exp(logits[i]),
                  exp(logits[j]));
  }

  lemma PositiveFactor(a: real, total: real, x: real)
    requires Times(a, total) == x && total > 0.0 && x > 0.0
    ensures a > 0.0
  {
  }

  lemma ExpsPositive(exp: real -> real, logits: seq<real>)
    requires Positive(exp) && logits != []
    ensures Sum(ExpsOf(exp, logits)) > 0.0
  {
    forall i | 0 <= i < |logits| ensures ExpsOf(exp, logits)[i] > 0.0 {
      ExpAbove(exp, logits[i]);
    }
    SumPositive(ExpsOf(exp, logits));
  }

  lemma SharePositive(exp: real -> real, logits: seq<real>, i: nat)
    requires ExpLaws(exp) && i < |logits|
    ensures Softmax(exp, logits)[i] > 0.0
  {
    hide Softmax, Sum, Times;
    SoftmaxShare(exp, logits, i);
    ExpsPositive(exp, logits);
    ExpAbove(exp, logits[i]);
    PositiveFactor(Softmax(exp, logits)[i], Sum(ExpsOf(exp, logits)), exp(logits[i]));
  }

  lemma OrderedFactors(a: real, b: real, total: real, x: real, y: real)
    requires Times(a, total) == x && Times(b, total) == y && total > 0.0 && x <= y
    ensures a <= b && (x < y ==> a < b)
  {
    assert (b - a) * total == y - x;
  }

  /** A higher logit never gets the lower share, and with an invertible `exp` it gets the higher one. */
  lemma HigherLogitHigherShare(exp: real -> real, ln: real -> real, logits: seq<real>, i: nat, j: nat)
    requires LogLaws(exp, ln) && i < |logits| && j < |logits| && logits[i] <= logits[j]
    ensures Softmax(exp, logits)[i] <= Softmax(exp, logits)[j]
    ensures logits[i] < logits[j] ==> Softmax(exp, logits)[i] < Softmax(exp, logits)[j]
  {
    hide Softmax, Sum, Times;
    SoftmaxShare(exp, logits, i);
    SoftmaxShare(exp, logits, j);
    ExpsPositive(exp, logits);
    if logits[i] < logits[j] { ExpStrict(exp, ln, logits[i], logits[j]); }
    OrderedFactors(Softmax(exp, logits)[i], Softmax(exp, logits)[j], Sum(ExpsOf(exp, logits)), exp(logits[i]),
                   exp(logits[j]));
  }

  lemma UnitShare(x: real, n: real)
    requires n > 0.0 && n * x == 1.0
    ensures x == 1.0 / n
  {
  }

  lemma SameFactor(a: real, b: real, x: real)
    requires Times(a, x) == Times(b, x) && x > 0.0
    ensures a == b
  {
    assert (a - b) * x == 0.0;
  }

  /** Equal logits get equal shares. */
  lemma UniformShare(exp: real -> real, logits: seq<real>, i: nat)
    requires ExpLaws(exp) && i < |logits| && forall j :: 0 <= j < |logits| ==> logits[j] == logits[0]
    ensures Softmax(exp, logits)[i] == 1.0 / |logits| as real
  {
    hide Softmax, Sum, Times;
    var s := Softmax(exp, logits);
    forall j | 0 <= j < |logits| ensures s[j] == s[i] {
      SoftmaxOdds(exp, logits, j, i);
      SameFactor(s[j], s[i], exp(logits[0]));
    }
    SumUniform(s, s[i]);
    SoftmaxIsDistribution(exp, logits);
    UnitShare(s[i], |logits| as real);
  }

  // ---------- Tilting a weighted mean ----------

  /** Every value less `m`. */
  function Deviations(x: seq<real>, m: real): (d: seq<real>)
    ensures |d| == |x| && forall i :: 0 <= i < |d| ==> d[i] == x[i] - m
  {
    seq(|x|, i requires 0 <= i < |x| => x[i] - m)
  }

  lemma DeviationTerm(w: real, x: real, m: real, total: real)
    ensures Times(w, x - m) + Times(total + w, m) == Times(w, x) + Times(total, m)
  {
  }

  lemma {:induction false} DotDeviations(w: seq<real>, x: seq<real>, m: real)
    requires |w| == |x|
    ensures Dot(w, Deviations(x, m)) + Times(Sum(w), m) == Dot(w, x)
  {
    if w == [] {
      assert Times(0.0, m) == 0.0;
    } else {
      hide Times;
      var n := |w| - 1;
      DotDeviations(w[..n], x[..n], m);
      assert Deviations(x, m)[..n] == Deviations(x[..n], m);
      DeviationTerm(w[n], x[n], m, Sum(w[..n]));
    }
  }

  /** `t` is at least 1 where `d` is not negative and at most 1 where it is not positive. */
  predicate Leans(t: real, d: real)
  {
    (d >= 0.0 ==> t >= 1.0) && (d <= 0.0 ==> t <= 1.0)
  }

  lemma LeaningSum(w: real, t: real, v: real, z: real, d: real, e: real)
    requires Times(v, z) == Times(w, t) && e == d * (t - 1.0)
    ensures Times(z, Times(v, d)) == Times(w, d) + Times(w, e)
  {
    assert z * (v * d) == w * t * d;
    assert w * t * d == w * d + w * e;
  }

  lemma NonNegativeTimes(w: real, e: real)
    requires w >= 0.0 && e >= 0.0
    ensures Times(w, e) >= 0.0 && (w > 0.0 && e > 0.0 ==> Times(w, e) > 0.0)
  {
  }

  lemma LeaningTerm(w: real, t: real, v: real, z: real, d: real)
    requires w >= 0.0 && Times(v, z) == Times(w, t) && Leans(t, d)
    ensures Times(z, Times(v, d)) >= Times(w, d)
    ensures w > 0.0 && d != 0.0 && t != 1.0 ==> Times(z, Times(v, d)) > Times(w, d)
  {
    hide Times;
    var e := d * (t - 1.0);
    SameSignProduct(d, t - 1.0);
    LeaningSum(w, t, v, z, d, e);
    NonNegativeTimes(w, e);
  }

  lemma SplitFactor(z: real, a: real, b: real)
    ensures Times(z, a + b) == Times(z, a) + Times(z, b)
  {
  }

  /** `v` is `w` with every weight multiplied by a factor that leans as `d` does, up to the common factor `z`. */
  predicate Tilted(w: seq<real>, v: seq<real>, t: seq<real>, d: seq<real>, z: real)
  {
    |w| == |v| == |t| == |d| &&
    forall i :: 0 <= i < |w| ==> w[i] >= 0.0 && Times(v[i], z) == Times(w[i], t[i]) && Leans(t[i], d[i])
  }

  lemma {:induction false} TiltedDot(w: seq<real>, v: seq<real>, t: seq<real>, d: seq<real>, z: real, free: nat)
    requires Tilted(w, v, t, d, z) && (free < |w| ==> w[free] > 0.0 && d[free] != 0.0 && t[free] != 1.0)
    ensures Times(z, Dot(v, d)) >= Dot(w, d)
    ensures free < |w| ==> Times(z, Dot(v, d)) > Dot(w, d)
  {
    if w == [] {
      assert Times(z, 0.0) == 0.0;
    } else {
      hide Times, Leans;
      var n := |w| - 1;
      TiltedDot(w[..n], v[..n], t[..n], d[..n], z, free);
      LeaningTerm(w[n], t[n], v[n], z, d[n]);
      SplitFactor(z, Dot(v[..n], d[..n]), Times(v[n], d[n]));
    }
  }

  lemma PositiveSide(z: real, a: real)
    requires z > 0.0
    ensures Times(z, a) >= 0.0 ==> a >= 0.0
    ensures Times(z, a) > 0.0 ==> a > 0.0
  {
  }

  /** Multiplying the weights by factors that are at least 1 above the mean and at most 1 below it never lowers the
      renormalised mean, and raises it once one factor at a value off the mean is not 1. */
  lemma TiltRaisesMean(w: seq<real>, v: seq<real>, t: seq<real>, x: seq<real>, z: real, m: real, free: nat)
    requires |x| == |w| && Sum(w) == 1.0 && |v| == |w| && Sum(v) == 1.0 && z > 0.0 && m == Dot(w, x)
    requires Tilted(w, v, t, Deviations(x, m), z)
    requires free < |w| ==> w[free] > 0.0 && x[free] != m && |t| == |w| && t[free] != 1.0
    ensures Dot(v, x) >= m
    ensures free < |w| ==> Dot(v, x) > m
  {
    hide Dot, Sum, Tilted;
    var d := Deviations(x, m);
    DotDeviations(w, x, m);
    DotDeviations(v, x, m);
    TiltedDot(w, v, t, d, z, free);
    assert Times(1.0, m) == m;
    hide Times;
    PositiveSide(z, Dot(v, d));
  }

  // ---------- A gradient step on logits ----------

  /** The logits move by `c` times weight times deviation from the mean. */
  predicate StepsAlong(logits: seq<real>, moved: seq<real>, w: seq<real>, x: seq<real>, m: real, c: real)
  {
    |logits| == |moved| == |w| == |x| &&
    forall i :: 0 <= i < |logits| ==> moved[i] == logits[i] + Times(c, Times(w[i], x[i] - m))
  }

  lemma StepLeans(exp: real -> real, c: real, w: real, d: real)
    requires ExpLaws(exp) && c >= 0.0 && w >= 0.0
    ensures Leans(exp(Times(c, Times(w, d))), d)
  {
    ExpZero(exp);
    var step := c * (w * d);
    if d >= 0.0 {
      assert w * d >= 0.0;
      assert step >= 0.0;
      assert exp(0.0) <= exp(step);
    }
    if d <= 0.0 {
      assert w * d <= 0.0;
      assert step <= 0.0;
      assert exp(step) <= exp(0.0);
    }
  }

  lemma TiltFactor(v: real, after: real, w: real, before: real, e: real, t: real)
    requires Times(v, after) == Times(e, t) && Times(w, before) == e && before > 0.0
    ensures Times(v, after / before) == Times(w, t)
  {
    assert v * (after / before) * before == v * after == w * t * before;
  }

  /** How a gradient step tilts the softmax. */
  lemma StepTilts(exp: real -> real, logits: seq<real>, moved: seq<real>, x: seq<real>, m: real, c: real)
    returns (t: seq<real>, z: real)
    requires ExpLaws(exp) && c >= 0.0 && logits != [] && |logits| == |moved| == |x|
    requires StepsAlong(logits, moved, Softmax(exp, logits), x, m, c)
    ensures z > 0.0 && Tilted(Softmax(exp, logits), Softmax(exp, moved), t, Deviations(x, m), z)
    ensures forall i :: 0 <= i < |t| ==> t[i] == exp(Times(c, Times(Softmax(exp, logits)[i], x[i] - m)))
  {
    hide Softmax, Sum, Times, Leans, ExpLaws;
    var w, v := Softmax(exp, logits), Softmax(exp, moved);
    var before, after := Sum(ExpsOf(exp, logits)), Sum(ExpsOf(exp, moved));
    ExpLawsPositive(exp);
    ExpsPositive(exp, logits);
    ExpsPositive(exp, moved);
    t := seq(|x|, i requires 0 <= i < |x| => exp(Times(c, Times(w[i], x[i] - m))));
    z := after / before;
    forall i | 0 <= i < |w|
      ensures w[i] >= 0.0 && Times(v[i], z) == Times(w[i], t[i]) && Leans(t[i], Deviations(x, m)[i])
    {
      SharePositive(exp, logits, i);
      SoftmaxShare(exp, logits, i);
      SoftmaxShare(exp, moved, i);
      AddedExp(exp, logits[i], Times(c, Times(w[i], x[i] - m)));
      TiltFactor(v[i], after, w[i], before, exp(logits[i]), t[i]);
      StepLeans(exp, c, w[i], x[i] - m);
    }
  }

  /** A step of non-negative length along the gradient never lowers the mean under the softmax. */
  lemma StepRaisesMean(exp: real -> real, logits: seq<real>, moved: seq<real>, x: seq<real>, m: real, c: real)
    requires ExpLaws(exp) && c >= 0.0 && logits != [] && |logits| == |moved| == |x|
    requires m == Dot(Softmax(exp, logits), x) && StepsAlong(logits, moved, Softmax(exp, logits), x, m, c)
    ensures Dot(Softmax(exp, moved), x) >= m
  {
    hide Softmax, Sum, Dot, Tilted, StepsAlong;
    var t, z := StepTilts(exp, logits, moved, x, m, c);
    SoftmaxIsDistribution(exp, logits);
    SoftmaxIsDistribution(exp, moved);
    TiltRaisesMean(Softmax(exp, logits), Softmax(exp, moved), t, x, z, m, |x|);
  }

  lemma StepIsFelt(exp: real -> real, ln: real -> real, c: real, w: real, d: real)
    requires LogLaws(exp, ln) && c > 0.0 && w > 0.0 && d != 0.0
    ensures exp(Times(c, Times(w, d))) != 1.0
  {
    LogLawsExp(exp, ln);
    ExpZero(exp);
    assert w * d != 0.0;
    assert c * (w * d) != 0.0;
    if Times(c, Times(w, d)) < 0.0 {
      ExpStrict(exp, ln, Times(c, Times(w, d)), 0.0);
    } else {
      ExpStrict(exp, ln, 0.0, Times(c, Times(w, d)));
    }
  }

  /** A step of positive length raises the mean strictly, unless all values equal it. */
  lemma StepRaisesMeanStrictly(exp: real -> real, ln: real -> real, logits: seq<real>, moved: seq<real>, x: seq<real>,
                               m: real, c: real, i: nat)
    requires LogLaws(exp, ln) && c > 0.0 && |logits| == |moved| == |x| && i < |x| && x[i] != m
    requires m == Dot(Softmax(exp, logits), x) && StepsAlong(logits, moved, Softmax(exp, logits), x, m, c)
    ensures Dot(Softmax(exp, moved), x) > m
  {
    hide Softmax, Sum, Dot, Tilted, StepsAlong, Times;
    LogLawsExp(exp, ln);
    var t, z := StepTilts(exp, logits, moved, x, m, c);
    SoftmaxIsDistribution(exp, logits);
    SoftmaxIsDistribution(exp, moved);
    SharePositive(exp, logits, i);
    StepIsFelt(exp, ln, c, Softmax(exp, logits)[i], x[i] - m);
    TiltedLengths(Softmax(exp, logits), Softmax(exp, moved), t, Deviations(x, m), z);
    TiltRaisesMean(Softmax(exp, logits), Softmax(exp, moved), t, x, z, m, i);
  }

  lemma TiltedLengths(w: seq<real>, v: seq<real>, t: seq<real>, d: seq<real>, z: real)
    requires Tilted(w, v, t, d, z)
    ensures |t| == |w|
  {
  }
}
