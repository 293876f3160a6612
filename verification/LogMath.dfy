/** Exponentials and logarithms as the mixers and the fixed-share recursions use them: their laws,
    taken as premises, and what follows from these. */
module LogMath {
  import opened RealMath

  ghost predicate ExpAdds(exp: real -> real, x: real, y: real)
  {
    exp(x + y) == Times(exp(x), exp(y))
  }

  /** `exp` is positive, 1 at 0, never decreases, and turns sums into products. */
  ghost predicate ExpLaws(exp: real -> real)
  {
    ExpFacts(exp) && forall x, y :: ExpAdds(exp, x, y)
  }

  /** `exp` and `ln` as exact inverse functions. */
  ghost predicate LogLaws(exp: real -> real, ln: real -> real)
  {
    && ExpLaws(exp)
    && (forall x :: ln(exp(x)) == x)
    && (forall y :: y > 0.0 ==> exp(ln(y)) == y)
  }

  function ExpsOf(exp: real -> real, xs: seq<real>): (r: seq<real>)
    ensures |r| == |xs| && forall i :: 0 <= i < |xs| ==> r[i] == exp(xs[i])
  {
    seq(|xs|, i requires 0 <= i < |xs| => exp(xs[i]))
  }

  lemma LogLawsExp(exp: real -> real, ln: real -> real)
    requires LogLaws(exp, ln)
    ensures ExpLaws(exp)
  {
  }

  lemma LogLawsFacts(exp: real -> real, ln: real -> real)
    requires LogLaws(exp, ln)
    ensures ExpFacts(exp)
  {
  }

  lemma ExpLawsPositive(exp: real -> real)
    requires ExpLaws(exp)
    ensures Positive(exp)
  {
  }

  lemma AddedExp(exp: real -> real, x: real, y: real)
    requires ExpLaws(exp)
    ensures exp(x + y) == Times(exp(x), exp(y))
  {
    assert ExpAdds(exp, x, y);
  }

  /** Exponentials of values shifted by `m` are the plain ones without their common factor. */
  lemma ShiftedSum(exp: real -> real, xs: seq<real>, shifted: seq<real>, m: real)
    requires ExpLaws(exp) && |shifted| == |xs| && forall i :: 0 <= i < |xs| ==> shifted[i] == exp(xs[i] - m)
    ensures Scale(exp(m), shifted) == ExpsOf(exp, xs)
  {
    hide ExpLaws, Scale;
    forall i | 0 <= i < |xs| ensures Scale(exp(m), shifted)[i] == exp(xs[i]) {
      ScaleAt(exp(m), shifted, i);
      AddedExp(exp, m, xs[i] - m);
      assert m + (xs[i] - m) == xs[i];
    }
  }

  lemma ExpZero(exp: real -> real)
    requires ExpLaws(exp)
    ensures exp(0.0) == 1.0
  {
  }

  lemma ExpSum(exp: real -> real, ln: real -> real, x: real, y: real)
    requires LogLaws(exp, ln)
    ensures exp(x + y) == Times(exp(x), exp(y))
  {
    AddedExp(exp, x, y);
  }

  lemma ExpLn(exp: real -> real, ln: real -> real, x: real, y: real)
    requires LogLaws(exp, ln) && y > 0.0
    ensures exp(x + ln(y)) == Times(exp(x), y)
  {
    ExpSum(exp, ln, x, ln(y));
  }

  lemma LnExp(exp: real -> real, ln: real -> real, y: real, x: real)
    requires LogLaws(exp, ln) && y > 0.0
    ensures exp(ln(y) + x) == Times(y, exp(x))
  {
    ExpSum(exp, ln, ln(y), x);
  }

  lemma ExpPositive(exp: real -> real, ln: real -> real, x: real)
    requires LogLaws(exp, ln)
    ensures exp(x) > 0.0
  {
  }

  lemma LnInverts(exp: real -> real, ln: real -> real, x: real)
    requires LogLaws(exp, ln)
    ensures ln(exp(x)) == x
  {
  }

  lemma ExpInverts(exp: real -> real, ln: real -> real, y: real)
    requires LogLaws(exp, ln) && y > 0.0
    ensures exp(ln(y)) == y
  {
  }

  lemma LnMonotone(exp: real -> real, ln: real -> real, a: real, b: real)
    requires LogLaws(exp, ln) && 0.0 < a <= b
    ensures ln(a) <= ln(b)
  {
    assert ln(b) <= ln(a) ==> exp(ln(b)) <= exp(ln(a));
  }

  /** An `exp` with an inverse is strictly increasing. */
  lemma ExpStrict(exp: real -> real, ln: real -> real, x: real, y: real)
    requires LogLaws(exp, ln) && x < y
    ensures exp(x) < exp(y)
  {
    assert exp(x) == exp(y) ==> ln(exp(x)) == ln(exp(y));
  }
}
