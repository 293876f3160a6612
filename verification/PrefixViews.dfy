/** Three representations of one observed bit prefix: the CDF interval, the prefix code and the heap
    node; and the agreement of their predictions. */
module PrefixViews {
  import opened RealMath
  import opened BytePrefix
  import opened PrefixMass
  import opened PdfNormalization

  /** The CDF interval after observing `bits`. */
  function RangeAfter(d: nat, bits: seq<bool>): MsbPrefixRange
  {
    if bits == [] then MsbPrefixRange(0, Pow2(d))
    else RangeAfter(d, bits[..|bits| - 1]).Observed(bits[|bits| - 1])
  }

  /** The prefix code after observing `bits`. */
  function CodeAfter(bits: seq<bool>): nat
  {
    if bits == [] then 1 else AdvancedPrefixCode(CodeAfter(bits[..|bits| - 1]), bits[|bits| - 1])
  }

  lemma HalvedUnits(v: nat, half: nat)
    ensures v * (2 * half) == 2 * v * half
    ensures (v + 1) * (2 * half) == 2 * v * half + 2 * half
    ensures (2 * v + 1) * half == 2 * v * half + half
    ensures (2 * v + 2) * half == 2 * v * half + 2 * half
  {
  }

  /** The interval of a prefix with value v covers [v * 2^r, (v + 1) * 2^r) where r bits remain. */
  lemma {:induction false} RangeDenotes(d: nat, bits: seq<bool>)
    requires |bits| <= d
    ensures RangeAfter(d, bits) == MsbPrefixRange(Value(bits) * Pow2(d - |bits|), (Value(bits) + 1) * Pow2(d - |bits|))
  {
    if bits != [] {
      var front, last := bits[..|bits| - 1], bits[|bits| - 1];
      RangeDenotes(d, front);
      HalvedUnits(Value(front), Pow2(d - |bits|));
    }
  }

  /** The code and the heap node of a prefix are the same number, 2^k + v. */
  lemma {:induction false} CodeIsNode(bits: seq<bool>)
    requires |bits| <= 15
    ensures CodeAfter(bits) == NodeOf(bits)
  {
    if bits == [] {
      EmptyNode();
    } else {
      hide NodeOf, AdvancedPrefixCode, Pow2;
      var front, last := bits[..|bits| - 1], bits[|bits| - 1];
      CodeIsNode(front);
      NodeStep(front, last);
      assert bits == front + [last];
      NodeFits(bits, 15);
      Pow2Fifteen();
      PlainAdvance(NodeOf(front), last);
    }
  }

  lemma EmptyNode()
    ensures NodeOf([]) == 1
  {
  }

  lemma PlainAdvance(code: nat, bit: bool)
    requires 2 * code + Bit(bit) < 65536
    ensures AdvancedPrefixCode(code, bit) == 2 * code + Bit(bit)
  {
  }

  lemma Pow2Fifteen()
    ensures Pow2(15) == 32768
  {
    assert Pow2(5) == 32;
    Pow2Split(5, 5);
    Pow2Split(5, 10);
  }

  lemma RangeFits(d: nat, bits: seq<bool>)
    requires |bits| <= d
    ensures RangeAfter(d, bits).lo < RangeAfter(d, bits).hi <= Pow2(d)
  {
    RangeDenotes(d, bits);
    ValueBound(bits);
    Pow2Split(|bits|, d - |bits|);
    ScaledBelow(Value(bits), Pow2(|bits|), Pow2(d - |bits|));
  }

  lemma ScaledBelow(v: nat, count: nat, unit: nat)
    requires v < count && unit >= 1
    ensures v * unit < (v + 1) * unit <= count * unit
  {
  }

  // ---------- Interval masses ----------

  predicate Nondecreasing(cdf: seq<real>)
  {
    forall i, j :: 0 <= i <= j < |cdf| ==> cdf[i] <= cdf[j]
  }

  /** The symbol masses a CDF row describes. */
  function Increments(cdf: seq<real>): (w: seq<real>)
    requires cdf != []
    ensures |w| == |cdf| - 1 && forall v :: 0 <= v < |w| ==> w[v] == cdf[v + 1] - cdf[v]
  {
    seq(|cdf| - 1, v requires 0 <= v < |cdf| - 1 => cdf[v + 1] - cdf[v])
  }

  lemma RangeSplits(d: nat, bits: seq<bool>)
    requires |bits| < d
    ensures var r := RangeAfter(d, bits);
            && r.lo <= r.Mid() <= r.hi
            && RangeAfter(d, bits + [false]) == MsbPrefixRange(r.lo, r.Mid())
            && RangeAfter(d, bits + [true]) == MsbPrefixRange(r.Mid(), r.hi)
  {
    RangeFits(d, bits);
    assert (bits + [false])[..|bits|] == bits == (bits + [true])[..|bits|];
  }

  /** The interval of `bits` lies inside the row, and the row increases over it by the mass of `bits`. */
  predicate IntervalHolds(cdf: seq<real>, d: nat, bits: seq<bool>)
  {
    var r := RangeAfter(d, bits);
    && |cdf| == Pow2(d) + 1
    && r.lo < r.hi < |cdf|
    && MatchMass(Increments(cdf), MsbFirst, bits, d) == cdf[r.hi] - cdf[r.lo]
  }

  lemma LeafRange(bits: seq<bool>)
    ensures RangeAfter(|bits|, bits) == MsbPrefixRange(Value(bits), Value(bits) + 1)
  {
    hide RangeAfter, Value;
    RangeDenotes(|bits|, bits);
    assert Pow2(0) == 1;
  }

  lemma LeafInterval(cdf: seq<real>, d: nat, bits: seq<bool>)
    requires |cdf| == Pow2(d) + 1 && |bits| == d
    ensures IntervalHolds(cdf, d, bits)
  {
    hide RangeAfter, MatchMass, Pow2, Value;
    LeafRange(bits);
    ValueBound(bits);
    MatchOne(Increments(cdf), MsbFirst, bits, d);
  }

  lemma InnerInterval(cdf: seq<real>, d: nat, bits: seq<bool>)
    requires |cdf| == Pow2(d) + 1 && |bits| < d
    requires IntervalHolds(cdf, d, bits + [false]) && IntervalHolds(cdf, d, bits + [true])
    ensures IntervalHolds(cdf, d, bits)
  {
    hide RangeAfter, MatchMass, Increments, Pow2, MsbPrefixRange.Mid;
    RangeSplits(d, bits);
    MatchSplits(Increments(cdf), MsbFirst, bits, d);
  }

  /** The mass of a prefix is the CDF's increase over its interval. */
  lemma {:induction false} IntervalMass(cdf: seq<real>, d: nat, bits: seq<bool>)
    requires |cdf| == Pow2(d) + 1 && |bits| <= d
    ensures IntervalHolds(cdf, d, bits)
    decreases d - |bits|
  {
    hide IntervalHolds, Pow2;
    if |bits| == d {
      LeafInterval(cdf, d, bits);
    } else {
      IntervalMass(cdf, d, bits + [false]);
      IntervalMass(cdf, d, bits + [true]);
      InnerInterval(cdf, d, bits);
    }
  }

  lemma MatchScale(c: real, w: seq<real>, order: BitOrder, bits: seq<bool>, d: nat)
    requires |w| == Pow2(d)
    ensures MatchMass(Scale(c, w), order, bits, d) == Times(c, MatchMass(w, order, bits, d))
  {
    hide Sum, Scale, Matching;
    var a, b := Matching(Scale(c, w), order, bits, d), Scale(c, Matching(w, order, bits, d));
    forall v | 0 <= v < |w| ensures a[v] == b[v] {
      MatchingScaleAt(c, w, order, bits, d, v);
    }
    assert a == b;
    SumScale(c, Matching(w, order, bits, d));
  }

  lemma MatchingScaleAt(c: real, w: seq<real>, order: BitOrder, bits: seq<bool>, d: nat, v: nat)
    requires |w| == Pow2(d) && v < |w|
    ensures Matching(Scale(c, w), order, bits, d)[v] == Scale(c, Matching(w, order, bits, d))[v]
  {
    hide Scale, OrderBits;
    ScaleAt(c, w, v);
    ScaleAt(c, Matching(w, order, bits, d), v);
  }

  lemma SameRatio(c: real, one: real, total: real)
    requires c > 0.0
    ensures total > 0.0 ==> Times(c, total) > 0.0 && Times(c, one) / Times(c, total) == one / total
    ensures total <= 0.0 ==> Times(c, total) <= 0.0
  {
    if total > 0.0 {
      PositiveProduct(c, total);
      assert one == (one / total) * total;
      assert c * one == (one / total) * (c * total);
    }
  }

  /** Scaling all masses changes no conditional. */
  lemma ConditionalScale(c: real, w: seq<real>, order: BitOrder, bits: seq<bool>, d: nat)
    requires |w| == Pow2(d) && c > 0.0
    ensures Conditional(Scale(c, w), order, bits, d) == Conditional(w, order, bits, d)
  {
    hide MatchMass, Times;
    MatchScale(c, w, order, bits, d);
    MatchScale(c, w, order, bits + [true], d);
    SameRatio(c, MatchMass(w, order, bits + [true], d), MatchMass(w, order, bits, d));
  }

  /** Normalising a positive total changes no conditional. */
  lemma NormalizedConditional(w: seq<real>, order: BitOrder, bits: seq<bool>, d: nat)
    requires |w| == Pow2(d) && (forall v :: 0 <= v < |w| ==> w[v] >= 0.0) && Sum(w) > 0.0
    ensures Conditional(MassNormalized(w), order, bits, d) == Conditional(w, order, bits, d)
  {
    assert NonNegative(w) == w;
    assert w != [];
    assert MassNormalized(w) == Scale(1.0 / Sum(w), w);
    hide MassNormalized, Sum, Scale, Conditional;
    Reciprocal(Sum(w));
    ConditionalScale(1.0 / Sum(w), w, order, bits, d);
  }

  /** The conditional of a CDF's masses is the upper half's increase over the whole interval's. */
  lemma IntervalConditional(cdf: seq<real>, d: nat, bits: seq<bool>)
    requires |cdf| == Pow2(d) + 1 && |bits| < d
    ensures var r := RangeAfter(d, bits);
            && r.lo < r.hi < |cdf| && r.lo <= r.Mid() <= r.hi
            && (cdf[r.hi] - cdf[r.lo] > 0.0 ==>
                  Conditional(Increments(cdf), MsbFirst, bits, d)
                  == Ratio(cdf[r.hi] - cdf[r.Mid()], cdf[r.hi] - cdf[r.lo]))
  {
    hide MatchMass, RangeAfter, Increments, Ratio, Pow2, MsbPrefixRange.Mid;
    IntervalMass(cdf, d, bits);
    IntervalMass(cdf, d, bits + [true]);
    RangeSplits(d, bits);
  }

  lemma TotalMass(cdf: seq<real>, d: nat)
    requires |cdf| == Pow2(d) + 1
    ensures Sum(Increments(cdf)) == cdf[|cdf| - 1] - cdf[0]
  {
    IntervalMass(cdf, d, []);
    MatchAll(Increments(cdf), MsbFirst, d);
  }

  /** Before a further bit, the interval walk's floored probability is the clamp of the heap's prediction
      built from the same CDF row, whenever the interval carries at least the floor. */
  lemma ProbOneIsClampedPrediction(cdf: seq<real>, d: nat, bits: seq<bool>, minProb: real)
    requires |cdf| == Pow2(d) + 1 && Nondecreasing(cdf) && |bits| < d && 0.0 < minProb < 0.5
    requires var r := RangeAfter(d, bits);
             r.lo <= r.hi < |cdf| && minProb <= cdf[r.hi] - cdf[r.lo]
    ensures RangeAfter(d, bits).ProbOne(cdf, minProb)
         == Clamp(Conditional(MassNormalized(Increments(cdf)), MsbFirst, bits, d), minProb, 1.0 - minProb)
  {
    hide Conditional, RangeAfter, Sum, MassNormalized, MsbPrefixRange.ProbOne, Nondecreasing, Clamp, Pow2, Times, Ratio;
    ProbOneScalesPrediction(cdf, d, bits, minProb);
    var r := RangeAfter(d, bits);
    WholeShare(Conditional(MassNormalized(Increments(cdf)), MsbFirst, bits, d), cdf[r.hi] - cdf[r.lo]);
  }

  lemma WholeShare(x: real, y: real)
    requires y > 0.0
    ensures Ratio(Times(x, y), y) == x
  {
  }

  lemma ShareOfMass(conditional: real, share: real, mass: real)
    requires 0.0 <= share <= mass && (mass > 0.0 ==> conditional == Ratio(share, mass))
    ensures Times(conditional, mass) == share
  {
  }

  /**
    For any interval of a nondecreasing row, massless ones included: the walk's probability is the prediction times
    the interval's mass, over that mass raised to the floor, clamped.
    */
  lemma ProbOneScalesPrediction(cdf: seq<real>, d: nat, bits: seq<bool>, minProb: real)
    requires |cdf| == Pow2(d) + 1 && Nondecreasing(cdf) && |bits| < d && 0.0 < minProb < 0.5
    ensures var r := RangeAfter(d, bits);
            && r.lo <= r.hi < |cdf|
            && var mass := cdf[r.hi] - cdf[r.lo];
               var upper := Times(Conditional(MassNormalized(Increments(cdf)), MsbFirst, bits, d), mass);
               r.ProbOne(cdf, minProb) == Clamp(Ratio(upper, Max(mass, minProb)), minProb, 1.0 - minProb)
  {
    hide Conditional, RangeAfter, Sum, MassNormalized, MsbPrefixRange.Mid, Nondecreasing, Clamp, Pow2, Times, Ratio,
         MsbPrefixRange.ProbOne;
    var r := RangeAfter(d, bits);
    var q := Conditional(MassNormalized(Increments(cdf)), MsbFirst, bits, d);
    CdfFacts(cdf, d, bits);
    IntervalConditional(cdf, d, bits);
    if cdf[r.hi] - cdf[r.lo] > 0.0 {
      NormalizedConditional(Increments(cdf), MsbFirst, bits, d);
    }
    ShareOfMass(q, cdf[r.hi] - cdf[r.Mid()], cdf[r.hi] - cdf[r.lo]);
    FlooredQuotient(r, cdf, minProb);
  }

  lemma FlooredQuotient(r: MsbPrefixRange, cdf: seq<real>, minProb: real)
    requires r.lo <= r.Mid() <= r.hi < |cdf| && 0.0 < minProb < 0.5 && cdf[r.Mid()] <= cdf[r.hi]
    ensures r.ProbOne(cdf, minProb)
         == Clamp(Ratio(cdf[r.hi] - cdf[r.Mid()], Max(cdf[r.hi] - cdf[r.lo], minProb)), minProb, 1.0 - minProb)
  {
  }

  lemma CdfFacts(cdf: seq<real>, d: nat, bits: seq<bool>)
    requires |cdf| == Pow2(d) + 1 && Nondecreasing(cdf) && |bits| < d
    ensures var r := RangeAfter(d, bits);
            && r.lo <= r.Mid() <= r.hi < |cdf|
            && cdf[r.lo] <= cdf[r.Mid()] <= cdf[r.hi]
            && cdf[r.hi] - cdf[r.lo] <= Sum(Increments(cdf))
    ensures forall v :: 0 <= v < |cdf| - 1 ==> Increments(cdf)[v] >= 0.0
  {
    RangeFits(d, bits);
    TotalMass(cdf, d);
    hide RangeAfter, Sum;
  }
}
