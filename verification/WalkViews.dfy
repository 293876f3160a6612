/** What a walk shows the mixer: the cursor after any bits of a byte, the context it selects, and
    the probability each expert hands over there, as ratios of directly summed symbol masses. */
module WalkViews {
  import opened RealMath
  import opened ContextHash
  import opened StretchMixer
  import opened BytePrefix
  import opened PrefixMass
  import opened PrefixViews
  import opened BytePdf

  /** The cursor after reading `bits` from the start of a byte. */
  function CursorAfter(bits: seq<bool>): Cursor
  {
    if bits == [] then START else CursorAfter(bits[..|bits| - 1]).Advance(bits[|bits| - 1])
  }

  lemma {:induction false} CursorParts(bits: seq<bool>)
    requires |bits| <= BYTE_BITS
    ensures var c := CursorAfter(bits);
            c.bitIdx == |bits| && c.prefix == CodeAfter(bits) && c.range == RangeAfter(BYTE_BITS, bits)
  {
    if bits == [] {
      ByteAlphabet();
    } else {
      CursorParts(bits[..|bits| - 1]);
    }
  }

  lemma ByteAlphabet()
    ensures Pow2(BYTE_BITS) == BYTE_SYMBOLS
  {
  }

  /** The cursor counts the bits read; its code is their number behind a leading 1, and its interval the symbols that
      start with them. */
  lemma CursorDenotes(bits: seq<bool>)
    requires |bits| <= BYTE_BITS
    ensures var c, unit := CursorAfter(bits), Pow2(BYTE_BITS - |bits|);
            && c.bitIdx == |bits|
            && c.prefix == Pow2(|bits|) + Value(bits)
            && c.range == MsbPrefixRange(Value(bits) * unit, (Value(bits) + 1) * unit)
  {
    hide CursorAfter, CodeAfter, RangeAfter, Value, Pow2;
    CursorParts(bits);
    CodeIsNode(bits);
    RangeDenotes(BYTE_BITS, bits);
  }

  lemma NextUnit(v: nat, unit: nat)
    ensures (v + 1) * unit == v * unit + unit
  {
  }

  lemma CursorCanRead(bits: seq<bool>)
    requires |bits| <= BYTE_BITS
    ensures CanRead(CursorAfter(bits), BYTE_BITS - |bits|)
    ensures CursorAfter(bits).range.lo < CursorAfter(bits).range.hi <= BYTE_SYMBOLS
  {
    hide CursorAfter, Value, Pow2, RangeAfter;
    CursorParts(bits);
    CursorDenotes(bits);
    NextUnit(Value(bits), Pow2(BYTE_BITS - |bits|));
    RangeFits(BYTE_BITS, bits);
    ByteAlphabet();
  }

  lemma CursorNext(bits: seq<bool>, bit: bool)
    ensures CursorAfter(bits + [bit]) == CursorAfter(bits).Advance(bit)
  {
    assert (bits + [bit])[..|bits|] == bits;
  }

  // ---------- What an expert hands over ----------

  /** The symbol masses that an expert's CDF row describes. */
  function ByteMasses(cdf: seq<real>): (w: seq<real>)
    requires |cdf| > BYTE_SYMBOLS
    ensures |w| == BYTE_SYMBOLS && forall v :: 0 <= v < |w| ==> w[v] == cdf[v + 1] - cdf[v]
  {
    Increments(cdf[..BYTE_SYMBOLS + 1])
  }

  /** The mass of the symbols that start with `bits`. */
  function MassAt(cdf: seq<real>, bits: seq<bool>): real
    requires |cdf| > BYTE_SYMBOLS
  {
    ByteAlphabet();
    MatchMass(ByteMasses(cdf), MsbFirst, bits, BYTE_BITS)
  }

  /** An expert's probability for a 1 after `bits`: the mass that continues with 1, over the mass of `bits` raised to
      the floor, clamped. */
  function Handed(cdf: seq<real>, bits: seq<bool>, minProb: real): (p: real)
    requires |cdf| > BYTE_SYMBOLS && 0.0 < minProb < 0.5
    ensures minProb <= p <= 1.0 - minProb
  {
    Clamp(Max(MassAt(cdf, bits + [true]), 0.0) / Max(MassAt(cdf, bits), minProb), minProb, 1.0 - minProb)
  }

  lemma MassIsIncrease(cdf: seq<real>, bits: seq<bool>)
    requires |cdf| > BYTE_SYMBOLS && |bits| <= BYTE_BITS
    ensures var r := RangeAfter(BYTE_BITS, bits);
            r.lo < r.hi < |cdf| && MassAt(cdf, bits) == cdf[r.hi] - cdf[r.lo]
  {
    ByteAlphabet();
    IntervalMass(cdf[..BYTE_SYMBOLS + 1], BYTE_BITS, bits);
    hide RangeAfter, MatchMass, Increments;
  }

  lemma QuotientIs(r: MsbPrefixRange, cdf: seq<real>, minProb: real, one: real, mass: real)
    requires r.lo <= r.hi < |cdf| && r.Mid() < |cdf| && 0.0 < minProb < 0.5
    requires one == cdf[r.hi] - cdf[r.Mid()] && mass == cdf[r.hi] - cdf[r.lo]
    ensures r.ProbOne(cdf, minProb) == Clamp(Max(one, 0.0) / Max(mass, minProb), minProb, 1.0 - minProb)
  {
  }

  /** At the interval of any bits the walk reads what the expert hands over there. */
  lemma ProbOneIsHanded(cdf: seq<real>, bits: seq<bool>, minProb: real)
    requires |cdf| > BYTE_SYMBOLS && |bits| < BYTE_BITS && 0.0 < minProb < 0.5
    ensures CursorAfter(bits).range.lo <= CursorAfter(bits).range.hi < |cdf|
    ensures CursorAfter(bits).range.ProbOne(cdf, minProb) == Handed(cdf, bits, minProb)
  {
    hide RangeAfter, MassAt, CursorAfter, MsbPrefixRange.ProbOne, MsbPrefixRange.Mid;
    CursorParts(bits);
    MassIsIncrease(cdf, bits);
    MassIsIncrease(cdf, bits + [true]);
    RangeSplits(BYTE_BITS, bits);
    QuotientIs(RangeAfter(BYTE_BITS, bits), cdf, minProb, MassAt(cdf, bits + [true]), MassAt(cdf, bits));
  }

  lemma IncrementsNonNegative(cdf: seq<real>)
    requires |cdf| > BYTE_SYMBOLS && Nondecreasing(cdf)
    ensures forall v :: 0 <= v < BYTE_SYMBOLS ==> ByteMasses(cdf)[v] >= 0.0
  {
  }

  /** The mass that continues with 1 is the conditional's share of the mass of the bits. */
  lemma ConditionalMass(w: seq<real>, bits: seq<bool>)
    requires |w| == Pow2(BYTE_BITS) && |bits| < BYTE_BITS && forall v :: 0 <= v < |w| ==> w[v] >= 0.0
    ensures 0.0 <= MatchMass(w, MsbFirst, bits + [true], BYTE_BITS) <= MatchMass(w, MsbFirst, bits, BYTE_BITS)
    ensures Times(Conditional(w, MsbFirst, bits, BYTE_BITS), MatchMass(w, MsbFirst, bits, BYTE_BITS))
         == MatchMass(w, MsbFirst, bits + [true], BYTE_BITS)
  {
    hide MatchMass, Conditional, Pow2, Times;
    MatchSplits(w, MsbFirst, bits, BYTE_BITS);
    MatchNonNegative(w, MsbFirst, bits + [false], BYTE_BITS);
    MatchNonNegative(w, MsbFirst, bits + [true], BYTE_BITS);
    if MatchMass(w, MsbFirst, bits, BYTE_BITS) > 0.0 {
      ConditionalShare(w, MsbFirst, bits, true, BYTE_BITS);
    } else {
      TimesZero(Conditional(w, MsbFirst, bits, BYTE_BITS));
    }
  }

  lemma TimesZero(x: real)
    ensures Times(x, 0.0) == 0.0
  {
  }

  /** What an expert hands over is its conditional probability, clamped; where the bits carry less than the floor,
      scaled down by their mass over the floor first. */
  lemma HandedIsConditional(cdf: seq<real>, bits: seq<bool>, minProb: real)
    requires |cdf| > BYTE_SYMBOLS && Nondecreasing(cdf) && |bits| < BYTE_BITS && 0.0 < minProb < 0.5
    ensures |ByteMasses(cdf)| == Pow2(BYTE_BITS)
    ensures var p, mass := Conditional(ByteMasses(cdf), MsbFirst, bits, BYTE_BITS), MassAt(cdf, bits);
            && Handed(cdf, bits, minProb) == Clamp(Times(p, mass) / Max(mass, minProb), minProb, 1.0 - minProb)
            && (mass >= minProb ==> Handed(cdf, bits, minProb) == Clamp(p, minProb, 1.0 - minProb))
  {
    hide MatchMass, ByteMasses, Conditional, Times, Clamp, Nondecreasing;
    ByteAlphabet();
    IncrementsNonNegative(cdf);
    ConditionalMass(ByteMasses(cdf), bits);
    if MassAt(cdf, bits) >= minProb {
      WholeShare(Conditional(ByteMasses(cdf), MsbFirst, bits, BYTE_BITS), MassAt(cdf, bits));
    }
  }

  // ---------- What the mixer sees ----------

  function HandedAll(q: Query, bits: seq<bool>): (r: seq<real>)
    requires QueryFits(q, |q.cdfs|)
    ensures |r| == |q.cdfs| && forall i :: 0 <= i < |r| ==> r[i] == Handed(q.cdfs[i], bits, q.minProb)
  {
    seq(|q.cdfs|, i requires 0 <= i < |q.cdfs| => Handed(q.cdfs[i], bits, q.minProb))
  }

  /** The context of the bit that follows `bits`: how many they are, and their number behind a leading 1. */
  function PrefixContext(q: Query, bits: seq<bool>): MixContext
    requires |bits| < BYTE_BITS
  {
    CodeFits(bits);
    MixContext(q.history, |bits|, Pow2(|bits|) + Value(bits), q.matchLenBucket, q.matchPredictedClass)
  }

  lemma CodeFits(bits: seq<bool>)
    requires |bits| < BYTE_BITS
    ensures Pow2(|bits|) + Value(bits) < 256
  {
    ByteAlphabet();
    ValueBound(bits);
    Pow2Monotone(|bits|, BYTE_BITS);
  }

  lemma ContextIs(q: Query, bits: seq<bool>)
    requires |bits| < BYTE_BITS
    ensures CursorAfter(bits).bitIdx < BYTE_BITS && ContextAt(q, CursorAfter(bits)) == PrefixContext(q, bits)
  {
    hide CursorAfter, Pow2, Value;
    CursorDenotes(bits);
  }

  lemma ExpertsHand(q: Query, bits: seq<bool>)
    requires QueryFits(q, |q.cdfs|) && |bits| < BYTE_BITS
    ensures CursorAfter(bits).range.lo <= CursorAfter(bits).range.hi <= BYTE_SYMBOLS
    ensures ExpertProbs(q, CursorAfter(bits)) == HandedAll(q, bits)
  {
    hide CursorAfter, Handed, MsbPrefixRange.ProbOne;
    CursorCanRead(bits);
    forall i | 0 <= i < |q.cdfs|
      ensures CursorAfter(bits).range.ProbOne(q.cdfs[i], q.minProb) == Handed(q.cdfs[i], bits, q.minProb)
    {
      ProbOneIsHanded(q.cdfs[i], bits, q.minProb);
    }
  }

  /** The mixer's answer to what the experts hand over after `bits`. */
  function Answered(f: Curves, q: Query, s: CoreState, bits: seq<bool>): (r: CoreState)
    requires WellFormed(s) && QueryFits(q, s.expertCount) && |bits| < BYTE_BITS
    ensures WellFormed(r) && r.expertCount == s.expertCount
  {
    PredictBit(f, SetContext(s, PrefixContext(q, bits)), HandedAll(q, bits), q.minProb)
  }

  /** After any bits of a walk the mixer predicts in the context of exactly these bits, from the probabilities the
      experts hand over there. */
  lemma BitIsAnswered(f: Curves, q: Query, s: CoreState, bits: seq<bool>)
    requires WellFormed(s) && QueryFits(q, s.expertCount) && |bits| < BYTE_BITS
    ensures var c := CursorAfter(bits);
            && c.bitIdx < BYTE_BITS && c.range.lo <= c.range.hi <= BYTE_SYMBOLS
            && BytePdf.Predicted(f, q, s, c) == Answered(f, q, s, bits)
  {
    hide CursorAfter, PrefixContext, HandedAll, PredictBit, SetContext;
    CursorCanRead(bits);
    ContextIs(q, bits);
    ExpertsHand(q, bits);
  }
}
