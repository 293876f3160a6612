/** What the 256 scores are, in terms of the experts: bit by bit the mixer's answer to the
    probabilities they hand over; for one trusted expert, that expert's own byte distribution. */
module ByteScoreLaws {
  import opened RealMath
  import opened LogMath
  import opened StretchMixer
  import opened StretchMixerLaws
  import opened LogisticLaws
  import opened BytePrefix
  import opened BitTree
  import opened PrefixMass
  import opened PrefixViews
  import opened BytePdf
  import opened WalkViews
  import opened BytePdfSession

  // ---------- Scores along a symbol's bits ----------

  /** The mixer that meets the next bit: trained on `bit` in adaptive mode, as it was in frozen mode. */
  function Learned(f: Curves, q: Query, mode: ScoringMode, s: CoreState, bits: seq<bool>, bit: bool): (r: CoreState)
    requires WellFormed(s) && QueryFits(q, s.expertCount) && |bits| < BYTE_BITS
    ensures WellFormed(r) && r.expertCount == s.expertCount
  {
    if mode.Adaptive? then UpdateLast(Answered(f, q, s, bits), bit) else s
  }

  /** The probability of `rest` after `bits`: the mixer's answers multiplied bit by bit. */
  function ScoreAlong(f: Curves, q: Query, mode: ScoringMode, s: CoreState, bits: seq<bool>, rest: seq<bool>): real
    requires WellFormed(s) && QueryFits(q, s.expertCount) && |bits| + |rest| == BYTE_BITS
    decreases |rest|
  {
    if rest == [] then 1.0
    else
      Times(BitProb(Answered(f, q, s, bits).lastProbOne, rest[0]),
            ScoreAlong(f, q, mode, Learned(f, q, mode, s, bits, rest[0]), bits + [rest[0]], rest[1..]))
  }

  /** In adaptive mode `t` is `s`; in frozen mode its caches may differ, but not its parameters. */
  predicate StandsFor(mode: ScoringMode, t: CoreState, s: CoreState)
  {
    t.expertCount == s.expertCount &&
    if mode.Adaptive? then t == s else SameParameters(t, s) && Coherent(t) && Coherent(s)
  }

  lemma NextIs(f: Curves, q: Query, s: CoreState, c: Cursor, bit: bool)
    requires WellFormed(s) && QueryFits(q, s.expertCount)
    requires c.bitIdx < BYTE_BITS && c.range.lo <= c.range.hi <= BYTE_SYMBOLS
    ensures Next(f, q, Adaptive, s, c, bit) == UpdateLast(BytePdf.Predicted(f, q, s, c), bit)
  {
  }

  lemma StaysParameters(next: CoreState, t: CoreState, s: CoreState)
    requires StandsFor(Frozen, t, s) && SameParameters(next, t) && Coherent(next)
    ensures StandsFor(Frozen, next, s)
  {
    hide Coherent;
  }

  lemma FrozenStands(t: CoreState, s: CoreState)
    requires StandsFor(Frozen, t, s)
    ensures SameParameters(t, s) && Coherent(t) && Coherent(s)
  {
  }

  /** The walk's mixer `t` predicts what `s` answers, and its successor stands for what `s` learns. */
  lemma WalkAgrees(f: Curves, q: Query, mode: ScoringMode, t: CoreState, s: CoreState, bits: seq<bool>, bit: bool)
    requires WellFormed(t) && WellFormed(s) && StandsFor(mode, t, s) && t.expertCount == s.expertCount
    requires QueryFits(q, s.expertCount) && |bits| < BYTE_BITS
    ensures var c := CursorAfter(bits);
            && c.bitIdx < BYTE_BITS && c.range.lo <= c.range.hi <= BYTE_SYMBOLS
            && BytePdf.Predicted(f, q, t, c).lastProbOne == Answered(f, q, s, bits).lastProbOne
            && StandsFor(mode, Next(f, q, mode, t, c, bit), Learned(f, q, mode, s, bits, bit))
  {
    var c := CursorAfter(bits);
    hide CursorAfter, BytePdf.Predicted, Answered, Next, WellFormed, QueryFits, Coherent, SameParameters, UpdateLast,
         CanRead;
    BitIsAnswered(f, q, s, bits);
    if mode.Adaptive? {
      NextIs(f, q, s, c, bit);
    } else {
      hide StandsFor;
      FrozenStands(t, s);
      FrozenBit(f, q, t, s, c, bit);
      StaysParameters(Next(f, q, Frozen, t, c, bit), t, s);
    }
  }

  lemma WalkStep(p: real, conditionals: seq<real>, rest: real)
    requires Product(conditionals) == rest
    ensures Product([p] + conditionals) == Times(p, rest)
  {
    ProductFirst(p, conditionals);
  }

  lemma ScoreUnrolls(f: Curves, q: Query, mode: ScoringMode, s: CoreState, bits: seq<bool>, rest: seq<bool>,
                     below: real)
    requires WellFormed(s) && QueryFits(q, s.expertCount) && |bits| + |rest| == BYTE_BITS && rest != []
    requires below == ScoreAlong(f, q, mode, Learned(f, q, mode, s, bits, rest[0]), bits + [rest[0]], rest[1..])
    ensures ScoreAlong(f, q, mode, s, bits, rest) == Times(BitProb(Answered(f, q, s, bits).lastProbOne, rest[0]), below)
  {
  }

  lemma EmptyWalk(f: Curves, q: Query, mode: ScoringMode, t: CoreState, s: CoreState, u: UndoState, bits: seq<bool>)
    requires WellFormed(t) && WellFormed(s) && StandsFor(mode, t, s) && QueryFits(q, s.expertCount)
    requires |bits| == BYTE_BITS && CanRead(CursorAfter(bits), 0)
    ensures Product(WalkPath(f, q, mode, t, u, CursorAfter(bits), []).conditionals)
         == ScoreAlong(f, q, mode, s, bits, [])
  {
  }

  /** A walk multiplies exactly the mixer's answers. */
  lemma {:induction false} WalkScores(f: Curves, q: Query, mode: ScoringMode, t: CoreState, s: CoreState,
                                      u: UndoState, bits: seq<bool>, rest: seq<bool>)
    requires WellFormed(t) && WellFormed(s) && StandsFor(mode, t, s) && t.expertCount == s.expertCount
    requires QueryFits(q, s.expertCount) && |bits| + |rest| == BYTE_BITS && CanRead(CursorAfter(bits), |rest|)
    ensures Product(WalkPath(f, q, mode, t, u, CursorAfter(bits), rest).conditionals)
         == ScoreAlong(f, q, mode, s, bits, rest)
    decreases |rest|
  {
    hide *;
    if rest == [] {
      EmptyWalk(f, q, mode, t, s, u, bits);
    } else {
      var c := CursorAfter(bits);
      WalkAgrees(f, q, mode, t, s, bits, rest[0]);
      WalkUnrolls(f, q, mode, t, u, c, rest);
      CursorNext(bits, rest[0]);
      var next, v := Next(f, q, mode, t, c, rest[0]), NextUndo(f, q, mode, t, u, c);
      var below := ScoreAlong(f, q, mode, Learned(f, q, mode, s, bits, rest[0]), bits + [rest[0]], rest[1..]);
      WalkScores(f, q, mode, next, Learned(f, q, mode, s, bits, rest[0]), v, bits + [rest[0]], rest[1..]);
      WalkStep(BitProb(BytePdf.Predicted(f, q, t, c).lastProbOne, rest[0]),
               WalkPath(f, q, mode, next, v, c.Advance(rest[0]), rest[1..]).conditionals, below);
      ScoreUnrolls(f, q, mode, s, bits, rest, below);
    }
  }

  /** Every score is the product of the mixer's answers along the symbol's bits. */
  lemma ScoresFollowExperts(f: Curves, q: Query, mode: ScoringMode, s: CoreState, symbol: nat)
    requires WellFormed(s) && Coherent(s) && QueryFits(q, s.expertCount) && symbol < BYTE_SYMBOLS
    ensures symbol < Pow2(BYTE_BITS)
    ensures ByteScores(f, q, mode, s)[symbol] == ScoreAlong(f, q, mode, s, [], BitsOf(symbol, BYTE_BITS))
  {
    hide WellFormed, Coherent, QueryFits, WalkPath, ScoreAlong, Pdf, BitsOf, Pow2, Product;
    ByteAlphabet();
    CursorCanRead([]);
    assert CursorAfter([]) == START;
    ScoreIsPdfEntry(f, q, mode, s, BeginUndo(s), START, BYTE_BITS, symbol);
    WalkScores(f, q, mode, s, s, BeginUndo(s), [], BitsOf(symbol, BYTE_BITS));
  }

  // ---------- One trusted expert ----------

  /** The only expert's selected weights total 1 in every context. */
  ghost predicate Trusted(s: CoreState)
  {
    WellFormed(s) && s.expertCount == 1 &&
    forall context: MixContext :: WeightTo(SetContext(s, context), 0, CONTEXTS) == 1.0
  }

  lemma FreshParts(s: CoreState, priors: seq<real>, learningRate: real)
    requires Initial(s, priors, learningRate)
    ensures WellFormed(s) && Coherent(s) && s.expertCount == |priors|
  {
    hide PriorTables, ContextIndices, Clipped;
    InitialIsValid(s, s, priors, learningRate);
  }

  /** A fresh mixer trusts its only expert when that has prior 1. */
  lemma FreshIsTrusted(s: CoreState, learningRate: real)
    requires Initial(s, [1.0], learningRate)
    ensures Trusted(s) && Coherent(s)
  {
    hide Initial, WeightTo, Coherent, ContextIndices, Shaped;
    FreshParts(s, [1.0], learningRate);
    forall context: MixContext ensures WeightTo(SetContext(s, context), 0, CONTEXTS) == 1.0 {
      FreshWeights(s, [1.0], learningRate, context, 0);
    }
  }

  /** What is left of an expert's probability after the floor and the clip of the log odds. */
  function Believed(exp: real -> real, cdf: seq<real>, minProb: real, bits: seq<bool>): real
    requires ExpFacts(exp) && |cdf| > BYTE_SYMBOLS && 0.0 < minProb < 0.5
  {
    Held(exp, Floored(Handed(cdf, bits, minProb), minProb))
  }

  function BelievedAlong(exp: real -> real, cdf: seq<real>, minProb: real, bits: seq<bool>, rest: seq<bool>): real
    requires ExpFacts(exp) && |cdf| > BYTE_SYMBOLS && 0.0 < minProb < 0.5
    decreases |rest|
  {
    if rest == [] then 1.0
    else Times(BitProb(Believed(exp, cdf, minProb, bits), rest[0]),
               BelievedAlong(exp, cdf, minProb, bits + [rest[0]], rest[1..]))
  }

  lemma TrustedContext(s: CoreState, context: MixContext)
    requires Trusted(s)
    ensures WellFormed(SetContext(s, context)) && SetContext(s, context).expertCount == 1
    ensures Sum(TotalWeights(SetContext(s, context))) == 1.0
  {
    hide WeightTo, Sum;
    SumOne(TotalWeights(SetContext(s, context)));
  }

  lemma TrustedAnswer(exp: real -> real, ln: real -> real, q: Query, s: CoreState, bits: seq<bool>)
    requires LogLaws(exp, ln) && Trusted(s) && QueryFits(q, 1) && |bits| < BYTE_BITS
    ensures Answered(LogisticCurves(exp, ln), q, s, bits).lastProbOne == Believed(exp, q.cdfs[0], q.minProb, bits)
  {
    hide SetContext, PrefixContext, PredictBit, Held, Floored, Handed, TotalWeights, Sum, Trusted, WellFormed;
    var t := SetContext(s, PrefixContext(q, bits));
    TrustedContext(s, PrefixContext(q, bits));
    UnanimousExpertsAreEchoed(exp, ln, t, HandedAll(q, bits), Handed(q.cdfs[0], bits, q.minProb), q.minProb);
  }

  lemma TrustedIsWellFormed(s: CoreState)
    requires Trusted(s)
    ensures WellFormed(s) && s.expertCount == 1
  {
  }

  lemma FrozenUnrolls(f: Curves, q: Query, s: CoreState, bits: seq<bool>, rest: seq<bool>)
    requires WellFormed(s) && QueryFits(q, s.expertCount) && |bits| + |rest| == BYTE_BITS && rest != []
    ensures ScoreAlong(f, q, Frozen, s, bits, rest)
         == Times(BitProb(Answered(f, q, s, bits).lastProbOne, rest[0]),
                  ScoreAlong(f, q, Frozen, s, bits + [rest[0]], rest[1..]))
  {
  }

  lemma QueryParts(q: Query)
    requires QueryFits(q, 1)
    ensures |q.cdfs| == 1 && |q.cdfs[0]| > BYTE_SYMBOLS && 0.0 < q.minProb < 0.5
  {
  }

  lemma {:induction false} TrustedAlong(exp: real -> real, ln: real -> real, q: Query, s: CoreState, bits: seq<bool>,
                                        rest: seq<bool>)
    requires LogLaws(exp, ln) && Trusted(s) && QueryFits(q, 1) && |bits| + |rest| == BYTE_BITS
    ensures ScoreAlong(LogisticCurves(exp, ln), q, Frozen, s, bits, rest)
         == BelievedAlong(exp, q.cdfs[0], q.minProb, bits, rest)
    decreases |rest|
  {
    hide LogLaws, Trusted, QueryFits, WellFormed, Answered, Believed, Learned, LogisticCurves, Times, BitProb, ExpFacts;
    TrustedIsWellFormed(s);
    LogLawsFacts(exp, ln);
    QueryParts(q);
    if rest != [] {
      hide ScoreAlong;
      TrustedAnswer(exp, ln, q, s, bits);
      TrustedAlong(exp, ln, q, s, bits + [rest[0]], rest[1..]);
      FrozenUnrolls(LogisticCurves(exp, ln), q, s, bits, rest);
    }
  }

  /** With one trusted expert the frozen score of every symbol is the product, along the symbol's bits, of the
      probabilities the expert hands over, each inside the floor and the clip. */
  lemma TrustedExpertScores(exp: real -> real, ln: real -> real, q: Query, s: CoreState, symbol: nat)
    requires LogLaws(exp, ln) && Trusted(s) && Coherent(s) && QueryFits(q, 1) && symbol < BYTE_SYMBOLS
    ensures symbol < Pow2(BYTE_BITS)
    ensures ByteScores(LogisticCurves(exp, ln), q, Frozen, s)[symbol]
         == BelievedAlong(exp, q.cdfs[0], q.minProb, [], BitsOf(symbol, BYTE_BITS))
  {
    hide LogLaws, Trusted, QueryFits, WellFormed, Coherent, LogisticCurves, ScoreAlong, BelievedAlong, BitsOf, Pow2,
         ByteScores, ExpFacts;
    ByteAlphabet();
    TrustedIsWellFormed(s);
    LogLawsFacts(exp, ln);
    QueryParts(q);
    ScoresFollowExperts(LogisticCurves(exp, ln), q, Frozen, s, symbol);
    TrustedAlong(exp, ln, q, s, [], BitsOf(symbol, BYTE_BITS));
  }

  // ---------- Where no clamp bites ----------

  /** After `bits` the expert's mass reaches the floor, and its conditional probability lies inside every clamp. */
  ghost predicate Unclamped(exp: real -> real, cdf: seq<real>, minProb: real, bits: seq<bool>)
    requires ExpFacts(exp) && |cdf| > BYTE_SYMBOLS && 0.0 < minProb < 0.5
  {
    ByteAlphabet();
    var p := Conditional(ByteMasses(cdf), MsbFirst, bits, BYTE_BITS);
    && MassAt(cdf, bits) >= minProb
    && minProb <= p <= 1.0 - minProb
    && ProbFloor(minProb) <= p <= 1.0 - ProbFloor(minProb)
    && Sigmoid(exp, -16.0) <= p <= Sigmoid(exp, 16.0)
  }

  lemma BelievedConditional(exp: real -> real, cdf: seq<real>, minProb: real, bits: seq<bool>)
    requires ExpFacts(exp) && |cdf| > BYTE_SYMBOLS && 0.0 < minProb < 0.5
    requires Nondecreasing(cdf) && |bits| < BYTE_BITS && Unclamped(exp, cdf, minProb, bits)
    ensures |ByteMasses(cdf)| == Pow2(BYTE_BITS)
    ensures Believed(exp, cdf, minProb, bits) == Conditional(ByteMasses(cdf), MsbFirst, bits, BYTE_BITS)
  {
    hide Conditional, MassAt, Sigmoid, ProbFloor, Handed, Nondecreasing, ByteMasses, ExpFacts;
    ByteAlphabet();
    HandedIsConditional(cdf, bits, minProb);
  }

  lemma ChainUnrolls(w: seq<real>, bits: seq<bool>, rest: seq<bool>)
    requires |w| == Pow2(BYTE_BITS) && rest != []
    ensures ChainProduct(w, MsbFirst, bits, rest, BYTE_BITS)
         == Times(BitProb(Conditional(w, MsbFirst, bits, BYTE_BITS), rest[0]),
                  ChainProduct(w, MsbFirst, bits + [rest[0]], rest[1..], BYTE_BITS))
  {
  }

  lemma {:induction false} BelievedChain(exp: real -> real, cdf: seq<real>, minProb: real, bits: seq<bool>,
                                         rest: seq<bool>)
    requires ExpFacts(exp) && |cdf| > BYTE_SYMBOLS && 0.0 < minProb < 0.5
    requires Nondecreasing(cdf) && |bits| + |rest| == BYTE_BITS
    requires forall k :: |bits| <= k < BYTE_BITS ==> Unclamped(exp, cdf, minProb, (bits + rest)[..k])
    ensures |ByteMasses(cdf)| == Pow2(BYTE_BITS)
    ensures BelievedAlong(exp, cdf, minProb, bits, rest)
         == ChainProduct(ByteMasses(cdf), MsbFirst, bits, rest, BYTE_BITS)
    decreases |rest|
  {
    hide ExpFacts, Nondecreasing, Unclamped, Believed, Conditional, ByteMasses, Times, BitProb, Pow2;
    ByteAlphabet();
    if rest != [] {
      hide ChainProduct;
      assert (bits + rest)[..|bits|] == bits;
      assert bits + [rest[0]] + rest[1..] == bits + rest;
      BelievedConditional(exp, cdf, minProb, bits);
      BelievedChain(exp, cdf, minProb, bits + [rest[0]], rest[1..]);
      ChainUnrolls(ByteMasses(cdf), bits, rest);
    }
  }

  /** Where no clamp bites along a symbol's bits, a trusted expert's frozen score is its own normalised mass of the
      symbol: that mass over the total mass of its row. */
  lemma TrustedExpertIsReproduced(exp: real -> real, ln: real -> real, q: Query, s: CoreState, symbol: nat)
    requires LogLaws(exp, ln) && Trusted(s) && Coherent(s) && QueryFits(q, 1) && symbol < BYTE_SYMBOLS < |q.cdfs[0]|
    requires Nondecreasing(q.cdfs[0]) && symbol < Pow2(BYTE_BITS)
    requires forall k :: 0 <= k < BYTE_BITS ==> Unclamped(exp, q.cdfs[0], q.minProb, BitsOf(symbol, BYTE_BITS)[..k])
    ensures var cdf := q.cdfs[0];
            && cdf[BYTE_SYMBOLS] - cdf[0] > 0.0
            && ByteScores(LogisticCurves(exp, ln), q, Frozen, s)[symbol]
               == (cdf[symbol + 1] - cdf[symbol]) / (cdf[BYTE_SYMBOLS] - cdf[0])
  {
    hide LogLaws, Trusted, QueryFits, Coherent, LogisticCurves, ByteScores, BelievedAlong, BitsOf, Pow2, Nondecreasing,
         ExpFacts, Unclamped, MatchMass, ChainProduct, ByteMasses;
    ByteAlphabet();
    LogLawsFacts(exp, ln);
    QueryParts(q);
    var cdf, bits := q.cdfs[0], BitsOf(symbol, BYTE_BITS);
    var w := ByteMasses(cdf);
    TrustedExpertScores(exp, ln, q, s, symbol);
    assert [] + bits == bits;
    BelievedChain(exp, cdf, q.minProb, [], bits);
    IncrementsNonNegative(cdf);
    RootMass(exp, cdf, q.minProb, bits);
    BitsSymbol(MsbFirst, symbol, BYTE_BITS);
    assert OrderBits(MsbFirst, symbol, BYTE_BITS) == bits;
    ChainRule(w, MsbFirst, [], bits, BYTE_BITS);
    QuotientOf(ChainProduct(w, MsbFirst, [], bits, BYTE_BITS), cdf[BYTE_SYMBOLS] - cdf[0], w[symbol]);
  }

  lemma QuotientOf(x: real, total: real, part: real)
    requires total > 0.0 && Times(x, total) == part
    ensures x == part / total
  {
  }

  lemma RootMass(exp: real -> real, cdf: seq<real>, minProb: real, bits: seq<bool>)
    requires ExpFacts(exp) && |cdf| > BYTE_SYMBOLS && 0.0 < minProb < 0.5 && |bits| == BYTE_BITS
    requires Unclamped(exp, cdf, minProb, bits[..0])
    ensures |ByteMasses(cdf)| == Pow2(BYTE_BITS)
    ensures MatchMass(ByteMasses(cdf), MsbFirst, [], BYTE_BITS) == cdf[BYTE_SYMBOLS] - cdf[0] > 0.0
  {
    hide Conditional, Sigmoid, ProbFloor, ExpFacts, MatchMass;
    ByteAlphabet();
    assert bits[..0] == [];
    MassIsIncrease(cdf, []);
  }
}
