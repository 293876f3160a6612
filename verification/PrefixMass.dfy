/** Conditional bit probabilities from a heap of subtree masses, in both bit orders, and their
    agreement with direct sums, with the CDF interval walk and with the prefix code. */
module PrefixMass {
  import opened RealMath
  import opened BytePrefix
  import opened BitTree

  datatype BitOrder = MsbFirst | LsbFirst

  function Reverse(bits: seq<bool>): (r: seq<bool>)
    ensures |r| == |bits|
  {
    if bits == [] then [] else Reverse(bits[1..]) + [bits[0]]
  }

  /** The bits of `v` in the order a stream delivers them. */
  function OrderBits(order: BitOrder, v: nat, d: nat): (bits: seq<bool>)
    requires v < Pow2(d)
    ensures |bits| == d
  {
    match order
    case MsbFirst => BitsOf(v, d)
    case LsbFirst => Reverse(BitsOf(v, d))
  }

  /** The symbol whose bits arrive as `bits`. */
  function SymbolOf(order: BitOrder, bits: seq<bool>): nat
  {
    match order
    case MsbFirst => Value(bits)
    case LsbFirst => Value(Reverse(bits))
  }

  /** `reverse_bits` on `d`-bit numbers. */
  function ReverseBits(v: nat, d: nat): nat
  {
    if d == 0 then 0 else (v % 2) * Pow2(d - 1) + ReverseBits(v / 2, d - 1)
  }

  function LeafOffset(order: BitOrder, v: nat, d: nat): nat
  {
    match order
    case MsbFirst => v
    case LsbFirst => ReverseBits(v, d)
  }

  lemma {:induction false} ReverseTwice(bits: seq<bool>)
    ensures Reverse(Reverse(bits)) == bits
  {
    if bits != [] {
      ReverseTwice(bits[1..]);
      ReverseAppend(Reverse(bits[1..]), bits[0]);
    }
  }

  lemma {:induction false} ReverseAppend(bits: seq<bool>, b: bool)
    ensures Reverse(bits + [b]) == [b] + Reverse(bits)
  {
    if bits != [] {
      ReverseAppend(bits[1..], b);
      assert (bits + [b])[1..] == bits[1..] + [b];
    }
  }

  lemma {:induction false} ReverseBitsValue(bits: seq<bool>)
    ensures ReverseBits(Value(bits), |bits|) == Value(Reverse(bits))
  {
    if bits != [] {
      var front, last := bits[..|bits| - 1], bits[|bits| - 1];
      ReverseBitsValue(front);
      ReverseAppend(front, last);
      assert bits == front + [last];
      ValueFirst(Reverse(bits));
      assert Reverse(bits)[1..] == Reverse(front);
      assert Value(bits) / 2 == Value(front) && Value(bits) % 2 == Bit(last);
    }
  }

  lemma SymbolBits(order: BitOrder, bits: seq<bool>)
    ensures var v := SymbolOf(order, bits);
            && v < Pow2(|bits|)
            && OrderBits(order, v, |bits|) == bits
            && LeafOffset(order, v, |bits|) == Value(bits)
  {
    var msb := if order.MsbFirst? then bits else Reverse(bits);
    BitsOfValue(msb);
    if order.LsbFirst? {
      ReverseTwice(bits);
      ReverseBitsValue(msb);
    }
  }

  lemma BitsSymbol(order: BitOrder, v: nat, d: nat)
    requires v < Pow2(d)
    ensures SymbolOf(order, OrderBits(order, v, d)) == v
  {
    ValueOfBits(v, d);
    ReverseTwice(BitsOf(v, d));
  }

  // ---------- Masses summed directly ----------

  /** The symbols whose bits start with `prefix` keep their mass, all others count 0. */
  function Matching(w: seq<real>, order: BitOrder, prefix: seq<bool>, d: nat): (r: seq<real>)
    requires |w| == Pow2(d)
    ensures |r| == |w|
    ensures forall v :: 0 <= v < |w| ==> r[v] == if prefix <= OrderBits(order, v, d) then w[v] else 0.0
  {
    seq(|w|, v requires 0 <= v < |w| => if prefix <= OrderBits(order, v, d) then w[v] else 0.0)
  }

  /** The total mass of the symbols that start with `prefix`. */
  function MatchMass(w: seq<real>, order: BitOrder, prefix: seq<bool>, d: nat): real
    requires |w| == Pow2(d)
  {
    Sum(Matching(w, order, prefix, d))
  }

  lemma {:induction false} SumSplit(a: seq<real>, b: seq<real>, c: seq<real>)
    requires |a| == |b| == |c| && forall i :: 0 <= i < |a| ==> c[i] == a[i] + b[i]
    ensures Sum(c) == Sum(a) + Sum(b)
  {
    if a != [] {
      var n := |a| - 1;
      SumSplit(a[..n], b[..n], c[..n]);
    }
  }

  lemma {:induction false} SumSingle(s: seq<real>, k: nat)
    requires k < |s| && forall i :: 0 <= i < |s| && i != k ==> s[i] == 0.0
    ensures Sum(s) == s[k]
  {
    var n := |s| - 1;
    if k == n {
      SumZeros(s[..n]);
    } else {
      SumSingle(s[..n], k);
    }
  }

  lemma {:induction false} SumBounds(s: seq<real>)
    requires forall i :: 0 <= i < |s| ==> s[i] >= 0.0
    ensures Sum(s) >= 0.0
    ensures forall i :: 0 <= i < |s| ==> s[i] <= Sum(s)
  {
    if s != [] { SumBounds(s[..|s| - 1]); }
  }

  /** A prefix's mass is shared out between its two one-bit extensions. */
  lemma MatchSplits(w: seq<real>, order: BitOrder, prefix: seq<bool>, d: nat)
    requires |w| == Pow2(d) && |prefix| < d
    ensures MatchMass(w, order, prefix, d)
         == MatchMass(w, order, prefix + [false], d) + MatchMass(w, order, prefix + [true], d)
  {
    var zero, one := Matching(w, order, prefix + [false], d), Matching(w, order, prefix + [true], d);
    var all := Matching(w, order, prefix, d);
    forall v | 0 <= v < |w| ensures all[v] == zero[v] + one[v] {
      PrefixExtends(prefix, OrderBits(order, v, d));
    }
    hide Sum, Matching;
    SumSplit(zero, one, all);
  }

  lemma PrefixExtends(prefix: seq<bool>, bits: seq<bool>)
    requires |prefix| < |bits|
    ensures prefix <= bits <==> prefix + [false] <= bits || prefix + [true] <= bits
    ensures !(prefix + [false] <= bits && prefix + [true] <= bits)
  {
    if prefix <= bits {
      var b := bits[|prefix|];
      assert prefix + [b] <= bits;
      assert (prefix + [!b])[|prefix|] != bits[|prefix|];
    } else {
      assert (prefix + [false])[..|prefix|] == prefix == (prefix + [true])[..|prefix|];
    }
  }

  lemma OnlySymbol(order: BitOrder, bits: seq<bool>, v: nat, d: nat)
    requires v < Pow2(d) && |bits| == d
    ensures bits <= OrderBits(order, v, d) ==> v == SymbolOf(order, bits)
  {
    BitsSymbol(order, v, d);
    if bits <= OrderBits(order, v, d) { assert bits == OrderBits(order, v, d); }
  }

  /** A full prefix is the mass of exactly one symbol. */
  lemma MatchOne(w: seq<real>, order: BitOrder, bits: seq<bool>, d: nat)
    requires |w| == Pow2(d) && |bits| == d
    ensures SymbolOf(order, bits) < |w| && MatchMass(w, order, bits, d) == w[SymbolOf(order, bits)]
  {
    var k := SymbolOf(order, bits);
    SymbolBits(order, bits);
    var matches := Matching(w, order, bits, d);
    forall v | 0 <= v < |w| && v != k ensures matches[v] == 0.0 {
      OnlySymbol(order, bits, v, d);
    }
    SumSingle(matches, k);
  }

  lemma MatchAll(w: seq<real>, order: BitOrder, d: nat)
    requires |w| == Pow2(d)
    ensures MatchMass(w, order, [], d) == Sum(w)
  {
    assert Matching(w, order, [], d) == w;
  }

  lemma MatchNonNegative(w: seq<real>, order: BitOrder, prefix: seq<bool>, d: nat)
    requires |w| == Pow2(d) && forall v :: 0 <= v < |w| ==> w[v] >= 0.0
    ensures MatchMass(w, order, prefix, d) >= 0.0
  {
    SumBounds(Matching(w, order, prefix, d));
  }

  // ---------- The heap of subtree masses ----------

  /** The heap node reached by `bits`: root 1, children `2 * node` and `2 * node + 1`. */
  function NodeOf(bits: seq<bool>): (node: nat)
  {
    Pow2(|bits|) + Value(bits)
  }

  lemma NodeStep(bits: seq<bool>, b: bool)
    ensures NodeOf(bits + [b]) == 2 * NodeOf(bits) + Bit(b)
  {
    assert (bits + [b])[..|bits|] == bits;
  }

  /** Leaves hold the symbols' masses in stream order, inner nodes the sums of their children. */
  predicate MassTree(tree: seq<real>, w: seq<real>, order: BitOrder, d: nat)
  {
    && |w| == Pow2(d) && |tree| == 2 * Pow2(d)
    && (forall v :: 0 <= v < |w| ==>
          Pow2(d) + LeafOffset(order, v, d) < |tree| && tree[Pow2(d) + LeafOffset(order, v, d)] == w[v])
    && (forall node :: 1 <= node < Pow2(d) ==> tree[node] == tree[2 * node] + tree[2 * node + 1])
  }

  lemma NodeFits(bits: seq<bool>, d: nat)
    requires |bits| <= d
    ensures 1 <= NodeOf(bits) < 2 * Pow2(d)
    ensures |bits| < d ==> NodeOf(bits) < Pow2(d)
  {
    ValueBound(bits);
    Pow2Monotone(|bits|, d);
    if |bits| < d { Pow2Monotone(|bits| + 1, d); }
  }

  lemma InnerNode(tree: seq<real>, w: seq<real>, order: BitOrder, d: nat, node: nat)
    requires MassTree(tree, w, order, d) && 1 <= node < Pow2(d)
    ensures |w| == Pow2(d) && |tree| == 2 * Pow2(d) && tree[node] == tree[2 * node] + tree[2 * node + 1]
  {
  }

  /** The node of `bits` holds the mass summed directly over the symbols below it. */
  predicate NodeHolds(tree: seq<real>, w: seq<real>, order: BitOrder, d: nat, bits: seq<bool>)
  {
    |w| == Pow2(d) && NodeOf(bits) < |tree| && tree[NodeOf(bits)] == MatchMass(w, order, bits, d)
  }

  lemma LeafHolds(tree: seq<real>, w: seq<real>, order: BitOrder, d: nat, bits: seq<bool>)
    requires MassTree(tree, w, order, d) && |bits| == d
    ensures NodeHolds(tree, w, order, d, bits)
  {
    SymbolBits(order, bits);
    MatchOne(w, order, bits, d);
    hide MatchMass, OrderBits;
  }

  lemma InnerHolds(tree: seq<real>, w: seq<real>, order: BitOrder, d: nat, bits: seq<bool>)
    requires MassTree(tree, w, order, d) && |bits| < d
    requires NodeHolds(tree, w, order, d, bits + [false]) && NodeHolds(tree, w, order, d, bits + [true])
    ensures NodeHolds(tree, w, order, d, bits)
  {
    hide MatchMass, MassTree, NodeOf, Pow2, Value;
    NodeFits(bits, d);
    InnerNode(tree, w, order, d, NodeOf(bits));
    NodeStep(bits, false);
    NodeStep(bits, true);
    MatchSplits(w, order, bits, d);
  }

  /** Every node of the heap holds the mass summed directly over the symbols below it. */
  lemma {:induction false} NodeMass(tree: seq<real>, w: seq<real>, order: BitOrder, d: nat, bits: seq<bool>)
    requires MassTree(tree, w, order, d) && |bits| <= d
    ensures NodeHolds(tree, w, order, d, bits)
    decreases d - |bits|
  {
    hide NodeHolds, MassTree;
    if |bits| == d {
      LeafHolds(tree, w, order, d, bits);
    } else {
      NodeMass(tree, w, order, d, bits + [false]);
      NodeMass(tree, w, order, d, bits + [true]);
      InnerHolds(tree, w, order, d, bits);
    }
  }

  // ---------- Predictions ----------

  function Ratio(part: real, total: real): real
    requires total > 0.0
  {
    part / total
  }

  /** `P(1)` after `bits` as the ratio of directly summed masses; 1/2 on a massless prefix. */
  function Conditional(w: seq<real>, order: BitOrder, bits: seq<bool>, d: nat): real
    requires |w| == Pow2(d)
  {
    var total := MatchMass(w, order, bits, d);
    if total <= 0.0 then 0.5 else Ratio(MatchMass(w, order, bits + [true], d), total)
  }

  /** What `prediction` computes at a heap node, with its clamp to [0, 1]. */
  function Predicted(tree: seq<real>, node: nat): real
    requires 2 * node + 1 < |tree|
  {
    if tree[node] <= 0.0 then 0.5 else Clamp(Ratio(tree[2 * node + 1], tree[node]), 0.0, 1.0)
  }

  lemma RatioInUnit(one: real, total: real)
    requires 0.0 <= one <= total && total > 0.0
    ensures 0.0 <= Ratio(one, total) <= 1.0
  {
  }

  lemma ConditionalInUnit(w: seq<real>, order: BitOrder, d: nat, bits: seq<bool>)
    requires |w| == Pow2(d) && |bits| < d && forall v :: 0 <= v < |w| ==> w[v] >= 0.0
    ensures 0.0 <= Conditional(w, order, bits, d) <= 1.0
  {
    hide MatchMass, Ratio, Pow2;
    MatchSplits(w, order, bits, d);
    MatchNonNegative(w, order, bits + [false], d);
    MatchNonNegative(w, order, bits + [true], d);
    if MatchMass(w, order, bits, d) > 0.0 {
      RatioInUnit(MatchMass(w, order, bits + [true], d), MatchMass(w, order, bits, d));
    }
  }

  lemma NodesHold(tree: seq<real>, w: seq<real>, order: BitOrder, d: nat, bits: seq<bool>)
    requires MassTree(tree, w, order, d) && |bits| < d
    ensures var node := NodeOf(bits);
            && |w| == Pow2(d) && 2 * node + 1 < |tree|
            && tree[node] == MatchMass(w, order, bits, d)
            && tree[2 * node + 1] == MatchMass(w, order, bits + [true], d)
  {
    hide MassTree, NodeOf, MatchMass, Pow2;
    NodeMass(tree, w, order, d, bits);
    NodeStep(bits, true);
    NodeMass(tree, w, order, d, bits + [true]);
  }

  /** The heap's prediction is the conditional probability, for every prefix and both bit orders. */
  lemma PredictionIsConditional(tree: seq<real>, w: seq<real>, order: BitOrder, d: nat, bits: seq<bool>)
    requires MassTree(tree, w, order, d) && |bits| < d && forall v :: 0 <= v < |w| ==> w[v] >= 0.0
    ensures 2 * NodeOf(bits) + 1 < |tree|
    ensures Predicted(tree, NodeOf(bits)) == Conditional(w, order, bits, d)
    ensures 0.0 <= Conditional(w, order, bits, d) <= 1.0
  {
    hide MassTree, MatchMass, NodeOf, Ratio, Pow2;
    NodesHold(tree, w, order, d, bits);
    ConditionalInUnit(w, order, d, bits);
  }

  /** The product of the conditionals met when `rest` is read after `bits`. */
  function ChainProduct(w: seq<real>, order: BitOrder, bits: seq<bool>, rest: seq<bool>, d: nat): real
    requires |w| == Pow2(d)
    decreases |rest|
  {
    if rest == [] then 1.0
    else Times(BitProb(Conditional(w, order, bits, d), rest[0]), ChainProduct(w, order, bits + [rest[0]], rest[1..], d))
  }

  lemma BitShare(zero: real, one: real, total: real, bit: bool)
    requires total == zero + one && total > 0.0
    ensures Times(BitProb(one / total, bit), total) == if bit then one else zero
  {
    assert (one / total) * total == one;
    assert (1.0 - one / total) * total == total - one;
  }

  lemma ConditionalShare(w: seq<real>, order: BitOrder, bits: seq<bool>, bit: bool, d: nat)
    requires |w| == Pow2(d) && |bits| < d && MatchMass(w, order, bits, d) > 0.0
    ensures Times(BitProb(Conditional(w, order, bits, d), bit), MatchMass(w, order, bits, d))
         == MatchMass(w, order, bits + [bit], d)
  {
    hide MatchMass, Times, BitProb;
    MatchSplits(w, order, bits, d);
    BitShare(MatchMass(w, order, bits + [false], d), MatchMass(w, order, bits + [true], d),
             MatchMass(w, order, bits, d), bit);
  }

  lemma MassBelow(w: seq<real>, order: BitOrder, bits: seq<bool>, full: seq<bool>, d: nat)
    requires |w| == Pow2(d) && |full| == d && bits <= full && forall v :: 0 <= v < |w| ==> w[v] >= 0.0
    ensures SymbolOf(order, full) < |w|
    ensures 0.0 <= w[SymbolOf(order, full)] <= MatchMass(w, order, bits, d)
  {
    SymbolBits(order, full);
    SumBounds(Matching(w, order, bits, d));
    assert Matching(w, order, bits, d)[SymbolOf(order, full)] == w[SymbolOf(order, full)];
  }

  lemma ChainStep(q: real, total: real, child: real, rest: real, mass: real)
    requires Times(q, total) == child && (child == 0.0 ==> mass == 0.0) && total > 0.0
    requires child != 0.0 ==> Times(rest, child) == mass
    ensures Times(Times(q, rest), total) == mass
  {
    if child == 0.0 {
      assert q == 0.0;
    }
    assert q * rest * total == rest * (q * total);
  }

  /** The conditionals along a symbol's remaining bits multiply to its share of the prefix's mass. */
  lemma {:induction false} ChainRule(w: seq<real>, order: BitOrder, bits: seq<bool>, rest: seq<bool>, d: nat)
    requires |w| == Pow2(d) && |bits| + |rest| == d && forall v :: 0 <= v < |w| ==> w[v] >= 0.0
    requires MatchMass(w, order, bits, d) > 0.0
    ensures SymbolOf(order, bits + rest) < |w|
    ensures Times(ChainProduct(w, order, bits, rest, d), MatchMass(w, order, bits, d))
         == w[SymbolOf(order, bits + rest)]
    decreases |rest|
  {
    var full := bits + rest;
    if rest == [] {
      assert full == bits;
      MatchOne(w, order, bits, d);
    } else {
      var next := bits + [rest[0]];
      assert full == next + rest[1..];
      MassBelow(w, order, next, full, d);
      ConditionalShare(w, order, bits, rest[0], d);
      var child := MatchMass(w, order, next, d);
      if child > 0.0 { ChainRule(w, order, next, rest[1..], d); }
      assert ChainProduct(w, order, bits, rest, d)
          == Times(BitProb(Conditional(w, order, bits, d), rest[0]), ChainProduct(w, order, next, rest[1..], d));
      hide Times, MatchMass, ChainProduct, Conditional;
      ChainStep(BitProb(Conditional(w, order, bits, d), rest[0]), MatchMass(w, order, bits, d), child,
                ChainProduct(w, order, next, rest[1..], d), w[SymbolOf(order, full)]);
    }
  }

  /** Along any symbol, massless ones included, the conditionals multiply to exactly its normalised mass. */
  lemma SymbolChainRule(w: seq<real>, order: BitOrder, v: nat, d: nat)
    requires |w| == Pow2(d) && v < |w| && Sum(w) == 1.0 && forall u :: 0 <= u < |w| ==> w[u] >= 0.0
    ensures ChainProduct(w, order, [], OrderBits(order, v, d), d) == w[v]
  {
    var bits := OrderBits(order, v, d);
    MatchAll(w, order, d);
    ChainRule(w, order, [], bits, d);
    BitsSymbol(order, v, d);
    assert [] + bits == bits;
  }
}
