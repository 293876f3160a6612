/** The live byte-prefix object: a 512-slot heap of subtree masses, the current node, and the symbol
    being reassembled. */
module BytePrefixMass {
  import opened RealMath
  import opened BytePrefix
  import opened PrefixMass
  import opened PrefixViews
  import opened PdfNormalization

  // ---------- Reassembling the symbol ----------

  /** `symbol |= bit << pos`. */
  function SetBit(symbol: nat, pos: nat, bit: bool): nat
  {
    if bit && (symbol / Pow2(pos)) % 2 == 0 then symbol + Pow2(pos) else symbol
  }

  /** The symbol register after `bits` have been observed. */
  function PartialSymbol(order: BitOrder, bits: seq<bool>, d: nat): nat
    requires |bits| <= d
  {
    match order
    case MsbFirst => Value(bits) * Pow2(d - |bits|)
    case LsbFirst => Value(Reverse(bits))
  }

  lemma SetHighBit(v: nat, half: nat, bit: bool)
    requires half >= 1
    ensures ((v * (2 * half)) / half) % 2 == 0
    ensures v * (2 * half) + (if bit then half else 0) == (2 * v + Bit(bit)) * half
  {
    assert v * (2 * half) == half * (2 * v) + 0;
    DivUnique(v * (2 * half), half, 2 * v, 0);
  }

  lemma SetBitReassembles(order: BitOrder, bits: seq<bool>, bit: bool, d: nat)
    requires |bits| < d
    ensures SetBit(PartialSymbol(order, bits, d), if order.MsbFirst? then d - 1 - |bits| else |bits|, bit)
         == PartialSymbol(order, bits + [bit], d)
  {
    assert (bits + [bit])[..|bits|] == bits;
    if order.MsbFirst? {
      SetHighBit(Value(bits), Pow2(d - 1 - |bits|), bit);
      hide Value;
    } else {
      ReverseAppend(bits, bit);
      ValueFirst(Reverse(bits + [bit]));
      assert Reverse(bits + [bit])[1..] == Reverse(bits);
      ValueBound(Reverse(bits));
      HighBit(Value(Reverse(bits)), Pow2(|bits|));
      hide Value;
    }
  }

  // ---------- Building the heap ----------

  lemma LeafOffsetIsValue(order: BitOrder, v: nat, d: nat)
    requires v < Pow2(d)
    ensures LeafOffset(order, v, d) == Value(OrderBits(order, v, d)) < Pow2(d)
  {
    var bits := OrderBits(order, v, d);
    BitsSymbol(order, v, d);
    SymbolBits(order, bits);
    ValueBound(bits);
  }

  /** Different symbols sit in different leaves. */
  lemma LeavesDistinct(order: BitOrder, u: nat, v: nat, d: nat)
    requires u < Pow2(d) && v < Pow2(d) && u != v
    ensures LeafOffset(order, u, d) != LeafOffset(order, v, d)
  {
    LeafOffsetIsValue(order, u, d);
    LeafOffsetIsValue(order, v, d);
    BitsOfValue(OrderBits(order, u, d));
    BitsOfValue(OrderBits(order, v, d));
    BitsSymbol(order, u, d);
    BitsSymbol(order, v, d);
  }

  predicate LeavesHold(tree: seq<real>, pdf: seq<real>, order: BitOrder, d: nat, count: nat)
  {
    && count <= |pdf| == Pow2(d) && |tree| == 2 * Pow2(d)
    && forall v :: 0 <= v < count ==>
         Pow2(d) + LeafOffset(order, v, d) < |tree| && tree[Pow2(d) + LeafOffset(order, v, d)] == pdf[v]
  }

  lemma LeafWritten(tree: seq<real>, pdf: seq<real>, order: BitOrder, d: nat, v: nat)
    requires LeavesHold(tree, pdf, order, d, v) && v < |pdf|
    ensures Pow2(d) + LeafOffset(order, v, d) < |tree|
    ensures LeavesHold(tree[Pow2(d) + LeafOffset(order, v, d) := pdf[v]], pdf, order, d, v + 1)
  {
    hide LeafOffset, OrderBits, Value, Pow2;
    LeafOffsetIsValue(order, v, d);
    forall u | 0 <= u < v ensures LeafOffset(order, u, d) != LeafOffset(order, v, d) {
      LeavesDistinct(order, u, v, d);
    }
  }

  method FillLeaves(tree: array<real>, pdf: seq<real>, order: BitOrder, d: nat)
    requires |pdf| == Pow2(d) && tree.Length == 2 * Pow2(d)
    modifies tree
    ensures LeavesHold(tree[..], pdf, order, d, |pdf|)
  {
    hide LeavesHold, LeafOffset;
    assert LeavesHold(tree[..], pdf, order, d, 0) by { NoLeaves(tree[..], pdf, order, d); }
    for v := 0 to |pdf|
      invariant LeavesHold(tree[..], pdf, order, d, v)
    {
      LeafWritten(tree[..], pdf, order, d, v);
      var leaf := Pow2(d) + LeafOffset(order, v, d);
      ghost var written := tree[..][leaf := pdf[v]];
      tree[leaf] := pdf[v];
      assert tree[..] == written;
    }
  }

  lemma NoLeaves(tree: seq<real>, pdf: seq<real>, order: BitOrder, d: nat)
    requires |pdf| == Pow2(d) && |tree| == 2 * Pow2(d)
    ensures LeavesHold(tree, pdf, order, d, 0)
  {
  }

  /** Sum the children of every inner node, bottom up. */
  method SumInnerNodes(tree: array<real>, ghost pdf: seq<real>, order: BitOrder, d: nat)
    requires LeavesHold(tree[..], pdf, order, d, |pdf|)
    modifies tree
    ensures MassTree(tree[..], pdf, order, d)
  {
    var node := Pow2(d);
    while node > 1
      invariant 1 <= node <= Pow2(d)
      invariant forall i :: Pow2(d) <= i < tree.Length ==> tree[i] == old(tree[i])
      invariant forall i :: node <= i < Pow2(d) ==> tree[i] == tree[2 * i] + tree[2 * i + 1]
    {
      node := node - 1;
      tree[node] := tree[2 * node] + tree[2 * node + 1];
    }
    hide LeafOffset;
  }

  // ---------- The object ----------

  datatype BinaryPrediction = BinaryPrediction(p0: real, p1: real)

  function FromProbOneExact(p1: real): (r: BinaryPrediction)
    ensures 0.0 <= r.p1 <= 1.0 && r.p0 + r.p1 == 1.0
  {
    var p := Clamp(p1, 0.0, 1.0);
    BinaryPrediction(1.0 - p, p)
  }

  /** At most 256 entries of `pdf`, padded with zeros. */
  function Padded(pdf: seq<real>, n: nat): (r: seq<real>)
    ensures |r| == n
  {
    seq(n, i => if 0 <= i < |pdf| then pdf[i] else 0.0)
  }

  /** Both branches of `prediction` give the conditional and its complement. */
  lemma NodePrediction(tree: seq<real>, w: seq<real>, order: BitOrder, d: nat, seen: seq<bool>)
    requires MassTree(tree, w, order, d) && |seen| < d && forall v :: 0 <= v < |w| ==> w[v] >= 0.0
    ensures var node, p1 := NodeOf(seen), Conditional(w, order, seen, d);
            && 2 * node + 1 < |tree|
            && (if tree[node] <= 0.0 then FromProbOneExact(0.5)
                else FromProbOneExact(Ratio(tree[2 * node + 1], tree[node])))
               == BinaryPrediction(1.0 - p1, p1)
  {
    hide MassTree, Conditional, NodeOf;
    PredictionIsConditional(tree, w, order, d, seen);
  }

  class BytePrefixMass {
    const tree: array<real>
    const order: BitOrder
    var node: nat
    var bitsSeen: nat
    var symbol: nat
    ghost const weights: seq<real>
    ghost var seen: seq<bool>

    ghost predicate Valid()
      reads this, tree
    {
      && MassTree(tree[..], weights, order, BYTE_BITS)
      && (forall v :: 0 <= v < |weights| ==> weights[v] >= 0.0) && Sum(weights) == 1.0
      && |seen| == bitsSeen <= BYTE_BITS
      && node == NodeOf(seen)
      && symbol == PartialSymbol(order, seen, BYTE_BITS)
    }

    constructor FromRawWeights(raw: seq<real>, order: BitOrder)
      requires |raw| == BYTE_SYMBOLS
      ensures Valid() && fresh(tree) && seen == [] && this.order == order
      ensures weights == MassNormalized(raw)
    {
      hide MassTree, LeavesHold, MassNormalized, Sum, LeafOffset;
      var w := new real[BYTE_SYMBOLS](i requires 0 <= i < BYTE_SYMBOLS => raw[i]);
      assert w[..] == raw;
      NormalizePdfMassOnly(w);
      var heap := new real[2 * BYTE_SYMBOLS](i => 0.0);
      assert Pow2(BYTE_BITS) == BYTE_SYMBOLS by { ByteSize(); }
      FillLeaves(heap, w[..], order, BYTE_BITS);
      SumInnerNodes(heap, w[..], order, BYTE_BITS);
      MassNormalizedIsDistribution(raw);
      InitialRegisters(order);
      tree, this.order, weights := heap, order, w[..];
      node, bitsSeen, symbol, seen := 1, 0, 0, [];
    }

    /** Build from a byte PDF; missing entries carry no mass. */
    constructor FromPdf(pdf: seq<real>, order: BitOrder)
      ensures Valid() && fresh(tree) && seen == [] && this.order == order
      ensures weights == MassNormalized(Padded(pdf, BYTE_SYMBOLS))
    {
      hide MassTree, MassNormalized, Padded;
      var built := new BytePrefixMass.FromRawWeights(Padded(pdf, BYTE_SYMBOLS), order);
      tree, this.order, weights := built.tree, order, built.weights;
      node, bitsSeen, symbol, seen := built.node, built.bitsSeen, built.symbol, [];
    }

    /** Build from a CDF row. */
    constructor FromCdf(cdf: seq<real>, order: BitOrder)
      requires |cdf| == BYTE_SYMBOLS + 1
      ensures Valid() && fresh(tree) && seen == [] && this.order == order
      ensures weights == MassNormalized(Increments(cdf))
    {
      hide MassTree, MassNormalized;
      var built := new BytePrefixMass.FromRawWeights(Increments(cdf), order);
      tree, this.order, weights := built.tree, order, built.weights;
      node, bitsSeen, symbol, seen := built.node, built.bitsSeen, built.symbol, [];
    }

    predicate IsComplete()
      reads this
    {
      bitsSeen >= BYTE_BITS
    }

    lemma CurrentNode()
      requires Valid() && bitsSeen < BYTE_BITS
      ensures 2 * node + 1 < tree.Length
      ensures var p1 := Conditional(weights, order, seen, BYTE_BITS);
              BinaryPrediction(1.0 - p1, p1)
              == if tree[node] <= 0.0 then FromProbOneExact(0.5)
                 else FromProbOneExact(Ratio(tree[2 * node + 1], tree[node]))
    {
      hide MassTree, Conditional, Sum, PartialSymbol, FromProbOneExact, Ratio;
      NodePrediction(tree[..], weights, order, BYTE_BITS, seen);
    }

    /** The conditional of the next bit, as the ratio of directly summed masses. */
    method Prediction() returns (r: BinaryPrediction)
      requires Valid()
      ensures r == if IsComplete() then BinaryPrediction(0.5, 0.5)
                   else var p1 := Conditional(weights, order, seen, BYTE_BITS); BinaryPrediction(1.0 - p1, p1)
    {
      if IsComplete() {
        return FromProbOneExact(0.5);
      }
      assert bitsSeen < BYTE_BITS;
      CurrentNode();
      hide *;
      var total := tree[node];
      if total <= 0.0 {
        return FromProbOneExact(0.5);
      }
      var one := tree[2 * node + 1];
      r := FromProbOneExact(Ratio(one, total));
    }

    /** Take one bit; a complete byte takes no more. */
    method Observe(bit: bool)
      requires Valid()
      modifies this
      ensures Valid()
      ensures seen == if old(bitsSeen) < BYTE_BITS then old(seen) + [bit] else old(seen)
    {
      if IsComplete() {
        return;
      }
      hide MassTree, Sum, PartialSymbol, SetBit, NodeOf, Bit;
      RegistersStep(order, seen, bit);
      node := 2 * node + Bit(bit);
      symbol := SetBit(symbol, if order.MsbFirst? then 7 - bitsSeen else bitsSeen, bit);
      bitsSeen := bitsSeen + 1;
      seen := seen + [bit];
    }

    /** Once eight bits are in, the register holds the byte whose bits were observed. */
    method Symbol() returns (v: nat)
      requires Valid()
      ensures v == symbol
      ensures IsComplete() ==> v < BYTE_SYMBOLS && OrderBits(order, v, BYTE_BITS) == seen
    {
      v := symbol;
      if IsComplete() {
        hide MassTree, Sum;
        SymbolBits(order, seen);
        CompleteSymbol(order, seen);
      }
    }
  }

  lemma ByteSize()
    ensures Pow2(BYTE_BITS) == BYTE_SYMBOLS
  {
  }

  lemma InitialRegisters(order: BitOrder)
    ensures NodeOf([]) == 1 && PartialSymbol(order, [], BYTE_BITS) == 0
  {
  }

  lemma RegistersStep(order: BitOrder, seen: seq<bool>, bit: bool)
    requires |seen| < BYTE_BITS
    ensures NodeOf(seen + [bit]) == 2 * NodeOf(seen) + Bit(bit)
    ensures PartialSymbol(order, seen + [bit], BYTE_BITS)
         == SetBit(PartialSymbol(order, seen, BYTE_BITS), if order.MsbFirst? then 7 - |seen| else |seen|, bit)
  {
    hide PartialSymbol, SetBit, NodeOf;
    NodeStep(seen, bit);
    SetBitReassembles(order, seen, bit, BYTE_BITS);
  }

  lemma CompleteSymbol(order: BitOrder, bits: seq<bool>)
    requires |bits| == BYTE_BITS
    ensures PartialSymbol(order, bits, BYTE_BITS) == SymbolOf(order, bits)
  {
  }
}
