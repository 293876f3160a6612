/** A binary decision tree of conditional probabilities and the distribution over its leaves. */
module BitTree {
  import opened RealMath
  import opened BytePrefix

  /** `p1` is the probability that the next bit is 1. */
  datatype Tree = Leaf | Node(p1: real, zero: Tree, one: Tree)
  {
    function Child(bit: bool): Tree
      requires Node?
    {
      if bit then one else zero
    }
  }

  /** Every root-to-leaf path reads exactly `d` bits. */
  predicate Full(t: Tree, d: nat)
  {
    if d == 0 then t.Leaf? else t.Node? && Full(t.zero, d - 1) && Full(t.one, d - 1)
  }

  /** Every conditional lies strictly between 0 and 1. */
  predicate Proper(t: Tree)
  {
    t.Leaf? || (0.0 < t.p1 < 1.0 && Proper(t.zero) && Proper(t.one))
  }

  function BitProb(p1: real, bit: bool): real
  {
    if bit then p1 else 1.0 - p1
  }

  /** The conditionals met when reading `bits` from the root. */
  function Conditionals(t: Tree, bits: seq<bool>): (r: seq<real>)
    requires Full(t, |bits|)
    ensures |r| == |bits|
  {
    if bits == [] then [] else [BitProb(t.p1, bits[0])] + Conditionals(t.Child(bits[0]), bits[1..])
  }

  /** The probability of every leaf, in the order of the numbers the leaves spell. */
  function Masses(t: Tree, d: nat): (r: seq<real>)
    requires Full(t, d)
    ensures |r| == Pow2(d)
  {
    if d == 0 then [1.0]
    else Scale(1.0 - t.p1, Masses(t.zero, d - 1)) + Scale(t.p1, Masses(t.one, d - 1))
  }

  lemma BitsSplit(v: nat, d: nat)
    requires d > 0 && v < Pow2(d)
    ensures var bit := v >= Pow2(d - 1);
            var w := if bit then v - Pow2(d - 1) else v;
            w < Pow2(d - 1) && BitsOf(v, d) == [bit] + BitsOf(w, d - 1)
  {
  }

  lemma MassesSplit(t: Tree, d: nat, bit: bool, w: nat)
    requires Full(t, d) && d > 0 && w < Pow2(d - 1)
    ensures Masses(t, d)[if bit then Pow2(d - 1) + w else w] == BitProb(t.p1, bit) * Masses(t.Child(bit), d - 1)[w]
  {
    hide Scale;
    var left, right := Scale(1.0 - t.p1, Masses(t.zero, d - 1)), Scale(t.p1, Masses(t.one, d - 1));
    if bit {
      assert (left + right)[Pow2(d - 1) + w] == right[w];
      ScaleAt(t.p1, Masses(t.one, d - 1), w);
    } else {
      assert (left + right)[w] == left[w];
      ScaleAt(1.0 - t.p1, Masses(t.zero, d - 1), w);
    }
  }

  lemma ConditionalsSplit(t: Tree, bit: bool, rest: seq<bool>)
    requires Full(t, |rest| + 1)
    ensures Conditionals(t, [bit] + rest) == [BitProb(t.p1, bit)] + Conditionals(t.Child(bit), rest)
  {
    assert ([bit] + rest)[1..] == rest;
  }

  lemma MassStep(t: Tree, d: nat, bit: bool, w: nat, rest: seq<bool>)
    requires Full(t, d) && |rest| + 1 == d && w < Pow2(d - 1)
    requires Masses(t.Child(bit), d - 1)[w] == Product(Conditionals(t.Child(bit), rest))
    ensures Masses(t, d)[if bit then Pow2(d - 1) + w else w] == Product(Conditionals(t, [bit] + rest))
  {
    hide Masses, Product, Conditionals;
    MassesSplit(t, d, bit, w);
    ConditionalsSplit(t, bit, rest);
    ProductFirst(BitProb(t.p1, bit), Conditionals(t.Child(bit), rest));
  }

  /** A leaf's mass is the product of the conditionals along its bits. */
  lemma {:induction false} MassIsProduct(t: Tree, d: nat, v: nat)
    requires Full(t, d) && v < Pow2(d)
    ensures Masses(t, d)[v] == Product(Conditionals(t, BitsOf(v, d)))
  {
    if d > 0 {
      hide Masses, Product, Conditionals;
      BitsSplit(v, d);
      var bit := v >= Pow2(d - 1);
      var w := if bit then v - Pow2(d - 1) else v;
      MassIsProduct(t.Child(bit), d - 1, w);
      MassStep(t, d, bit, w, BitsOf(w, d - 1));
    }
  }

  lemma MixedDistributions(p: real, left: seq<real>, right: seq<real>)
    requires Sum(left) == 1.0 && Sum(right) == 1.0
    ensures Sum(Scale(1.0 - p, left) + Scale(p, right)) == 1.0
  {
    hide Scale, Sum;
    ScaledDistribution(1.0 - p, left);
    ScaledDistribution(p, right);
    SumConcat(Scale(1.0 - p, left), Scale(p, right));
  }

  /** The leaves carry total mass exactly 1. */
  lemma {:induction false} MassesSumToOne(t: Tree, d: nat)
    requires Full(t, d)
    ensures Sum(Masses(t, d)) == 1.0
  {
    if d == 0 {
      SumAppend([], 1.0);
      assert [] + [1.0] == [1.0];
    } else {
      hide Scale, Sum;
      MassesSumToOne(t.zero, d - 1);
      MassesSumToOne(t.one, d - 1);
      MixedDistributions(t.p1, Masses(t.zero, d - 1), Masses(t.one, d - 1));
    }
  }

  lemma {:induction false} ConditionalsPositive(t: Tree, bits: seq<bool>)
    requires Full(t, |bits|) && Proper(t)
    ensures forall i :: 0 <= i < |bits| ==> Conditionals(t, bits)[i] > 0.0
  {
    if bits != [] {
      ConditionalsPositive(t.Child(bits[0]), bits[1..]);
    }
  }

  lemma MassPositive(t: Tree, d: nat, v: nat)
    requires Full(t, d) && Proper(t) && v < Pow2(d)
    ensures Masses(t, d)[v] > 0.0
  {
    MassIsProduct(t, d, v);
    ConditionalsPositive(t, BitsOf(v, d));
    ProductPositive(Conditionals(t, BitsOf(v, d)));
  }
}
