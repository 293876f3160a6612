/** MSB-first walks over a symbol alphabet of 2^d symbols: the CDF interval, the prefix code
    whose root is 1, and the bits they denote. Bytes are the case d = 8. */
module BytePrefix {
  import opened RealMath

  const BYTE_BITS: nat := 8
  const BYTE_SYMBOLS: nat := 256

  function Pow2(d: nat): (r: nat)
    ensures r >= 1
  {
    if d == 0 then 1 else 2 * Pow2(d - 1)
  }

  lemma {:induction false} Pow2Monotone(a: nat, b: nat)
    requires a <= b
    ensures Pow2(a) <= Pow2(b) && (a < b ==> 2 * Pow2(a) <= Pow2(b))
    decreases b
  {
    if a < b { Pow2Monotone(a, b - 1); }
  }

  function Bit(b: bool): nat
  {
    if b then 1 else 0
  }

  /** The `d` bits of `v`, most significant first. */
  function BitsOf(v: nat, d: nat): (bits: seq<bool>)
    requires v < Pow2(d)
    ensures |bits| == d
  {
    if d == 0 then []
    else if v < Pow2(d - 1) then [false] + BitsOf(v, d - 1)
    else [true] + BitsOf(v - Pow2(d - 1), d - 1)
  }

  /** The number a most-significant-first bit string denotes. */
  function Value(bits: seq<bool>): (v: nat)
  {
    if bits == [] then 0 else 2 * Value(bits[..|bits| - 1]) + Bit(bits[|bits| - 1])
  }

  lemma {:induction false} ValueFirst(bits: seq<bool>)
    requires bits != []
    ensures Value(bits) == Bit(bits[0]) * Pow2(|bits| - 1) + Value(bits[1..])
  {
    if |bits| > 1 {
      var front := bits[..|bits| - 1];
      ValueFirst(front);
      assert bits[1..][..|bits| - 2] == front[1..];
    }
  }

  lemma {:induction false} ValueBound(bits: seq<bool>)
    ensures Value(bits) < Pow2(|bits|)
  {
    if bits != [] {
      ValueBound(bits[..|bits| - 1]);
    }
  }

  lemma {:induction false} ValueOfBits(v: nat, d: nat)
    requires v < Pow2(d)
    ensures Value(BitsOf(v, d)) == v
  {
    if d > 0 {
      var bits := BitsOf(v, d);
      ValueFirst(bits);
      ValueOfBits(if v < Pow2(d - 1) then v else v - Pow2(d - 1), d - 1);
    }
  }

  lemma {:induction false} BitsOfValue(bits: seq<bool>)
    ensures Value(bits) < Pow2(|bits|) && BitsOf(Value(bits), |bits|) == bits
  {
    ValueBound(bits);
    if bits != [] {
      ValueFirst(bits);
      BitsOfValue(bits[1..]);
      assert bits == [bits[0]] + bits[1..];
    }
  }

  lemma NoSmallMultiple(unit: int, d: int)
    requires unit >= 1
    ensures d >= 1 ==> unit * d >= unit
    ensures d <= -1 ==> unit * d <= -unit
  {
  }

  lemma DivUnique(a: nat, unit: nat, q: nat, r: nat)
    requires unit >= 1 && r < unit && a == unit * q + r
    ensures a / unit == q && a % unit == r
  {
    var d := a / unit - q;
    NoSmallMultiple(unit, d);
    assert unit * d == unit * (a / unit) - unit * q == r - a % unit;
  }

  /** Adding a multiple of `2 * unit` does not change the bit worth `unit`. */
  lemma SameLowBit(v: nat, unit: nat, m: nat)
    requires unit >= 1
    ensures ((v + 2 * unit * m) / unit) % 2 == (v / unit) % 2
  {
    var q, r := v / unit, v % unit;
    assert unit * (q + 2 * m) == unit * q + 2 * unit * m;
    DivUnique(v + 2 * unit * m, unit, q + 2 * m, r);
  }

  lemma {:induction false} Pow2Split(a: nat, b: nat)
    ensures Pow2(a + b) == Pow2(a) * Pow2(b)
  {
    if a > 0 {
      Pow2Split(a - 1, b);
      assert Pow2(a) * Pow2(b) == 2 * (Pow2(a - 1) * Pow2(b));
    }
  }

  lemma HighBit(v: nat, half: nat)
    requires v < 2 * half
    ensures v / half == if v < half then 0 else 1
  {
    if v < half { DivUnique(v, half, 0, v); } else { DivUnique(v, half, 1, v - half); }
  }

  /** What masking with `1 << (d - 1 - i)` extracts. */
  function MaskedBit(v: nat, d: nat, i: nat): bool
    requires i < d
  {
    (v / Pow2(d - 1 - i)) % 2 == 1
  }

  /** Masking reads the bits most significant first. */
  lemma {:induction false} BitAt(v: nat, d: nat, i: nat)
    requires v < Pow2(d) && i < d
    ensures BitsOf(v, d)[i] == MaskedBit(v, d, i)
  {
    var half := Pow2(d - 1);
    if i == 0 {
      HighBit(v, half);
    } else if v < half {
      BitAt(v, d - 1, i - 1);
    } else {
      BitAt(v - half, d - 1, i - 1);
      LowBitBelow(v, d, i);
    }
  }

  lemma LowBitBelow(v: nat, d: nat, i: nat)
    requires 0 < i < d && Pow2(d - 1) <= v
    ensures (v / Pow2(d - 1 - i)) % 2 == ((v - Pow2(d - 1)) / Pow2(d - 1 - i)) % 2
  {
    var unit, m := Pow2(d - 1 - i), Pow2(i - 1);
    Pow2Split(d - 1 - i, i);
    assert Pow2(i) == 2 * m;
    assert Pow2(d - 1) == unit * (2 * m) == 2 * unit * m;
    SameLowBit(v - Pow2(d - 1), unit, m);
  }

  /** The active interval of symbols that share the observed prefix. */
  datatype MsbPrefixRange = MsbPrefixRange(lo: nat, hi: nat)
  {
    function Mid(): nat
    {
      (lo + hi) / 2
    }

    /** `P(next bit = 1)` under `cdf`, floored and clamped. */
    function ProbOne(cdf: seq<real>, minProb: real): (p: real)
      requires lo <= hi < |cdf| && 0.0 < minProb < 0.5
      ensures minProb <= p <= 1.0 - minProb
    {
      var total := Max(cdf[hi] - cdf[lo], minProb);
      var one := Max(cdf[hi] - cdf[Mid()], 0.0);
      Clamp(one / total, minProb, 1.0 - minProb)
    }

    function Observed(bit: bool): MsbPrefixRange
    {
      if bit then MsbPrefixRange(Mid(), hi) else MsbPrefixRange(lo, Mid())
    }
  }

  const FULL := MsbPrefixRange(0, BYTE_SYMBOLS)

  /** The 16-bit prefix code after one more bit. */
  function AdvancedPrefixCode(prefix: nat, bit: bool): (r: nat)
    ensures r < 65536
  {
    (prefix * 2) % 65536 + Bit(bit)
  }
}
