/** The context hash loses nothing before its final reduction: every round can be undone, so two
    field lists that differ in one field have different 32-bit hashes. */
module HashLaws {
  import opened ContextHash
  import opened BytePrefix

  // ---------- Exclusive or ----------

  lemma XorUnfolds(a: nat, b: nat)
    ensures Xor(a, b) == (a % 2 + b % 2) % 2 + 2 * Xor(a / 2, b / 2)
  {
  }

  lemma {:induction false} XorCommutes(a: nat, b: nat)
    ensures Xor(a, b) == Xor(b, a)
    decreases a + b
  {
    if a + b > 0 {
      XorCommutes(a / 2, b / 2);
    }
  }

  lemma HalvesOf(low: nat, rest: nat)
    requires low < 2
    ensures (low + 2 * rest) % 2 == low && (low + 2 * rest) / 2 == rest
  {
  }

  lemma ParityTwice(p: nat, q: nat)
    requires p < 2 && q < 2
    ensures ((p + q) % 2 + q) % 2 == p
  {
  }

  lemma XorZero()
    ensures Xor(Xor(0, 0), 0) == 0
  {
  }

  /** The same mask twice is no mask. */
  lemma {:induction false} XorTwice(a: nat, b: nat)
    ensures Xor(Xor(a, b), b) == a
    decreases a + b
  {
    hide Xor;
    if a + b == 0 {
      XorZero();
    } else {
      XorTwice(a / 2, b / 2);
      XorUnfolds(a, b);
      HalvesOf((a % 2 + b % 2) % 2, Xor(a / 2, b / 2));
      XorUnfolds(Xor(a, b), b);
      ParityTwice(a % 2, b % 2);
    }
  }

  lemma {:induction false} XorFits(a: nat, b: nat, k: nat)
    requires a < Pow2(k) && b < Pow2(k)
    ensures Xor(a, b) < Pow2(k)
  {
    if k > 0 {
      XorFits(a / 2, b / 2, k - 1);
      XorUnfolds(a, b);
    }
  }

  lemma WordBits()
    ensures Pow2(32) == TWO_32 && Pow2(8) == 256
  {
    assert Pow2(4) == 16;
    hide Pow2;
    Pow2Split(4, 4);
    Pow2Split(8, 8);
    Pow2Split(16, 16);
  }

  lemma XorWord(h: nat, v: byte)
    requires h < TWO_32
    ensures Xor(h, v) < TWO_32
  {
    hide Pow2;
    WordBits();
    XorFits(h, v, 32);
  }

  // ---------- One round ----------

  /** `x` rotated left by 5, as a round writes it. */
  function Rotated(x: nat): nat
  {
    (x * 32) % TWO_32 + x / 0x800_0000
  }

  function RotatedBack(y: nat): nat
  {
    y % 32 * 0x800_0000 + y / 32
  }

  lemma RotatesBack(x: nat)
    requires x < TWO_32
    ensures Rotated(x) < TWO_32 && RotatedBack(Rotated(x)) == x
  {
    var q, r := x / 0x800_0000, x % 0x800_0000;
    DivUnique(x * 32, TWO_32, q, 32 * r);
    DivUnique(32 * r + q, 32, r, q);
  }

  const FACTOR: nat := 0x85EB_CA6B
  /** The inverse of the odd factor modulo 2^32. */
  const INVERSE: nat := 0xA5CB_9243

  lemma FactorsCancel(w: nat)
    requires w < TWO_32
    ensures w * FACTOR % TWO_32 * INVERSE % TWO_32 == w
  {
    var j, y := w * FACTOR / TWO_32, w * FACTOR % TWO_32;
    var k := FACTOR * INVERSE / TWO_32;
    assert FACTOR * INVERSE == TWO_32 * k + 1;
    var q := k * w - j * INVERSE;
    assert y * INVERSE == TWO_32 * q + w;
    DivUnique(y * INVERSE, TWO_32, q, w);
  }

  /** Undo a round whose byte is known. */
  function Unround(y: nat, v: byte): nat
  {
    Xor(RotatedBack(y * INVERSE % TWO_32), v)
  }

  lemma RoundIs(h: nat, v: byte)
    ensures HashRound(h, v) == Rotated(Xor(h, v)) * FACTOR % TWO_32
  {
  }

  lemma MixedWord(h: nat, v: byte)
    requires h < TWO_32
    ensures HashRound(h, v) < TWO_32
    ensures RotatedBack(HashRound(h, v) * INVERSE % TWO_32) == Xor(h, v)
  {
    hide HashRound, Rotated, RotatedBack, Xor;
    RoundIs(h, v);
    XorWord(h, v);
    RotatesBack(Xor(h, v));
    FactorsCancel(Rotated(Xor(h, v)));
  }

  /** Undoing a round gives back the hash before it. */
  lemma RoundInverts(h: nat, v: byte)
    requires h < TWO_32
    ensures HashRound(h, v) < TWO_32 && Unround(HashRound(h, v), v) == h
  {
    hide HashRound, RotatedBack, Xor;
    MixedWord(h, v);
    XorTwice(h, v);
  }

  /** From the same hash, different bytes lead to different hashes. */
  lemma RoundTellsBytes(h: nat, v: byte, w: byte)
    requires h < TWO_32 && v != w
    ensures HashRound(h, v) != HashRound(h, w)
  {
    hide HashRound, RotatedBack, Xor;
    MixedWord(h, v);
    MixedWord(h, w);
    XorCommutes(h, v);
    XorCommutes(h, w);
    XorTwice(v, h);
    XorTwice(w, h);
  }

  // ---------- Whole lists ----------

  lemma {:induction false} HashIsWord(h: nat, values: seq<byte>)
    requires h < TWO_32
    ensures HashFrom(h, values) < TWO_32
    decreases |values|
  {
    hide HashRound;
    if values != [] {
      RoundInverts(h, values[0]);
      HashIsWord(HashRound(h, values[0]), values[1..]);
    }
  }

  /** Different hashes stay different under the same bytes. */
  lemma {:induction false} HashesStayApart(h: nat, g: nat, values: seq<byte>)
    requires h < TWO_32 && g < TWO_32 && h != g
    ensures HashFrom(h, values) != HashFrom(g, values)
    decreases |values|
  {
    hide HashRound, Unround;
    if values != [] {
      RoundInverts(h, values[0]);
      RoundInverts(g, values[0]);
      HashesStayApart(HashRound(h, values[0]), HashRound(g, values[0]), values[1..]);
    }
  }

  lemma {:induction false} ChangedByte(h: nat, values: seq<byte>, k: nat, v: byte)
    requires h < TWO_32 && k < |values| && values[k] != v
    ensures HashFrom(h, values[k := v]) != HashFrom(h, values)
    decreases |values|
  {
    hide HashRound;
    RoundInverts(h, values[0]);
    if k == 0 {
      RoundInverts(h, v);
      RoundTellsBytes(h, v, values[0]);
      HashesStayApart(HashRound(h, v), HashRound(h, values[0]), values[1..]);
      assert values[0 := v][1..] == values[1..];
    } else {
      ChangedByte(HashRound(h, values[0]), values[1..], k - 1, v);
      assert values[k := v][1..] == values[1..][k - 1 := v];
    }
  }

  /** Changing one field always changes the 32-bit hash that is then reduced to a row. */
  lemma OneFieldMatters(values: seq<byte>, k: nat, v: byte)
    requires k < |values| && values[k] != v
    ensures HashFields(values[k := v], TWO_32) != HashFields(values, TWO_32)
  {
    hide HashFrom;
    HashIsWord(0x9E37_79B9, values);
    HashIsWord(0x9E37_79B9, values[k := v]);
    ChangedByte(0x9E37_79B9, values, k, v);
  }
}
