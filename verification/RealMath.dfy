/** Sums and dot products of real vectors, clamping, and the facts about `exp` that the mixers rely on. */
module RealMath {

  /** Rust's `f64::clamp` on finite values. */
  function Clamp(x: real, lo: real, hi: real): (r: real)
    requires lo <= hi
    ensures lo <= r <= hi
    ensures lo <= x <= hi ==> r == x
  {
    if x < lo then lo else if x > hi then hi else x
  }

  function Max(x: real, y: real): (r: real)
  {
    if x < y then y else x
  }

  function Min(x: real, y: real): (r: real)
  {
    if y < x then y else x
  }

  /** The probability floor every mixer derives from its `min_prob` argument. */
  function ProbFloor(minProb: real): (floor: real)
    ensures 0.000000000001 <= floor <= 0.49
    ensures 0.000000000001 <= minProb <= 0.49 ==> floor == minProb
  {
    Clamp(minProb, 0.000000000001, 0.49)
  }

  /** A product, named so that proofs about sums can leave it unexpanded. */
  function Times(x: real, y: real): real
  {
    x * y
  }

  function MulAdd(a: real, c: real, b: real): real
  {
    a + c * b
  }

  /** The sum of a vector, accumulated from the left as the source's loops do. */
  function Sum(s: seq<real>): real
  {
    if s == [] then 0.0 else Sum(s[..|s| - 1]) + s[|s| - 1]
  }

  function Zeros(n: nat): (r: seq<real>)
    ensures |r| == n && forall i :: 0 <= i < n ==> r[i] == 0.0
  {
    seq(n, _ => 0.0)
  }

  function Uniform(n: nat): (r: seq<real>)
    requires n > 0
    ensures |r| == n && forall i :: 0 <= i < n ==> r[i] == 1.0 / n as real
  {
    seq(n, _ => 1.0 / n as real)
  }

  function Dot(a: seq<real>, b: seq<real>): real
    requires |a| == |b|
  {
    if a == [] then 0.0 else Dot(a[..|a| - 1], b[..|b| - 1]) + Times(a[|a| - 1], b[|b| - 1])
  }

  /** Every element times `c`. */
  function Scale(c: real, s: seq<real>): (r: seq<real>)
    ensures |r| == |s|
  {
    if s == [] then [] else Scale(c, s[..|s| - 1]) + [Times(c, s[|s| - 1])]
  }

  /** `a + c * b`, element by element. */
  function AddScaled(a: seq<real>, c: real, b: seq<real>): (r: seq<real>)
    requires |a| == |b|
    ensures |r| == |a|
  {
    if a == [] then []
    else AddScaled(a[..|a| - 1], c, b[..|b| - 1]) + [MulAdd(a[|a| - 1], c, b[|b| - 1])]
  }

  function Product(s: seq<real>): real
  {
    if s == [] then 1.0 else Times(s[0], Product(s[1..]))
  }

  /** `row` written over `table` at offset `start`. */
  function Splice<T>(table: seq<T>, start: nat, row: seq<T>): (r: seq<T>)
    requires start + |row| <= |table|
    ensures |r| == |table|
    ensures forall i :: 0 <= i < |table| ==> r[i] == if start <= i < start + |row| then row[i - start] else table[i]
  {
    table[..start] + row + table[start + |row|..]
  }

  /** Where row `idx` of a flat table with `n` columns starts: `idx * n`, kept as a sum of rows. */
  function Offset(idx: nat, n: nat): nat
  {
    if idx == 0 then 0 else Offset(idx - 1, n) + n
  }

  lemma {:induction false} OffsetIsProduct(idx: nat, n: nat)
    ensures Offset(idx, n) == idx * n
  {
    if idx > 0 {
      OffsetIsProduct(idx - 1, n);
      assert idx * n == (idx - 1) * n + n;
    }
  }

  lemma {:induction false} OffsetFits(idx: nat, size: nat, n: nat)
    requires idx < size
    ensures Offset(idx, n) + n <= Offset(size, n)
  {
    if idx < size - 1 { OffsetFits(idx, size - 1, n); }
  }

  /** Writing one row of a flat table leaves its other rows alone. */
  lemma SplicedRows(table: seq<real>, idx: nat, n: nat, row: seq<real>, other: nat)
    requires Offset(idx, n) + n <= |table| && Offset(other, n) + n <= |table| && |row| == n
    ensures Splice(table, Offset(idx, n), row)[Offset(other, n)..Offset(other, n) + n]
         == if other == idx then row else table[Offset(other, n)..Offset(other, n) + n]
  {
    if other < idx { OffsetFits(other, idx, n); }
    if idx < other { OffsetFits(idx, other, n); }
  }

  lemma {:induction false} SumZeros(s: seq<real>)
    requires forall i :: 0 <= i < |s| ==> s[i] == 0.0
    ensures Sum(s) == 0.0
  {
    if s != [] { SumZeros(s[..|s| - 1]); }
  }

  lemma {:induction false} SumPositive(s: seq<real>)
    requires s != [] && forall i :: 0 <= i < |s| ==> s[i] > 0.0
    ensures Sum(s) > 0.0
  {
    if |s| > 1 { SumPositive(s[..|s| - 1]); }
  }

  lemma SumAppend(s: seq<real>, x: real)
    ensures Sum(s + [x]) == Sum(s) + x
  {
    assert (s + [x])[..|s|] == s;
  }

  lemma {:induction false} SumConcat(a: seq<real>, b: seq<real>)
    ensures Sum(a + b) == Sum(a) + Sum(b)
  {
    if b == [] {
      assert a + b == a;
    } else {
      SumConcat(a, b[..|b| - 1]);
      assert (a + b)[..|a + b| - 1] == a + b[..|b| - 1];
    }
  }

  lemma {:induction false} ScaleAt(c: real, s: seq<real>, i: nat)
    requires i < |s|
    ensures Scale(c, s)[i] == c * s[i]
  {
    if i < |s| - 1 {
      ScaleAt(c, s[..|s| - 1], i);
    }
  }

  lemma ScaleAppend(c: real, s: seq<real>, x: real, cx: real)
    requires cx == Times(c, x)
    ensures Scale(c, s + [x]) == Scale(c, s) + [cx]
  {
    hide Times;
    assert (s + [x])[..|s|] == s;
  }

  lemma {:induction false} SumScale(c: real, s: seq<real>)
    ensures Sum(Scale(c, s)) == c * Sum(s)
  {
    if s != [] {
      var n := |s| - 1;
      SumScale(c, s[..n]);
      SumAppend(Scale(c, s[..n]), c * s[n]);
    }
  }

  lemma ScaledSum(c: real, s: seq<real>)
    ensures Sum(Scale(c, s)) == Times(c, Sum(s))
  {
    SumScale(c, s);
  }

  lemma {:induction false} SumUniform(s: seq<real>, u: real)
    requires forall i :: 0 <= i < |s| ==> s[i] == u
    ensures Sum(s) == |s| as real * u
  {
    if s != [] {
      SumUniform(s[..|s| - 1], u);
    }
  }

  lemma AddScaledAppend(a: seq<real>, c: real, b: seq<real>, x: real, y: real, sum: real)
    requires |a| == |b| && sum == MulAdd(x, c, y)
    ensures AddScaled(a + [x], c, b + [y]) == AddScaled(a, c, b) + [sum]
  {
    hide MulAdd;
    assert (a + [x])[..|a|] == a && (b + [y])[..|b|] == b;
  }

  lemma ScaledDistribution(c: real, s: seq<real>)
    requires Sum(s) == 1.0
    ensures Sum(Scale(c, s)) == c
  {
    SumScale(c, s);
  }

  lemma {:induction false} SumAddScaledParts(a: seq<real>, c: real, b: seq<real>)
    requires |a| == |b|
    ensures Sum(AddScaled(a, c, b)) == Sum(a) + Sum(Scale(c, b))
  {
    if a != [] {
      var n := |a| - 1;
      SumAddScaledParts(a[..n], c, b[..n]);
      assert MulAdd(a[n], c, b[n]) == a[n] + Times(c, b[n]);
      hide MulAdd, Times;
      SumAppend(AddScaled(a[..n], c, b[..n]), MulAdd(a[n], c, b[n]));
      SumAppend(Scale(c, b[..n]), Times(c, b[n]));
    }
  }

  lemma SumAddScaled(a: seq<real>, c: real, b: seq<real>)
    requires |a| == |b|
    ensures Sum(AddScaled(a, c, b)) == Sum(a) + c * Sum(b)
  {
    SumAddScaledParts(a, c, b);
    SumScale(c, b);
  }

  lemma AddScaledDistribution(a: seq<real>, c: real, b: seq<real>)
    requires |a| == |b| && Sum(b) == 1.0
    ensures Sum(AddScaled(a, c, b)) == Sum(a) + c
  {
    SumAddScaled(a, c, b);
  }

  /** The products that a dot product adds up. */
  function Pointwise(a: seq<real>, b: seq<real>): (r: seq<real>)
    requires |a| == |b|
    ensures |r| == |a|
  {
    if a == [] then [] else Pointwise(a[..|a| - 1], b[..|b| - 1]) + [Times(a[|a| - 1], b[|b| - 1])]
  }

  lemma {:induction false} SumPointwise(a: seq<real>, b: seq<real>)
    requires |a| == |b|
    ensures Sum(Pointwise(a, b)) == Dot(a, b)
  {
    if a != [] {
      var n := |a| - 1;
      SumPointwise(a[..n], b[..n]);
      SumAppend(Pointwise(a[..n], b[..n]), a[n] * b[n]);
    }
  }

  lemma DotAppend(a: seq<real>, b: seq<real>, x: real, y: real)
    requires |a| == |b|
    ensures Dot(a + [x], b + [y]) == Dot(a, b) + Times(x, y)
  {
    hide Times;
    assert (a + [x])[..|a|] == a && (b + [y])[..|b|] == b;
  }

  lemma Distribute(a: real, c: real, b: real, x: real, dot: real, total: real)
    requires total == dot + Times(b, x)
    ensures Times(MulAdd(a, c, b), x) + Times(c, dot) == Times(a, x) + Times(c, total)
  {
    assert c * total == c * dot + c * (b * x);
    assert (a + c * b) * x == a * x + c * (b * x);
  }

  lemma {:induction false} DotAddScaled(a: seq<real>, c: real, b: seq<real>, x: seq<real>)
    requires |a| == |b| == |x|
    ensures Dot(AddScaled(a, c, b), x) == Dot(a, x) + Times(c, Dot(b, x))
  {
    if a == [] {
      assert Times(c, Dot(b, x)) == 0.0;
    } else {
      var n := |a| - 1;
      hide Times, MulAdd;
      DotAddScaled(a[..n], c, b[..n], x[..n]);
      DotAppend(AddScaled(a[..n], c, b[..n]), x[..n], MulAdd(a[n], c, b[n]), x[n]);
      assert x == x[..n] + [x[n]];
      Distribute(a[n], c, b[n], x[n], Dot(b[..n], x[..n]), Dot(b, x));
    }
  }

  lemma {:induction false} AddScaledAt(a: seq<real>, c: real, b: seq<real>, i: nat)
    requires |a| == |b| && i < |a|
    ensures AddScaled(a, c, b)[i] == a[i] + c * b[i]
  {
    if i < |a| - 1 {
      AddScaledAt(a[..|a| - 1], c, b[..|b| - 1], i);
    }
  }

  lemma {:induction false} ZerosDot(x: seq<real>, z: seq<real>)
    requires |z| == |x| && forall i :: 0 <= i < |z| ==> z[i] == 0.0
    ensures Dot(z, x) == 0.0 && Sum(z) == 0.0
  {
    if z != [] { ZerosDot(x[..|x| - 1], z[..|z| - 1]); }
  }

  lemma SumOfProducts(a: real, b: real, x: real)
    ensures Times(a + b, x) == Times(a, x) + Times(b, x)
  {
  }

  lemma {:induction false} DotSplit(a: seq<real>, b: seq<real>, c: seq<real>, x: seq<real>)
    requires |a| == |b| == |c| == |x| && forall i :: 0 <= i < |a| ==> c[i] == a[i] + b[i]
    ensures Dot(c, x) == Dot(a, x) + Dot(b, x)
  {
    if a != [] {
      hide Times;
      var n := |a| - 1;
      DotSplit(a[..n], b[..n], c[..n], x[..n]);
      SumOfProducts(a[n], b[n], x[n]);
    }
  }

  /** A weighted sum of equal values. */
  lemma {:induction false} DotConstant(w: seq<real>, x: seq<real>, c: real)
    requires |w| == |x| && forall i :: 0 <= i < |x| ==> x[i] == c
    ensures Dot(w, x) == Times(Sum(w), c)
  {
    if w != [] {
      var n := |w| - 1;
      DotConstant(w[..n], x[..n], c);
      SumOfProducts(Sum(w[..n]), w[n], c);
    }
  }

  lemma ChangedTerm(w: real, x: real, y: real, rest: real)
    ensures rest + Times(w, y) == rest + Times(w, x) + Times(w, y - x)
  {
  }

  /** Changing one value moves a weighted sum by that value's weight times the change. */
  lemma {:induction false} DotUpdate(w: seq<real>, x: seq<real>, i: nat, y: real)
    requires |w| == |x| && i < |x|
    ensures Dot(w, x[i := y]) == Dot(w, x) + Times(w[i], y - x[i])
  {
    hide Times;
    var n := |w| - 1;
    if i < n {
      DotUpdate(w[..n], x[..n], i, y);
      assert x[i := y][..n] == x[..n][i := y];
    } else {
      assert x[i := y][..n] == x[..n];
      ChangedTerm(w[n], x[n], y, Dot(w[..n], x[..n]));
    }
  }

  lemma {:induction false} AddScaledNonNegative(a: seq<real>, c: real, b: seq<real>)
    requires |a| == |b| && c >= 0.0
    requires forall i :: 0 <= i < |a| ==> a[i] >= 0.0 && b[i] >= 0.0
    ensures forall i :: 0 <= i < |a| ==> AddScaled(a, c, b)[i] >= 0.0
  {
    if a != [] {
      var n := |a| - 1;
      AddScaledNonNegative(a[..n], c, b[..n]);
      assert c * b[n] >= 0.0;
    }
  }

  lemma {:induction false} ScaleNonNegative(c: real, s: seq<real>)
    requires c >= 0.0 && forall i :: 0 <= i < |s| ==> s[i] >= 0.0
    ensures forall i :: 0 <= i < |s| ==> Scale(c, s)[i] >= 0.0
  {
    if s != [] {
      var n := |s| - 1;
      ScaleNonNegative(c, s[..n]);
      assert c * s[n] >= 0.0;
    }
  }

  lemma Reciprocal(x: real)
    requires x > 0.0
    ensures 1.0 / x > 0.0 && (1.0 / x) * x == 1.0 && x * (1.0 / x) == 1.0
  {
  }

  lemma {:induction false} ProductPositive(s: seq<real>)
    requires forall i :: 0 <= i < |s| ==> s[i] > 0.0
    ensures Product(s) > 0.0
  {
    if s != [] {
      ProductPositive(s[1..]);
      PositiveProduct(s[0], Product(s[1..]));
    }
  }

  lemma PositiveProduct(x: real, y: real)
    requires x > 0.0 && y > 0.0
    ensures x * y > 0.0
  {
  }

  lemma SameSignProduct(d: real, e: real)
    requires (d >= 0.0 ==> e >= 0.0) && (d <= 0.0 ==> e <= 0.0)
    ensures d * e >= 0.0
    ensures d != 0.0 && e != 0.0 ==> d * e > 0.0
  {
  }

  lemma ProductFirst(x: real, rest: seq<real>)
    ensures Product([x] + rest) == x * Product(rest)
  {
    assert ([x] + rest)[1..] == rest;
  }

  lemma {:induction false} ProductAppend(s: seq<real>, x: real)
    ensures Product(s + [x]) == Product(s) * x
  {
    if s == [] {
      assert s + [x] == [x];
      assert [x][1..] == [];
    } else {
      ProductAppend(s[1..], x);
      assert (s + [x])[1..] == s[1..] + [x];
      assert s[0] * (Product(s[1..]) * x) == s[0] * Product(s[1..]) * x;
    }
  }

  lemma DotStep(a: seq<real>, b: seq<real>, i: nat)
    requires |a| == |b| && i < |a|
    ensures Dot(a[..i + 1], b[..i + 1]) == Dot(a[..i], b[..i]) + Times(a[i], b[i])
  {
    hide Times;
    assert a[..i + 1][..i] == a[..i];
    assert b[..i + 1][..i] == b[..i];
  }

  lemma SumStep(s: seq<real>, i: nat)
    requires i < |s|
    ensures Sum(s[..i + 1]) == Sum(s[..i]) + s[i]
  {
    assert s[..i + 1][..i] == s[..i];
  }

  lemma ScaledBounds(w: real, x: real, lo: real, hi: real, rest: real, total: real)
    requires w >= 0.0 && lo <= x <= hi && total == rest + w
    ensures Times(lo, w) <= Times(w, x) <= Times(hi, w)
    ensures Times(lo, total) == Times(lo, rest) + Times(lo, w)
    ensures Times(hi, total) == Times(hi, rest) + Times(hi, w)
  {
  }

  lemma {:induction false} DotMonotone(a: seq<real>, b: seq<real>, x: seq<real>)
    requires |a| == |b| == |x|
    requires forall i :: 0 <= i < |a| ==> Times(a[i], x[i]) <= Times(b[i], x[i])
    ensures Dot(a, x) <= Dot(b, x)
  {
    if a != [] {
      hide Times;
      var n := |a| - 1;
      DotMonotone(a[..n], b[..n], x[..n]);
    }
  }

  /** A convex combination lies between any bounds of the combined values. */
  lemma {:induction false} DotBounds(w: seq<real>, x: seq<real>, lo: real, hi: real)
    requires |w| == |x|
    requires forall i :: 0 <= i < |w| ==> w[i] >= 0.0 && lo <= x[i] <= hi
    ensures Times(lo, Sum(w)) <= Dot(w, x) <= Times(hi, Sum(w))
  {
    if w != [] {
      hide Times;
      var n := |w| - 1;
      DotBounds(w[..n], x[..n], lo, hi);
      ScaledBounds(w[n], x[n], lo, hi, Sum(w[..n]), Sum(w));
    }
  }

  ghost predicate Positive(exp: real -> real)
  {
    forall x :: exp(x) > 0.0
  }

  /** What the mixers rely on: `exp` is positive, monotone and 1 at 0. */
  ghost predicate ExpFacts(exp: real -> real)
  {
    && Positive(exp)
    && exp(0.0) == 1.0
    && (forall x, y :: x <= y ==> exp(x) <= exp(y))
  }
}
