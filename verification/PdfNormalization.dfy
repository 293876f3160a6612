/** Normalising a byte distribution in place without a per-symbol floor. */
module PdfNormalization {
  import opened RealMath

  function NonNegative(s: seq<real>): (r: seq<real>)
    ensures |r| == |s| && forall i :: 0 <= i < |s| ==> r[i] == Max(s[i], 0.0)
  {
    seq(|s|, i requires 0 <= i < |s| => Max(s[i], 0.0))
  }

  /** What `normalize_pdf_mass_only` leaves in the slice. */
  function MassNormalized(s: seq<real>): (r: seq<real>)
    ensures |r| == |s|
  {
    if s == [] then []
    else
      var sum := Sum(NonNegative(s));
      if sum <= 0.0 then Uniform(|s|) else Scale(1.0 / sum, NonNegative(s))
  }

  lemma UniformIsDistribution(n: nat)
    requires n > 0
    ensures Sum(Uniform(n)) == 1.0 && forall i :: 0 <= i < n ==> Uniform(n)[i] >= 0.0
  {
    hide Sum;
    Reciprocal(n as real);
    SumUniform(Uniform(n), 1.0 / n as real);
  }

  lemma ScaledIsDistribution(s: seq<real>, sum: real)
    requires sum == Sum(s) && sum > 0.0 && forall i :: 0 <= i < |s| ==> s[i] >= 0.0
    ensures var r := Scale(1.0 / sum, s);
            Sum(r) == 1.0 && forall i :: 0 <= i < |r| ==> r[i] >= 0.0
  {
    hide Sum, Scale;
    Reciprocal(sum);
    SumScale(1.0 / sum, s);
    ScaleNonNegative(1.0 / sum, s);
  }

  /** The result is a distribution whatever the slice held. */
  lemma MassNormalizedIsDistribution(s: seq<real>)
    requires s != []
    ensures Sum(MassNormalized(s)) == 1.0
    ensures forall i :: 0 <= i < |s| ==> MassNormalized(s)[i] >= 0.0
  {
    hide Sum, Scale, Uniform;
    UniformIsDistribution(|s|);
    var sum := Sum(NonNegative(s));
    if sum > 0.0 {
      ScaledIsDistribution(NonNegative(s), sum);
    }
  }

  /** Entries keep their ratios, negative ones counting as 0; a massless slice becomes uniform. */
  lemma MassNormalizedKeepsRatios(s: seq<real>, i: nat, total: real)
    requires i < |s| && total == Sum(NonNegative(s))
    ensures if total > 0.0 then MassNormalized(s)[i] == Max(s[i], 0.0) / total
            else MassNormalized(s)[i] == 1.0 / |s| as real
  {
    hide Sum, Scale;
    if total > 0.0 {
      ScaleAt(1.0 / total, NonNegative(s), i);
    }
  }

  /** A slice that already is a distribution is left as it is. */
  lemma MassNormalizedIsIdentity(s: seq<real>)
    requires Sum(s) == 1.0 && forall i :: 0 <= i < |s| ==> s[i] >= 0.0
    ensures MassNormalized(s) == s
  {
    assert NonNegative(s) == s;
    forall i | 0 <= i < |s| ensures Scale(1.0, s)[i] == s[i] {
      ScaleAt(1.0, s, i);
    }
  }

  /** Replace negative entries by 0 and add everything up. */
  method ClipNegatives(pdf: array<real>) returns (sum: real)
    modifies pdf
    ensures pdf[..] == NonNegative(old(pdf[..])) && sum == Sum(pdf[..])
  {
    ghost var was := pdf[..];
    ghost var clipped := NonNegative(was);
    sum := 0.0;
    for i := 0 to pdf.Length
      invariant forall j :: 0 <= j < pdf.Length ==> pdf[j] == if j < i then clipped[j] else was[j]
      invariant sum == Sum(clipped[..i])
    {
      SumStep(clipped, i);
      var v := Max(pdf[i], 0.0);
      pdf[i] := v;
      sum := sum + v;
    }
    assert clipped[..pdf.Length] == clipped;
    assert pdf[..] == clipped;
  }

  method Fill(pdf: array<real>, u: real)
    modifies pdf
    ensures forall i :: 0 <= i < pdf.Length ==> pdf[i] == u
  {
    for i := 0 to pdf.Length
      invariant forall j :: 0 <= j < i ==> pdf[j] == u
    {
      pdf[i] := u;
    }
  }

  method ScaleInPlace(pdf: array<real>, c: real)
    modifies pdf
    ensures pdf[..] == Scale(c, old(pdf[..]))
  {
    ghost var was := pdf[..];
    ghost var scaled := Scale(c, was);
    for i := 0 to pdf.Length
      invariant forall j :: 0 <= j < pdf.Length ==> pdf[j] == if j < i then scaled[j] else was[j]
    {
      ScaleAt(c, was, i);
      pdf[i] := c * pdf[i];
    }
  }

  method NormalizePdfMassOnly(pdf: array<real>)
    modifies pdf
    ensures pdf[..] == MassNormalized(old(pdf[..]))
  {
    if pdf.Length == 0 {
      return;
    }
    var sum := ClipNegatives(pdf);
    if sum <= 0.0 {
      Fill(pdf, 1.0 / pdf.Length as real);
      assert pdf[..] == Uniform(pdf.Length);
    } else {
      ScaleInPlace(pdf, 1.0 / sum);
    }
  }
}
