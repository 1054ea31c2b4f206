/**
 * Frequency-domain filters: the sideband (complex Hilbert) filter Hc, the peak search
 * that centres the bandpass filter, the bandpass filter bp itself, and the spectrum
 * that the inverse transform receives once the filters present have been applied.
 * Frequencies are in kHz, as the frequency axis is stored.
 */
module Filters {
  import opened Wrappers

  datatype Complex = Complex(re: real, im: real)

  /** A complex sample times a real factor. */
  function Scale(z: Complex, k: real): Complex
  {
    Complex(z.re * k, z.im * k)
  }

  /** Every sample of a spectrum divided by the same nonzero real. */
  function DivideAll(zs: seq<Complex>, d: real): (r: seq<Complex>)
    requires d != 0.0
  {
    seq(|zs|, i requires 0 <= i < |zs| => Complex(zs[i].re / d, zs[i].im / d))
  }

  /** Elementwise product of a spectrum and a real filter of the same length. */
  function Apply(zs: seq<Complex>, filter: seq<real>): seq<Complex>
    requires |zs| == |filter|
  {
    seq(|zs|, i requires 0 <= i < |zs| => Scale(zs[i], filter[i]))
  }

  // ---------------------------------------------------------------- sideband filter

  /** 1.0 for true and 0.0 for false, as numpy converts a boolean times a float. */
  function Indicator(b: bool): real
  {
    if b then 1.0 else 0.0
  }

  /** One value of Hc: 0.0*(f < 0) + 1.0*(f == 0) + 2.0*(f > 0). */
  function HilbertAt(f: real): (h: real)
    ensures f < 0.0 ==> h == 0.0
    ensures f == 0.0 ==> h == 1.0
    ensures f > 0.0 ==> h == 2.0
  {
    0.0 * Indicator(f < 0.0) + 1.0 * Indicator(f == 0.0) + 2.0 * Indicator(f > 0.0)
  }

  /** The sideband filter Hc over a frequency axis: one value per frequency, each 0, 1 or 2. */
  function Hilbert(freq: seq<real>): (h: seq<real>)
    ensures |h| == |freq|
    ensures forall i :: 0 <= i < |freq| ==> h[i] == HilbertAt(freq[i])
    ensures forall i :: 0 <= i < |freq| ==> h[i] == 0.0 || h[i] == 1.0 || h[i] == 2.0
  {
    seq(|freq|, i requires 0 <= i < |freq| => HilbertAt(freq[i]))
  }

  /**
   * Hc turns a two-sided spectrum into a one-sided one without changing its total weight:
   * a frequency and its mirror image together keep weight 2 (both halves of DC keep
   * 1 each, a positive frequency takes 2 and its negative twin 0).
   */
  lemma HilbertMirrorPair(f: real)
    ensures HilbertAt(f) + HilbertAt(-f) == 2.0
    ensures f != 0.0 ==> HilbertAt(f) * HilbertAt(-f) == 0.0
  {
  }

  /** Hc never decreases along the frequency axis. */
  lemma HilbertMonotone(f: real, g: real)
    requires f <= g
    ensures HilbertAt(f) <= HilbertAt(g)
  {
  }

  // ---------------------------------------------------------------- peak search

  /** np.argmax: the first index of a maximal entry. */
  function FirstArgMax(v: seq<real>): (k: nat)
    requires |v| > 0
    ensures k < |v|
    ensures forall j :: 0 <= j < |v| ==> v[j] <= v[k]
    ensures forall j :: 0 <= j < k ==> v[j] < v[k]
  {
    if |v| == 1 then 0
    else
      var k := FirstArgMax(v[..|v| - 1]);
      if v[|v| - 1] > v[k] then |v| - 1 else k
  }

  /**
   * Hc * |FT|: the spectrum magnitude weighted by the sideband filter. Where Hc is zero
   * (the negative frequencies) the weight is zero.
   */
  function Weighted(hc: seq<real>, magnitude: seq<real>): (w: seq<real>)
    requires |hc| == |magnitude|
    ensures |w| == |hc|
    ensures forall i :: 0 <= i < |w| && hc[i] == 0.0 ==> w[i] == 0.0
  {
    seq(|hc|, i requires 0 <= i < |hc| => hc[i] * magnitude[i])
  }

  /** Weighting a non-negative magnitude by the sideband filter gives non-negative weights. */
  lemma WeightedNonNegative(freq: seq<real>, magnitude: seq<real>)
    requires |freq| == |magnitude|
    requires forall i :: 0 <= i < |magnitude| ==> magnitude[i] >= 0.0
    ensures forall i :: 0 <= i < |freq| ==> Weighted(Hilbert(freq), magnitude)[i] >= 0.0
  {
    var hc := Hilbert(freq);
    forall i | 0 <= i < |freq|
      ensures Weighted(hc, magnitude)[i] >= 0.0
    {
      assert Weighted(hc, magnitude)[i] == hc[i] * magnitude[i];
    }
  }

  /** The centre frequency fc = freq[argmax(Hc * |FT|)]. */
  function CenterIndex(hc: seq<real>, magnitude: seq<real>): (k: nat)
    requires |hc| == |magnitude| > 0
    ensures k < |hc|
    ensures forall j :: 0 <= j < |hc| ==> hc[j] * magnitude[j] <= hc[k] * magnitude[k]
    ensures forall j :: 0 <= j < k ==> hc[j] * magnitude[j] < hc[k] * magnitude[k]
  {
    var w := Weighted(hc, magnitude);
    var k := FirstArgMax(w);
    assert forall j :: 0 <= j < |hc| ==> w[j] == hc[j] * magnitude[j];
    k
  }

  /**
   * With the sideband filter as weights and a spectrum that has some energy at a positive
   * frequency, the peak search never lands on a negative frequency.
   */
  lemma CenterIsNonNegative(freq: seq<real>, magnitude: seq<real>, j: nat)
    requires |freq| == |magnitude| && j < |freq|
    requires forall i :: 0 <= i < |magnitude| ==> magnitude[i] >= 0.0
    requires freq[j] > 0.0 && magnitude[j] > 0.0
    ensures freq[CenterIndex(Hilbert(freq), magnitude)] >= 0.0
  {
    var hc := Hilbert(freq);
    var k := CenterIndex(hc, magnitude);
    assert hc[k] * magnitude[k] >= hc[j] * magnitude[j] > 0.0;
    assert hc[k] != 0.0;
  }

  // ---------------------------------------------------------------- bandpass filter

  function Abs(x: real): (a: real)
    ensures a >= 0.0
  {
    if x < 0.0 then -x else x
  }

  /**
   * x^k for a natural exponent; np.power(x, k) on a non-negative base. One to any power
   * is one, and zero to a power is zero unless the power is zero.
   */
  function Pow(x: real, k: nat): (p: real)
    ensures x == 1.0 ==> p == 1.0
    ensures x == 0.0 ==> (p == 0.0 <==> k > 0)
  {
    if k == 0 then 1.0 else x * Pow(x, k - 1)
  }

  lemma {:induction false} PowNonNegative(x: real, k: nat)
    requires x >= 0.0
    ensures Pow(x, k) >= 0.0
  {
    if k > 0 {
      PowNonNegative(x, k - 1);
    }
  }

  /** For a positive exponent, a non-negative base has power zero exactly when it is zero. */
  lemma {:induction false} PowZeroIff(x: real, k: nat)
    requires x >= 0.0 && k > 0
    ensures Pow(x, k) == 0.0 <==> x == 0.0
  {
    if k > 1 {
      PowZeroIff(x, k - 1);
      PowNonNegative(x, k - 1);
    }
  }

  lemma PowFacts(x: real, k: nat)
    requires x >= 0.0
    ensures Pow(x, k) >= 0.0
    ensures k > 0 ==> (Pow(x, k) == 0.0 <==> x == 0.0)
  {
    PowNonNegative(x, k);
    if k > 0 {
      PowZeroIff(x, k);
    }
  }

  /** Powers of non-negative reals grow with the base. */
  lemma {:induction false} PowMonotone(x: real, y: real, k: nat)
    requires 0.0 <= x <= y
    ensures Pow(x, k) <= Pow(y, k)
  {
    if k > 0 {
      PowMonotone(x, y, k - 1);
      PowNonNegative(x, k - 1);
      MulMonotone(x, y, Pow(x, k - 1), Pow(y, k - 1), Pow(x, k), Pow(y, k));
    }
  }

  /** Products of ordered non-negative factors are ordered; p and q name the two products. */
  lemma MulMonotone(a: real, b: real, c: real, d: real, p: real, q: real)
    requires 0.0 <= a <= b && 0.0 <= c <= d && p == a * c && q == b * d
    ensures p <= q
  {
    assert a * c <= b * c;
    assert b * c <= b * d;
  }

  /**
   * One value of the bandpass filter, 1/(1 + |(f - fc)/bw|^order): always in (0, 1],
   * and for a positive order equal to 1 exactly at the centre frequency.
   */
  function BandpassAt(f: real, fc: real, bw: real, order: nat): (b: real)
    requires bw != 0.0
    ensures 0.0 < b <= 1.0
    ensures order > 0 ==> (b == 1.0 <==> f == fc)
  {
    var p := Pow(Abs((f - fc) / bw), order);
    PowFacts(Abs((f - fc) / bw), order);
    ReciprocalAntitone(0.0, p);
    1.0 / (1.0 + p)
  }

  /** The absolute value makes the filter symmetric about fc, for odd orders too. */
  lemma BandpassSymmetric(fc: real, d: real, bw: real, order: nat)
    requires bw != 0.0
    ensures BandpassAt(fc + d, fc, bw, order) == BandpassAt(fc - d, fc, bw, order)
  {
    assert (fc - d - fc) / bw == -((fc + d - fc) / bw);
  }

  /**
   * bw is the half-width of the filter: at fc + bw and fc - bw the filter passes exactly
   * one half, whatever the order.
   */
  lemma BandpassHalfAtBandwidth(fc: real, bw: real, order: nat)
    requires bw != 0.0
    ensures BandpassAt(fc + bw, fc, bw, order) == 0.5
    ensures BandpassAt(fc - bw, fc, bw, order) == 0.5
  {
    assert (fc + bw - fc) / bw == 1.0;
    assert Abs((fc + bw - fc) / bw) == 1.0;
    BandpassSymmetric(fc, bw, bw, order);
  }

  /** The filter passes less the farther a frequency lies from fc. */
  lemma BandpassDecreasesWithDistance(f: real, g: real, fc: real, bw: real, order: nat)
    requires bw != 0.0 && Abs(f - fc) <= Abs(g - fc)
    ensures BandpassAt(f, fc, bw, order) >= BandpassAt(g, fc, bw, order)
  {
    var a, b := Abs((f - fc) / bw), Abs((g - fc) / bw);
    AbsQuotient(f - fc, bw);
    AbsQuotient(g - fc, bw);
    DivideMonotone(Abs(f - fc), Abs(g - fc), Abs(bw));
    PowMonotone(a, b, order);
    PowNonNegative(a, order);
    ReciprocalAntitone(Pow(a, order), Pow(b, order));
  }

  lemma AbsQuotient(x: real, d: real)
    requires d != 0.0
    ensures Abs(x / d) == Abs(x) / Abs(d)
  {
    if d > 0.0 {
      if x < 0.0 {
        assert x / d < 0.0;
        assert -(x / d) == (-x) / d;
      } else {
        assert x / d >= 0.0;
      }
    } else {
      assert x / d == (-x) / (-d);
      if x < 0.0 {
        assert (-x) / (-d) > 0.0;
      } else {
        assert x / d <= 0.0;
        assert -(x / d) == x / (-d);
      }
    }
  }

  /** Dividing by a positive real keeps order. */
  lemma DivideMonotone(a: real, b: real, d: real)
    requires a <= b && d > 0.0
    ensures a / d <= b / d
  {
    assert b / d - a / d == (b - a) / d;
  }

  /** 1/(1+p) shrinks as p grows. */
  lemma ReciprocalAntitone(p: real, q: real)
    requires 0.0 <= p <= q
    ensures 1.0 / (1.0 + p) >= 1.0 / (1.0 + q)
  {
    assert 1.0 / (1.0 + p) - 1.0 / (1.0 + q) == (q - p) / ((1.0 + p) * (1.0 + q));
  }

  /** The bandpass filter over a frequency axis. */
  function Bandpass(freq: seq<real>, fc: real, bw: real, order: nat): (bp: seq<real>)
    requires bw != 0.0
    ensures |bp| == |freq|
    ensures forall i :: 0 <= i < |freq| ==> 0.0 < bp[i] <= 1.0
  {
    seq(|freq|, i requires 0 <= i < |freq| => BandpassAt(freq[i], fc, bw, order))
  }

  // ---------------------------------------------------------------- filtered spectrum

  /** The factor a filter contributes at index i: its value if present, 1 if absent. */
  function Factor(filter: Option<seq<real>>, i: nat): real
    requires filter.Some? ==> i < |filter.value|
  {
    if filter.Some? then filter.value[i] else 1.0
  }

  /**
   * The spectrum handed to the inverse transform: the stored FT divided by dt, times Hc
   * if it exists, times bp if it exists, elementwise and length-preserving.
   */
  function FilteredSpectrum(ft: seq<Complex>, dt: real, hc: Option<seq<real>>, bp: Option<seq<real>>)
    : (s: seq<Complex>)
    requires dt != 0.0
    requires hc.Some? ==> |hc.value| == |ft|
    requires bp.Some? ==> |bp.value| == |ft|
    ensures |s| == |ft|
    ensures forall i :: 0 <= i < |ft| ==>
      s[i].re == ft[i].re / dt * Factor(hc, i) * Factor(bp, i) &&
      s[i].im == ft[i].im / dt * Factor(hc, i) * Factor(bp, i)
  {
    var s0 := DivideAll(ft, dt);
    var s1 := if hc.Some? then Apply(s0, hc.value) else s0;
    var s2 := if bp.Some? then Apply(s1, bp.value) else s1;
    FilteredSpectrumAt(ft, dt, hc, bp, s0, s1, s2);
    s2
  }

  lemma FilteredSpectrumAt(ft: seq<Complex>, dt: real, hc: Option<seq<real>>, bp: Option<seq<real>>,
                           s0: seq<Complex>, s1: seq<Complex>, s2: seq<Complex>)
    requires dt != 0.0
    requires hc.Some? ==> |hc.value| == |ft|
    requires bp.Some? ==> |bp.value| == |ft|
    requires s0 == DivideAll(ft, dt)
    requires s1 == if hc.Some? then Apply(s0, hc.value) else s0
    requires s2 == if bp.Some? then Apply(s1, bp.value) else s1
    ensures |s2| == |ft|
    ensures forall i :: 0 <= i < |ft| ==>
      s2[i].re == ft[i].re / dt * Factor(hc, i) * Factor(bp, i) &&
      s2[i].im == ft[i].im / dt * Factor(hc, i) * Factor(bp, i)
  {
    forall i | 0 <= i < |ft|
      ensures s2[i].re == ft[i].re / dt * Factor(hc, i) * Factor(bp, i)
      ensures s2[i].im == ft[i].im / dt * Factor(hc, i) * Factor(bp, i)
    {
      assert s0[i] == Complex(ft[i].re / dt, ft[i].im / dt);
      assert s1[i] == Scale(s0[i], Factor(hc, i));
      assert s2[i] == Scale(s1[i], Factor(bp, i));
    }
  }

  /** Undoing the dt scaling: a stored FT of dt * raw comes back as the raw transform. */
  lemma UnfilteredSpectrumUndoesScaling(raw: seq<Complex>, dt: real)
    requires dt != 0.0
    ensures FilteredSpectrum(seq(|raw|, i requires 0 <= i < |raw| => Scale(raw[i], dt)), dt, None, None) == raw
  {
    var stored := seq(|raw|, i requires 0 <= i < |raw| => Scale(raw[i], dt));
    var s := FilteredSpectrum(stored, dt, None, None);
    forall i | 0 <= i < |raw|
      ensures s[i] == raw[i]
    {
      assert s[i].re == stored[i].re / dt * 1.0 * 1.0;
      assert s[i].im == stored[i].im / dt * 1.0 * 1.0;
      assert raw[i].re * dt / dt == raw[i].re;
      assert raw[i].im * dt / dt == raw[i].im;
    }
  }

  /** Both filters act pointwise, so the order they are applied in does not matter. */
  lemma FiltersCommute(s: seq<Complex>, hc: seq<real>, bp: seq<real>)
    requires |s| == |hc| == |bp|
    ensures Apply(Apply(s, hc), bp) == Apply(Apply(s, bp), hc)
  {
    forall i | 0 <= i < |s|
      ensures Apply(Apply(s, hc), bp)[i] == Apply(Apply(s, bp), hc)[i]
    {
      assert s[i].re * hc[i] * bp[i] == s[i].re * bp[i] * hc[i];
      assert s[i].im * hc[i] * bp[i] == s[i].im * bp[i] * hc[i];
    }
  }
}
