/**
 * The spectral steps of the workup as functions of the stored arrays: the signal that is
 * Fourier transformed, the stored spectrum, and the complex signal the inverse transform
 * returns. The numerical transforms themselves are parameters.
 */
module Transforms {
  import opened Wrappers
  import opened Errors
  import opened Masks
  import opened Binarate
  import opened Window
  import opened Filters
  import opened Axes

  /**
   * numpy's w * s on two 1-D arrays: equal lengths multiply entry by entry, an array of
   * length 1 is stretched to the other's length, and any other pair of lengths is an error.
   */
  function Broadcast(w: seq<real>, s: seq<real>): (r: Result<seq<real>, Error>)
    ensures r.Success? <==> |w| == |s| || |w| == 1 || |s| == 1
    ensures r.Failure? ==> r.error == ShapeMismatch
    ensures r.Success? ==> |r.value| == if |w| == 1 then |s| else |w|
  {
    if |w| == |s| then Success(seq(|w|, i requires 0 <= i < |w| => w[i] * s[i]))
    else if |w| == 1 then Success(seq(|s|, i requires 0 <= i < |s| => w[0] * s[i]))
    else if |s| == 1 then Success(seq(|w|, i requires 0 <= i < |w| => w[i] * s[0]))
    else Failure(ShapeMismatch)
  }

  /** Broadcasting is symmetric: w * s and s * w are the same array. */
  lemma BroadcastCommutes(w: seq<real>, s: seq<real>)
    ensures Broadcast(w, s) == Broadcast(s, w)
  {
    if Broadcast(w, s).Success? {
      var a, b := Broadcast(w, s).value, Broadcast(s, w).value;
      assert |a| == |b|;
      forall i | 0 <= i < |a|
        ensures a[i] == b[i]
      {
        if |w| == |s| {
          assert a[i] == w[i] * s[i] && b[i] == s[i] * w[i];
        } else if |w| == 1 {
          assert a[i] == w[0] * s[i] && b[i] == s[i] * w[0];
        } else {
          assert a[i] == w[i] * s[0] && b[i] == s[0] * w[i];
        }
      }
      assert a == b;
    }
  }

  /**
   * The array fft() transforms: y, selected by the binarate mask if there is one, then
   * multiplied by the cyclicizing window if there is one.
   */
  function FftInput(y: seq<real>, mask: Option<seq<bool>>, window: Option<seq<real>>)
    : (r: Result<seq<real>, Error>)
    requires mask.Some? ==> |mask.value| == |y|
    ensures window.None? ==> r == Success(if mask.Some? then Select(y, mask.value) else y)
    ensures r.Failure? ==> window.Some? && r.error == ShapeMismatch
  {
    var s := if mask.Some? then Select(y, mask.value) else y;
    if window.Some? then Broadcast(window.value, s) else Success(s)
  }

  /**
   * A window as long as the masked signal (as time_window_cyclicize designs it) fits it:
   * the input is the product of the two, entry by entry.
   */
  lemma DesignedWindowFits(y: seq<real>, mask: seq<bool>, w: seq<real>)
    requires |mask| == |y| && |w| == CountTrue(mask)
    ensures FftInput(y, Some(mask), Some(w))
      == Success(seq(|w|, i requires 0 <= i < |w| => w[i] * Select(y, mask)[i]))
  {
    assert |w| == |Select(y, mask)|;
  }

  /**
   * After time_mask_binarate and a window designed for the masked signal, fft() transforms
   * the truncated signal times the window, and its length is a power of two.
   */
  lemma BinaratedInputIsPowerOfTwo(y: seq<real>, mode: Mode, ww: nat, taper: seq<real>)
    requires |y| >= 1 && |taper| == 2 * ww
    requires CyclicizeWindow(LargestPowerOfTwo(|y|), ww, taper).Success?
    ensures BinarateMask(|y|, ModeName(mode)).Success?
    ensures var m := BinarateMask(|y|, ModeName(mode)).value;
            var w := CyclicizeWindow(LargestPowerOfTwo(|y|), ww, taper).value;
            var r := FftInput(y, Some(m), Some(w));
            r.Success? && IsPowerOfTwo(|r.value|) &&
            r.value == seq(|w|, i requires 0 <= i < |w| => w[i] * Truncated(y, mode)[i])
  {
    TruncatedIsMaskSelection(y, mode);
    var m := BinarateMask(|y|, ModeName(mode)).value;
    DesignedWindowFits(y, m, CyclicizeWindow(LargestPowerOfTwo(|y|), ww, taper).value);
  }

  /**
   * A binarated record of at least two samples reaches the transform with an even power
   * of two samples, whatever window is stored: none, one as long as the masked signal,
   * or a one-sample window that broadcasts. A window of any other length fails on its
   * shape. A one-sample record binarates to one sample, and fft() stops at freq[1]
   * before any FT is stored.
   */
  lemma BinaratedInputHasEvenLength(y: seq<real>, mode: Mode, window: Option<seq<real>>)
    requires |y| >= 2
    ensures BinarateMask(|y|, ModeName(mode)).Success?
    ensures var r := FftInput(y, Some(BinarateMask(|y|, ModeName(mode)).value), window);
            (window.None? ==> r.Success?) &&
            (r.Success? ==> IsPowerOfTwo(|r.value|) && |r.value| >= 2 && |r.value| % 2 == 0)
  {
    TruncatedIsMaskSelection(y, mode);
    var n2 := LargestPowerOfTwo(|y|);
    assert |Truncated(y, mode)| == n2 >= 2;
    assert n2 % 2 == 0;
  }

  /**
   * The stored FT: dt * fftshift(fft(s)), so that it lines up with the stored frequency
   * axis fftshift(fftfreq(n, dt)).
   */
  function Spectrum(s: seq<real>, dt: real, transform: seq<real> -> seq<Complex>): (ft: seq<Complex>)
    requires |transform(s)| == |s|
    ensures |ft| == |s|
    ensures forall i :: 0 <= i < |s| / 2 ==> ft[i] == Scale(transform(s)[|s| - |s| / 2 + i], dt)
    ensures forall i :: |s| / 2 <= i < |s| ==> ft[i] == Scale(transform(s)[i - |s| / 2], dt)
  {
    var raw := FftShift(transform(s));
    seq(|raw|, i requires 0 <= i < |raw| => Scale(raw[i], dt))
  }

  /** The spectrum entry stored at index n/2 is the transform's zero-frequency term. */
  lemma SpectrumCentreIsDc(s: seq<real>, dt: real, transform: seq<real> -> seq<Complex>)
    requires |transform(s)| == |s| && |s| > 0 && dt > 0.0
    ensures Spectrum(s, dt, transform)[|s| / 2] == Scale(transform(s)[0], dt)
    ensures FreqAxis(|s|, dt)[|s| / 2] == 0.0
  {
    FreqAxisSign(|s|, dt, |s| / 2);
  }

  /**
   * The complex signal ifft() computes from a stored FT: divided by dt, times the filters
   * present, shifted back to the transform's own order and inverse transformed. For an
   * even number of samples the step as written in the source gives the same result.
   */
  function Reconstruct(ft: seq<Complex>, dt: real, hc: Option<seq<real>>, bp: Option<seq<real>>,
                       inverse: seq<Complex> -> seq<Complex>): (r: seq<Complex>)
    requires dt != 0.0
    requires hc.Some? ==> |hc.value| == |ft|
    requires bp.Some? ==> |bp.value| == |ft|
    ensures |ft| % 2 == 0 ==> r == ReconstructAsWritten(ft, dt, hc, bp, inverse)
  {
    var s := FilteredSpectrum(ft, dt, hc, bp);
    ShiftsByParity(s);
    inverse(IfftShift(s))
  }

  /**
   * The same step as demodulate.py writes it, with fftshift where ifftshift is meant. For
   * an odd number of samples the inverse transform receives the spectrum of the
   * corrected step rolled back by one bin.
   */
  function ReconstructAsWritten(ft: seq<Complex>, dt: real, hc: Option<seq<real>>, bp: Option<seq<real>>,
                                inverse: seq<Complex> -> seq<Complex>): (r: seq<Complex>)
    requires dt != 0.0
    requires hc.Some? ==> |hc.value| == |ft|
    requires bp.Some? ==> |bp.value| == |ft|
    ensures |ft| % 2 == 1 ==>
      var c := IfftShift(FilteredSpectrum(ft, dt, hc, bp));
      r == inverse(c[1..] + c[..1])
  {
    var s := FilteredSpectrum(ft, dt, hc, bp);
    ShiftsByParity(s);
    inverse(FftShift(s))
  }

  /** Before any filter, the stored spectrum divided by dt is fftshift(fft(s)). */
  lemma UnfilteredIsShiftedTransform(s: seq<real>, dt: real, transform: seq<real> -> seq<Complex>)
    requires |transform(s)| == |s| && dt != 0.0
    ensures FilteredSpectrum(Spectrum(s, dt, transform), dt, None, None) == FftShift(transform(s))
  {
    UnfilteredSpectrumUndoesScaling(FftShift(transform(s)), dt);
  }

  /**
   * Round trip: with no filter, the inverse step hands the inverse transform exactly the
   * transform of s, so an inverse that undoes the transform returns s itself as complex
   * samples.
   */
  lemma RoundTrip(s: seq<real>, dt: real, transform: seq<real> -> seq<Complex>,
                  inverse: seq<Complex> -> seq<Complex>)
    requires |transform(s)| == |s| && dt != 0.0
    requires inverse(transform(s)) == seq(|s|, i requires 0 <= i < |s| => Complex(s[i], 0.0))
    ensures Reconstruct(Spectrum(s, dt, transform), dt, None, None, inverse)
      == seq(|s|, i requires 0 <= i < |s| => Complex(s[i], 0.0))
  {
    UnfilteredIsShiftedTransform(s, dt, transform);
    IfftShiftUndoesFftShift(transform(s));
  }

  /**
   * For an odd number of samples the source's step hands the inverse transform the
   * spectrum rolled by one bin: the zero-frequency term lands at the end instead of first.
   */
  lemma AsWrittenRollsOddSpectra(s: seq<real>, dt: real, transform: seq<real> -> seq<Complex>,
                                 inverse: seq<Complex> -> seq<Complex>)
    requires |transform(s)| == |s| && dt != 0.0 && |s| % 2 == 1
    ensures ReconstructAsWritten(Spectrum(s, dt, transform), dt, None, None, inverse)
      == inverse(transform(s)[1..] + transform(s)[..1])
  {
    UnfilteredIsShiftedTransform(s, dt, transform);
    FftShiftTwiceOddRotates(transform(s));
  }
}
