/**
 * The Signal object of demodulate.py. Its state is an in-memory HDF5 file; every dataset
 * the workup creates is a field here, absent (None) until the step that creates it has
 * run. Like h5py's create_dataset, a step that would create a dataset that already exists
 * fails, and a step that reads a dataset that does not exist fails too. A step that fails
 * part-way keeps the datasets it created before failing, as the file does.
 */
module Demodulate {
  import opened Wrappers
  import opened Errors
  import opened Masks
  import opened Binarate
  import opened Window
  import opened Filters
  import opened Axes
  import opened Transforms

  const BinarateKey := "workup/time/mask/binarate"
  const XBinaratedKey := "workup/x_binarated"
  const WindowKey := "workup/time/window/cyclicize"
  const FreqKey := "workup/freq/freq"
  const FtKey := "workup/freq/FT"
  const HcKey := "workup/freq/filter/Hc"
  const BpKey := "workup/freq/filter/bp"
  const RipplelessKey := "workup/time/mask/rippleless"
  const ZKey := "workup/time/z"

  /** The abscissa recorded for z, p and a: x, workup/x_binarated or workup/x_rippleless. */
  datatype Axis = X | XBinarated | XRippleless

  /**
   * abs() of a complex array, for the peak search over |FT| and for the amplitude a = |z|:
   * one modulus per sample, and never negative, since a modulus is not.
   */
  function Moduli(zs: seq<Complex>, modulus: Complex -> real): (a: seq<real>)
    requires forall c :: modulus(c) >= 0.0
    ensures |a| == |zs|
    ensures forall i :: 0 <= i < |a| ==> a[i] >= 0.0
  {
    seq(|zs|, i requires 0 <= i < |zs| => modulus(zs[i]))
  }

  class Signal {
    /** 'y': the signal samples. */
    var y: seq<real>
    /** 'x': the sample times. */
    var x: seq<real>
    /** x.attrs['step']: the time per point. */
    var dt: real
    var binarate: Option<seq<bool>>
    var xBinarated: Option<seq<real>>
    var window: Option<seq<real>>
    var freq: Option<seq<real>>
    var ft: Option<seq<Complex>>
    var hc: Option<seq<real>>
    var bp: Option<seq<real>>
    var rippleless: Option<seq<bool>>
    var xRippleless: Option<seq<real>>
    var z: Option<seq<Complex>>
    var phase: Option<seq<real>>
    var amplitude: Option<seq<real>>
    var zAxis: Option<Axis>

    /**
     * What every step keeps true of the file: the time axis is dt * arange(n); a binarate
     * mask covers y and keeps a power-of-two count; x_binarated is x under that mask; the
     * frequency axis is fftshift(fftfreq(n, dt)) in kHz, and FT, Hc and bp lie on it, with
     * Hc the sideband filter of that axis; x_rippleless holds one time per kept point of
     * the rippleless mask; z, p and a exist together and have one entry per sample, every
     * amplitude is non-negative, and z trimmed by the rippleless mask is as long as
     * x_rippleless.
     */
    ghost predicate Valid()
      reads this
    {
      && dt > 0.0
      && x == TimeAxis(|y|, dt)
      && (binarate.Some? ==>
            |y| >= 1 && |binarate.value| == |y| && CountTrue(binarate.value) == LargestPowerOfTwo(|y|))
      && (xBinarated.Some? ==> binarate.Some? && xBinarated.value == Select(x, binarate.value))
      && (freq.Some? ==> |freq.value| >= 1 && freq.value == FreqAxis(|freq.value|, dt))
      && (ft.Some? ==> freq.Some? && |ft.value| == |freq.value|)
      && (hc.Some? ==> freq.Some? && hc.value == Hilbert(freq.value))
      && (bp.Some? ==> hc.Some? && ft.Some? && |bp.value| == |freq.value|)
      && (rippleless.Some? <==> xRippleless.Some?)
      && (rippleless.Some? ==> |xRippleless.value| == CountTrue(rippleless.value))
      && (z.Some? <==> phase.Some?) && (z.Some? <==> amplitude.Some?) && (z.Some? <==> zAxis.Some?)
      && (z.Some? ==> |phase.value| == |z.value| && |amplitude.value| == |z.value|)
      && (amplitude.Some? ==> forall i :: 0 <= i < |amplitude.value| ==> amplitude.value[i] >= 0.0)
      && (zAxis == Some(XRippleless) ==> rippleless.Some? && |z.value| == |xRippleless.value|)
    }

    /**
     * load_nparray on a freshly opened file: 'x' = dt * arange(n) and 'y' = s, and no
     * workup yet.
     */
    constructor Load(s: seq<real>, step: real)
      requires step > 0.0
      ensures Valid()
      ensures y == s && dt == step && x == TimeAxis(|s|, step)
      ensures binarate.None? && xBinarated.None? && window.None?
      ensures freq.None? && ft.None? && hc.None? && bp.None?
      ensures rippleless.None? && xRippleless.None?
      ensures z.None? && phase.None? && amplitude.None? && zAxis.None?
    {
      y := s;
      x := TimeAxis(|s|, step);
      dt := step;
      binarate, xBinarated, window := None, None, None;
      freq, ft, hc, bp := None, None, None, None;
      rippleless, xRippleless := None, None;
      z, phase, amplitude, zAxis := None, None, None, None;
    }

    /**
     * time_mask_binarate: the mask that truncates y to the largest power of two, kept at
     * the start, the middle or the end. An empty signal or an unknown mode fails before
     * the mask is stored; an existing mask cannot be replaced.
     */
    method TimeMaskBinarate(mode: string) returns (r: Outcome<Error>)
      requires Valid()
      modifies this`binarate
      ensures Valid()
      ensures BinarateMask(|y|, mode).Failure? ==>
        r == Fail(BinarateMask(|y|, mode).error) && binarate == old(binarate)
      ensures BinarateMask(|y|, mode).Success? && old(binarate).Some? ==>
        r == Fail(KeyExists(BinarateKey)) && binarate == old(binarate)
      ensures BinarateMask(|y|, mode).Success? && old(binarate).None? ==>
        r == Pass && binarate == Some(BinarateMask(|y|, mode).value)
    {
      var m := BinarateMask(|y|, mode);
      if m.Failure? {
        return Fail(m.error);
      }
      if binarate.Some? {
        return Fail(KeyExists(BinarateKey));
      }
      binarate := Some(m.value);
      r := Pass;
    }

    /**
     * time_window_cyclicize with a rise/fall of ww points and the Blackman taper of 2 ww
     * points: the window is designed for the masked length when a binarate mask exists
     * (storing x_binarated first, whose first two entries must exist), else for the
     * whole of y. The window is the rising taper half, ones, and the falling half.
     */
    method TimeWindowCyclicize(ww: nat, taper: seq<real>) returns (r: Outcome<Error>)
      requires Valid() && |taper| == 2 * ww
      modifies this`xBinarated, this`window
      ensures Valid()
      ensures old(binarate).Some? && old(xBinarated).Some? ==>
        r == Fail(KeyExists(XBinaratedKey)) && xBinarated == old(xBinarated) && window == old(window)
      ensures old(binarate).Some? && old(xBinarated).None? ==>
        xBinarated == Some(Select(x, binarate.value))
      ensures old(binarate).Some? && old(xBinarated).None? && CountTrue(binarate.value) < 2 ==>
        r == Fail(IndexOutOfRange) && window == old(window)
      ensures old(binarate).None? ==> xBinarated == old(xBinarated)
      ensures var n := if binarate.Some? then CountTrue(binarate.value) else |y|;
              (binarate.Some? ==> old(xBinarated).None? && n >= 2) ==>
                (CyclicizeWindow(n, ww, taper).Failure? ==> r == Fail(NegativeDimension) && window == old(window)) &&
                (CyclicizeWindow(n, ww, taper).Success? && old(window).Some? ==>
                   r == Fail(KeyExists(WindowKey)) && window == old(window)) &&
                (CyclicizeWindow(n, ww, taper).Success? && old(window).None? ==>
                   r == Pass && window == Some(CyclicizeWindow(n, ww, taper).value))
    {
      var n: nat;
      r, n := DesignLength();
      if r == Pass {
        r := StoreWindow(n, ww, taper);
      }
    }

    /**
     * The first half of time_window_cyclicize: the length the window is designed for,
     * storing x_binarated on the way when a binarate mask exists.
     */
    method DesignLength() returns (r: Outcome<Error>, n: nat)
      requires Valid()
      modifies this`xBinarated
      ensures Valid()
      ensures old(binarate).Some? && old(xBinarated).Some? ==>
        r == Fail(KeyExists(XBinaratedKey)) && xBinarated == old(xBinarated)
      ensures old(binarate).Some? && old(xBinarated).None? ==>
        xBinarated == Some(Select(x, binarate.value)) && n == CountTrue(binarate.value) &&
        (r == Pass <==> n >= 2) && (r != Pass ==> r == Fail(IndexOutOfRange))
      ensures old(binarate).None? ==> xBinarated == old(xBinarated) && r == Pass && n == |y|
    {
      if binarate.Some? {
        if xBinarated.Some? {
          return Fail(KeyExists(XBinaratedKey)), 0;
        }
        var xb := Select(x, binarate.value);
        xBinarated := Some(xb);
        n := |xb|;
        if n < 2 {
          return Fail(IndexOutOfRange), n;
        }
      } else {
        n := |y|;
      }
      r := Pass;
    }

    /** The second half of time_window_cyclicize: the window for n points, stored. */
    method StoreWindow(n: nat, ww: nat, taper: seq<real>) returns (r: Outcome<Error>)
      requires Valid() && |taper| == 2 * ww
      modifies this`window
      ensures Valid()
      ensures CyclicizeWindow(n, ww, taper).Failure? ==> r == Fail(NegativeDimension) && window == old(window)
      ensures CyclicizeWindow(n, ww, taper).Success? && old(window).Some? ==>
        r == Fail(KeyExists(WindowKey)) && window == old(window)
      ensures CyclicizeWindow(n, ww, taper).Success? && old(window).None? ==>
        r == Pass && window == Some(CyclicizeWindow(n, ww, taper).value)
    {
      var w := CyclicizeWindow(n, ww, taper);
      if w.Failure? {
        return Fail(w.error);
      }
      if window.Some? {
        return Fail(KeyExists(WindowKey));
      }
      window := Some(w.value);
      r := Pass;
    }

    /**
     * fft: transform y (masked, then windowed, as available), store the frequency axis in
     * kHz and dt * fftshift(fft(s)). An empty array cannot be transformed; a single sample
     * gets its frequency axis stored but then fails when the axis step freq[1] - freq[0]
     * is read, so no FT is stored.
     */
    method Fft(transform: seq<real> -> seq<Complex>) returns (r: Outcome<Error>)
      requires Valid()
      requires forall v :: |transform(v)| == |v|
      modifies this`freq, this`ft
      ensures Valid()
      ensures FftInput(y, binarate, window).Failure? ==>
        r == Fail(ShapeMismatch) && freq == old(freq) && ft == old(ft)
      ensures FftInput(y, binarate, window) == Success([]) ==>
        r == Fail(EmptyTransform) && freq == old(freq) && ft == old(ft)
      ensures var s := FftInput(y, binarate, window);
              s.Success? && |s.value| >= 1 ==>
                (old(freq).Some? ==> r == Fail(KeyExists(FreqKey)) && freq == old(freq) && ft == old(ft)) &&
                (old(freq).None? ==> freq == Some(FreqAxis(|s.value|, dt))) &&
                (old(freq).None? && |s.value| == 1 ==> r == Fail(IndexOutOfRange) && ft == old(ft)) &&
                (old(freq).None? && |s.value| >= 2 ==> r == Pass && ft == Some(Spectrum(s.value, dt, transform)))
    {
      var input := FftInput(y, binarate, window);
      if input.Failure? {
        return Fail(input.error);
      }
      var s := input.value;
      if |s| == 0 {
        return Fail(EmptyTransform);
      }
      if freq.Some? {
        return Fail(KeyExists(FreqKey));
      }
      freq := Some(FreqAxis(|s|, dt));
      if |s| < 2 {
        return Fail(IndexOutOfRange);
      }
      ft := Some(Spectrum(s, dt, transform));
      r := Pass;
    }

    /**
     * freq_filter_Hilbert_complex: the sideband filter over the stored frequency axis,
     * 0 for negative, 1 for zero and 2 for positive frequencies.
     */
    method FreqFilterHilbertComplex() returns (r: Outcome<Error>)
      requires Valid()
      modifies this`hc
      ensures Valid()
      ensures old(freq).None? ==> r == Fail(MissingKey(FreqKey)) && hc == old(hc)
      ensures old(freq).Some? && old(hc).Some? ==> r == Fail(KeyExists(HcKey)) && hc == old(hc)
      ensures old(freq).Some? && old(hc).None? ==> r == Pass && hc == Some(Hilbert(freq.value))
    {
      if freq.None? {
        return Fail(MissingKey(FreqKey));
      }
      if hc.Some? {
        return Fail(KeyExists(HcKey));
      }
      hc := Some(Hilbert(freq.value));
      r := Pass;
    }

    /**
     * freq_filter_bp: a bandpass filter of bandwidth bw (kHz) and the given order,
     * centred on the frequency where Hc * |FT| peaks (the first such bin). It reads the
     * frequency axis, Hc and FT, in that order.
     */
    method FreqFilterBp(bw: real, order: nat, modulus: Complex -> real) returns (r: Outcome<Error>)
      requires Valid()
      requires forall c :: modulus(c) >= 0.0
      modifies this`bp
      ensures Valid()
      ensures bp.Some? ==> old(bp).Some? || r == Pass
      ensures old(freq).None? ==> r == Fail(MissingKey(FreqKey)) && bp == old(bp)
      ensures old(freq).Some? && old(hc).None? ==> r == Fail(MissingKey(HcKey)) && bp == old(bp)
      ensures old(freq).Some? && old(hc).Some? && old(ft).None? ==> r == Fail(MissingKey(FtKey)) && bp == old(bp)
      ensures freq.Some? && hc.Some? && ft.Some? ==>
        (bw == 0.0 ==> r == Fail(ZeroBandwidth) && bp == old(bp)) &&
        (bw != 0.0 && old(bp).Some? ==> r == Fail(KeyExists(BpKey)) && bp == old(bp)) &&
        (bw != 0.0 && old(bp).None? ==>
           r == Pass &&
           bp == Some(Bandpass(freq.value, freq.value[CenterIndex(hc.value, Moduli(ft.value, modulus))], bw, order)))
    {
      if freq.None? {
        return Fail(MissingKey(FreqKey));
      }
      if hc.None? {
        return Fail(MissingKey(HcKey));
      }
      if ft.None? {
        return Fail(MissingKey(FtKey));
      }
      var fc := freq.value[CenterIndex(hc.value, Moduli(ft.value, modulus))];
      if bw == 0.0 {
        return Fail(ZeroBandwidth);
      }
      if bp.Some? {
        return Fail(KeyExists(BpKey));
      }
      bp := Some(Bandpass(freq.value, fc, bw, order));
      r := Pass;
    }

    /**
     * time_mask_rippleless with a dead time of ww points: the mask keeps [ww, n - ww) of
     * the time axis in use (x_binarated when a binarate mask exists, else x), and
     * x_rippleless is that axis under the mask. Both are stored before the first two
     * entries of x_rippleless are read.
     */
    method TimeMaskRippleless(ww: nat) returns (r: Outcome<Error>)
      requires Valid()
      modifies this`rippleless, this`xRippleless
      ensures Valid()
      ensures binarate.Some? && xBinarated.None? ==>
        r == Fail(MissingKey(XBinaratedKey)) && rippleless == old(rippleless) && xRippleless == old(xRippleless)
      ensures var axis := if binarate.Some? then xBinarated else Some(x);
              axis.Some? ==>
                (old(rippleless).Some? ==>
                   r == Fail(KeyExists(RipplelessKey)) && rippleless == old(rippleless) && xRippleless == old(xRippleless)) &&
                (old(rippleless).None? ==>
                   rippleless == Some(RipplelessMask(|axis.value|, ww)) &&
                   xRippleless == Some(Select(axis.value, RipplelessMask(|axis.value|, ww))) &&
                   (r == Pass <==> 2 * ww + 2 <= |axis.value|) &&
                   (r != Pass ==> r == Fail(IndexOutOfRange)))
    {
      var axis: seq<real>;
      if binarate.Some? {
        if xBinarated.None? {
          return Fail(MissingKey(XBinaratedKey));
        }
        axis := xBinarated.value;
      } else {
        axis := x;
      }
      var m := RipplelessMask(|axis|, ww);
      RipplelessCount(|axis|, ww);
      if rippleless.Some? {
        return Fail(KeyExists(RipplelessKey));
      }
      rippleless := Some(m);
      xRippleless := Some(Select(axis, m));
      if CountTrue(m) < 2 {
        return Fail(IndexOutOfRange);
      }
      r := Pass;
    }

    /**
     * ifft: the stored FT divided by dt and multiplied by the filters present, shifted back
     * to transform order and inverse transformed; trimmed by the rippleless mask if there
     * is one; stored as z with its phase (in cycles) and amplitude. The shift back is
     * ifftshift here, where the source applies fftshift.
     */
    method Ifft(inverse: seq<Complex> -> seq<Complex>, phaseOf: seq<Complex> -> seq<real>,
                modulus: Complex -> real) returns (r: Outcome<Error>)
      requires Valid()
      requires forall v :: |inverse(v)| == |v|
      requires forall v :: |phaseOf(v)| == |v|
      requires forall c :: modulus(c) >= 0.0
      modifies this`z, this`phase, this`amplitude, this`zAxis
      ensures Valid()
      ensures r != Pass ==> z == old(z) && phase == old(phase) && amplitude == old(amplitude) && zAxis == old(zAxis)
      ensures ft.None? ==> r == Fail(MissingKey(FtKey))
      ensures ft.Some? && rippleless.Some? && |rippleless.value| != |ft.value| ==> r == Fail(IndexOutOfRange)
      ensures ft.Some? && (rippleless.Some? ==> |rippleless.value| == |ft.value|) ==>
        var sIft := Reconstruct(ft.value, dt, hc, bp, inverse);
        var out := if rippleless.Some? then Select(sIft, rippleless.value) else sIft;
        (old(z).Some? ==> r == Fail(KeyExists(ZKey))) &&
        (old(z).None? ==>
           r == Pass && z == Some(out) && phase == Some(phaseOf(out)) && amplitude == Some(Moduli(out, modulus)) &&
           zAxis == Some(if rippleless.Some? then XRippleless else if binarate.Some? then XBinarated else X))
    {
      if ft.None? {
        return Fail(MissingKey(FtKey));
      }
      var sIft := Reconstruct(ft.value, dt, hc, bp, inverse);
      var out: seq<Complex>;
      var axis: Axis;
      if rippleless.Some? {
        if |rippleless.value| != |sIft| {
          return Fail(IndexOutOfRange);
        }
        out := Select(sIft, rippleless.value);
        axis := XRippleless;
      } else {
        out := sIft;
        axis := if binarate.Some? then XBinarated else X;
      }
      r := StoreZ(out, axis, phaseOf, modulus);
    }

    /** The last part of ifft: store z against its abscissa, with its phase and amplitude. */
    method StoreZ(out: seq<Complex>, axis: Axis, phaseOf: seq<Complex> -> seq<real>,
                  modulus: Complex -> real) returns (r: Outcome<Error>)
      requires Valid()
      requires forall v :: |phaseOf(v)| == |v|
      requires forall c :: modulus(c) >= 0.0
      requires axis == XRippleless ==> rippleless.Some? && |out| == |xRippleless.value|
      modifies this`z, this`phase, this`amplitude, this`zAxis
      ensures Valid()
      ensures old(z).Some? ==>
        r == Fail(KeyExists(ZKey)) &&
        z == old(z) && phase == old(phase) && amplitude == old(amplitude) && zAxis == old(zAxis)
      ensures old(z).None? ==>
        r == Pass && z == Some(out) && phase == Some(phaseOf(out)) && amplitude == Some(Moduli(out, modulus)) &&
        zAxis == Some(axis)
    {
      if z.Some? {
        return Fail(KeyExists(ZKey));
      }
      z := Some(out);
      zAxis := Some(axis);
      phase := Some(phaseOf(out));
      amplitude := Some(Moduli(out, modulus));
      r := Pass;
    }
  }
}
