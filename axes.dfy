/**
 * The two abscissae of the workup: the time axis x = dt * arange(n) and the frequency
 * axis fftshift(fftfreq(n, dt)) / 1E3 in kHz, together with the zero-frequency shifts
 * that the transforms apply to the spectrum.
 */
module Axes {
  import opened Filters

  /** dt * arange(n): the time of every sample. */
  function TimeAxis(n: nat, dt: real): (x: seq<real>)
    ensures |x| == n
    ensures n > 0 ==> x[0] == 0.0
  {
    seq(n, k => k as real * dt)
  }

  /** Consecutive samples of the time axis are dt apart. */
  lemma TimeAxisStep(n: nat, dt: real, k: nat)
    requires k + 1 < n
    ensures TimeAxis(n, dt)[k + 1] - TimeAxis(n, dt)[k] == dt
  {
    assert (k + 1) as real * dt == k as real * dt + dt;
  }

  /**
   * fftfreq(n, d): the sample frequencies in the transform's own order, the non-negative
   * ones 0 .. ceil(n/2) - 1 first and the negative ones -floor(n/2) .. -1 after them,
   * all in units of 1/(n d). The zero frequency comes first.
   */
  function FftFreq(n: nat, d: real): (f: seq<real>)
    requires n > 0 && d != 0.0
    ensures |f| == n
    ensures f[0] == 0.0
  {
    seq(n, i => (if i < (n - 1) / 2 + 1 then i else i - n) as real / (n as real * d))
  }

  /** fftshift: roll by floor(n/2), so that the last floor(n/2) entries come first. */
  function FftShift<T>(s: seq<T>): (r: seq<T>)
    ensures |r| == |s|
    ensures forall i :: 0 <= i < |s| / 2 ==> r[i] == s[|s| - |s| / 2 + i]
    ensures forall i :: |s| / 2 <= i < |s| ==> r[i] == s[i - |s| / 2]
  {
    s[|s| - |s| / 2..] + s[..|s| - |s| / 2]
  }

  /** ifftshift: roll back by floor(n/2), so that the first floor(n/2) entries go last. */
  function IfftShift<T>(s: seq<T>): (r: seq<T>)
    ensures |r| == |s|
    ensures forall i :: 0 <= i < |s| - |s| / 2 ==> r[i] == s[|s| / 2 + i]
    ensures forall i :: |s| - |s| / 2 <= i < |s| ==> r[i] == s[i - (|s| - |s| / 2)]
  {
    s[|s| / 2..] + s[..|s| / 2]
  }

  /** ifftshift undoes fftshift, for every length. */
  lemma IfftShiftUndoesFftShift<T>(s: seq<T>)
    ensures IfftShift(FftShift(s)) == s
  {
    var r := IfftShift(FftShift(s));
    forall i | 0 <= i < |s|
      ensures r[i] == s[i]
    {
    }
  }

  /** fftshift undoes ifftshift, for every length. */
  lemma FftShiftUndoesIfftShift<T>(s: seq<T>)
    ensures FftShift(IfftShift(s)) == s
  {
    var r := FftShift(IfftShift(s));
    forall i | 0 <= i < |s|
      ensures r[i] == s[i]
    {
    }
  }

  /** For an even length the two shifts are the same roll, so fftshift is its own inverse. */
  lemma FftShiftTwiceEven<T>(s: seq<T>)
    requires |s| % 2 == 0
    ensures FftShift(FftShift(s)) == s
  {
    assert FftShift(s) == IfftShift(s);
    FftShiftUndoesIfftShift(s);
  }

  /** For an odd length fftshift is not its own inverse: three samples come back rotated. */
  lemma FftShiftTwiceOdd()
    ensures FftShift(FftShift([1, 2, 3])) == [2, 3, 1]
    ensures FftShift(FftShift([1, 2, 3])) != [1, 2, 3]
  {
    assert FftShift([1, 2, 3]) == [3, 1, 2];
    assert FftShift([3, 1, 2]) == [2, 3, 1];
  }

  /**
   * For an odd length n = 2m + 1, applying fftshift twice rolls by 2m, which is a roll
   * back by one: the first sample moves to the end.
   */
  lemma FftShiftTwiceOddRotates<T>(s: seq<T>)
    requires |s| % 2 == 1
    ensures FftShift(FftShift(s)) == s[1..] + s[..1]
  {
    var r, q := FftShift(FftShift(s)), s[1..] + s[..1];
    forall i | 0 <= i < |s|
      ensures r[i] == q[i]
    {
      if i < |s| - 1 {
        assert q[i] == s[i + 1];
      } else {
        assert q[i] == s[0];
      }
    }
  }

  /**
   * For an odd length n = 2m + 1, fftshift rolls forward by m and ifftshift by m + 1, so
   * fftshift is ifftshift followed by a roll back by one.
   */
  lemma FftShiftOddIsRotatedIfftShift<T>(s: seq<T>)
    requires |s| % 2 == 1
    ensures FftShift(s) == IfftShift(s)[1..] + IfftShift(s)[..1]
  {
    var r, c := FftShift(s), IfftShift(s);
    var q := c[1..] + c[..1];
    forall i | 0 <= i < |s|
      ensures r[i] == q[i]
    {
      if i < |s| - 1 {
        assert q[i] == c[i + 1];
      } else {
        assert q[i] == c[0];
      }
    }
  }

  /**
   * The two shifts by parity of the length: the same roll for an even length, and for an
   * odd length fftshift is ifftshift rolled back by one.
   */
  lemma ShiftsByParity<T>(s: seq<T>)
    ensures |s| % 2 == 0 ==> FftShift(s) == IfftShift(s)
    ensures |s| % 2 == 1 ==> FftShift(s) == IfftShift(s)[1..] + IfftShift(s)[..1]
  {
    if |s| % 2 == 0 {
      assert FftShift(s) == IfftShift(s);
    } else {
      FftShiftOddIsRotatedIfftShift(s);
    }
  }

  /** After the shift the frequencies run in order: entry i is (i - floor(n/2)) / (n d). */
  lemma ShiftedFftFreq(n: nat, d: real)
    requires n > 0 && d != 0.0
    ensures forall i :: 0 <= i < n ==> FftShift(FftFreq(n, d))[i] == (i - n / 2) as real / (n as real * d)
  {
    var f := FftFreq(n, d);
    var r := FftShift(f);
    forall i | 0 <= i < n
      ensures r[i] == (i - n / 2) as real / (n as real * d)
    {
      if i < n / 2 {
        assert r[i] == f[n - n / 2 + i];
        assert n - n / 2 + i >= (n - 1) / 2 + 1;
      } else {
        assert r[i] == f[i - n / 2];
      }
    }
  }

  /**
   * The stored frequency axis: fftshift(fftfreq(n, dt)) in kHz. The shift moves the zero
   * frequency to index floor(n/2).
   */
  function FreqAxis(n: nat, dt: real): (f: seq<real>)
    requires n > 0 && dt != 0.0
    ensures |f| == n
    ensures f[n / 2] == 0.0
  {
    ShiftedFftFreq(n, dt);
    seq(n, i requires 0 <= i < n => FftShift(FftFreq(n, dt))[i] / 1000.0)
  }

  /** Entry i of the stored axis is (i - floor(n/2)) / (n dt) / 1000. */
  lemma FreqAxisAt(n: nat, dt: real, i: nat)
    requires n > 0 && dt != 0.0 && i < n
    ensures FreqAxis(n, dt)[i] == (i - n / 2) as real / (n as real * dt) / 1000.0
  {
    ShiftedFftFreq(n, dt);
  }

  lemma QuotientSign(k: real, d: real)
    requires d > 0.0
    ensures k / d / 1000.0 < 0.0 <==> k < 0.0
    ensures k / d / 1000.0 == 0.0 <==> k == 0.0
  {
    var q := k / d;
    assert q * d == k;
    if k < 0.0 {
      assert q < 0.0;
    } else if k > 0.0 {
      assert q > 0.0;
    }
  }

  lemma PositiveStep(n: nat, dt: real, p: real)
    requires n > 0 && dt > 0.0 && p == n as real * dt
    ensures p > 0.0
  {
  }

  /**
   * With a positive time step the axis is negative before index floor(n/2), exactly zero
   * there (the DC bin) and positive after it.
   */
  lemma FreqAxisSign(n: nat, dt: real, i: nat)
    requires n > 0 && dt > 0.0 && i < n
    ensures FreqAxis(n, dt)[i] < 0.0 <==> i < n / 2
    ensures FreqAxis(n, dt)[i] == 0.0 <==> i == n / 2
    ensures FreqAxis(n, dt)[i] > 0.0 <==> i > n / 2
  {
    FreqAxisAt(n, dt, i);
    var p := n as real * dt;
    PositiveStep(n, dt, p);
    QuotientSign((i - n / 2) as real, p);
  }

  lemma QuotientMonotone(k: real, l: real, d: real)
    requires d > 0.0 && k < l
    ensures k / d / 1000.0 < l / d / 1000.0
  {
    assert l / d - k / d == (l - k) / d;
    QuotientSign(l - k, d);
  }

  /** With a positive time step the frequency axis is strictly increasing. */
  lemma FreqAxisIncreasing(n: nat, dt: real, i: nat, j: nat)
    requires n > 0 && dt > 0.0 && i < j < n
    ensures FreqAxis(n, dt)[i] < FreqAxis(n, dt)[j]
  {
    FreqAxisAt(n, dt, i);
    FreqAxisAt(n, dt, j);
    var p := n as real * dt;
    PositiveStep(n, dt, p);
    QuotientMonotone((i - n / 2) as real, (j - n / 2) as real, p);
  }

  /**
   * On the stored axis the sideband filter is 0 below the DC bin, 1 on it and 2 above it:
   * it keeps the positive frequencies, doubled.
   */
  lemma HilbertOnFreqAxis(n: nat, dt: real)
    requires n > 0 && dt > 0.0
    ensures Hilbert(FreqAxis(n, dt)) == seq(n, i => if i < n / 2 then 0.0 else if i == n / 2 then 1.0 else 2.0)
  {
    var h := Hilbert(FreqAxis(n, dt));
    forall i | 0 <= i < n
      ensures h[i] == if i < n / 2 then 0.0 else if i == n / 2 then 1.0 else 2.0
    {
      FreqAxisSign(n, dt, i);
    }
  }
}
