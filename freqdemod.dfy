/**
 * The Signal object of freqdemod.py: a signal with its name, unit and time step, which
 * binarate truncates in place to a power-of-two length, keeping the original.
 */
module FreqDemod {
  import opened Wrappers
  import opened Errors
  import opened Binarate

  class Signal {
    var s: seq<real>
    var sName: string
    var sUnit: string
    var dt: real
    /** s_original: empty until binarate saves a copy of s in it. */
    var sOriginal: seq<real>

    constructor (samples: seq<real>, name: string, unit: string, step: real)
      ensures s == samples && sName == name && sUnit == unit && dt == step
      ensures sOriginal == []
    {
      s := samples;
      sName := name;
      sUnit := unit;
      dt := step;
      sOriginal := [];
    }

    /**
     * binarate: save a copy of s, then keep the largest power-of-two run of it at the
     * start, middle or end. The copy is saved first, so it is saved even when the call
     * then fails: on an empty signal (the logarithm of zero) or on an unknown mode (the
     * index list is never bound); s is left alone in both cases.
     */
    method Binarate(mode: string) returns (r: Outcome<Error>)
      modifies this`s, this`sOriginal
      ensures sOriginal == old(s)
      ensures old(s) == [] ==> r == Fail(LogOfZero) && s == old(s)
      ensures old(s) != [] && ParseMode(mode).None? ==> r == Fail(UnknownMode(mode)) && s == old(s)
      ensures old(s) != [] && ParseMode(mode).Some? ==>
        r == Pass && s == Truncated(old(s), ParseMode(mode).value)
    {
      sOriginal := s;
      if |s| == 0 {
        return Fail(LogOfZero);
      }
      match ParseMode(mode)
      case None =>
        r := Fail(UnknownMode(mode));
      case Some(m) =>
        s := Truncated(s, m);
        r := Pass;
    }
  }

  /**
   * binarate leaves s as it was exactly when its length is already a power of two, so a
   * second call with the same mode keeps s (and only overwrites the saved original).
   */
  lemma BinarateKeepsOnlyPowersOfTwo(s0: seq<real>, mode: Mode)
    requires |s0| >= 1
    ensures Truncated(s0, mode) == s0 <==> IsPowerOfTwo(|s0|)
  {
    if IsPowerOfTwo(|s0|) {
      LargestPowerOfTwoOfPowerOfTwo(|s0|);
      var (lo, hi) := KeptRange(|s0|, mode);
      assert Truncated(s0, mode) == s0[lo..hi] == s0;
    }
  }
}
