/**
 * Power-of-two truncation ("binarate"): choose the largest power of two n2 <= n and a
 * contiguous range of width n2, at the start, in the middle or at the end of the signal.
 * Both Signal classes share it: demodulate.py turns the range into a boolean mask,
 * freqdemod.py slices the signal with it.
 */
module Binarate {
  import opened Wrappers
  import opened Errors
  import opened Masks

  predicate IsPowerOfTwo(k: nat)
  {
    k == 1 || (k >= 2 && k % 2 == 0 && IsPowerOfTwo(k / 2))
  }

  /** n2 = 2^floor(log2 n), computed exactly on integers. */
  function LargestPowerOfTwo(n: nat): (n2: nat)
    requires n >= 1
    ensures IsPowerOfTwo(n2) && n2 <= n < 2 * n2
  {
    if n == 1 then 1 else 2 * LargestPowerOfTwo(n / 2)
  }

  /** Only one power of two brackets n, so n2 is determined by n2 <= n < 2 * n2. */
  lemma {:induction false} PowerOfTwoBracketUnique(n: nat, p: nat)
    requires n >= 1 && IsPowerOfTwo(p) && p <= n < 2 * p
    ensures p == LargestPowerOfTwo(n)
  {
    if p != 1 {
      PowerOfTwoBracketUnique(n / 2, p / 2);
    }
  }

  /** A length that is already a power of two is kept whole. */
  lemma LargestPowerOfTwoOfPowerOfTwo(n: nat)
    requires n >= 1 && IsPowerOfTwo(n)
    ensures LargestPowerOfTwo(n) == n
  {
    PowerOfTwoBracketUnique(n, n);
  }

  /** The closed set of modes; any other string is rejected by ParseMode. */
  datatype Mode = Start | Middle | End

  /** The mode a string names, if it names one. */
  function ParseMode(s: string): Option<Mode>
  {
    if s == "middle" then Some(Middle)
    else if s == "start" then Some(Start)
    else if s == "end" then Some(End)
    else None
  }

  /** The string that selects a mode. */
  function ModeName(m: Mode): (s: string)
    ensures ParseMode(s) == Some(m)
  {
    match m
    case Start => "start"
    case Middle => "middle"
    case End => "end"
  }

  /** ParseMode inverts ModeName: a string that parses is the name of the mode it parses to. */
  lemma ParseModeInvertsModeName(s: string)
    ensures ParseMode(s).Some? ==> ModeName(ParseMode(s).value) == s
  {
  }

  /**
   * The kept index range [start, stop) for a signal of n points: of width n2 and inside
   * [0, n); in the middle mode the points dropped at the two ends differ by at most one,
   * the extra one being dropped at the end.
   */
  function KeptRange(n: nat, mode: Mode): (r: (nat, nat))
    requires n >= 1
    ensures r.0 + LargestPowerOfTwo(n) == r.1 <= n
    ensures mode == Start ==> r.0 == 0
    ensures mode == Middle ==> r.0 <= n - r.1 <= r.0 + 1
    ensures mode == End ==> r.1 == n
  {
    var n2 := LargestPowerOfTwo(n);
    match mode
    case Start => (0, n2)
    case Middle => ((n - n2) / 2, (n - n2) / 2 + n2)
    case End => (n - n2, n)
  }

  /**
   * The binarate mask of demodulate.py: an empty signal fails in math.log, an unknown
   * mode fails because the range is never bound, and otherwise the mask has n entries
   * and is true exactly on the kept range, so n2 of them are true.
   */
  function BinarateMask(n: nat, mode: string): (r: Result<seq<bool>, Error>)
    ensures n == 0 ==> r == Failure(LogOfZero)
    ensures n >= 1 && ParseMode(mode).None? ==> r == Failure(UnknownMode(mode))
    ensures r.Success? <==> n >= 1 && ParseMode(mode).Some?
    ensures r.Success? ==> |r.value| == n && CountTrue(r.value) == LargestPowerOfTwo(n)
    ensures r.Success? ==>
      var (lo, hi) := KeptRange(n, ParseMode(mode).value);
      forall i :: 0 <= i < n ==> (r.value[i] <==> lo <= i < hi)
  {
    if n == 0 then Failure(LogOfZero)
    else match ParseMode(mode)
      case None => Failure(UnknownMode(mode))
      case Some(m) =>
        var (lo, hi) := KeptRange(n, m);
        CountRange(RangeMask(n, lo, hi), lo, hi);
        Success(RangeMask(n, lo, hi))
  }

  /** When n is already a power of two the mask keeps every point, whatever the mode. */
  lemma BinarateMaskOfPowerOfTwo(n: nat, mode: string)
    requires n >= 1 && IsPowerOfTwo(n) && ParseMode(mode).Some?
    ensures BinarateMask(n, mode) == Success(seq(n, i => true))
  {
    LargestPowerOfTwoOfPowerOfTwo(n);
    var m := BinarateMask(n, mode).value;
    assert forall i :: 0 <= i < n ==> m[i];
    assert m == seq(n, i => true);
  }

  /** The in-place truncation of freqdemod.py: the kept range of s, sliced out. */
  function Truncated<T>(s: seq<T>, mode: Mode): (r: seq<T>)
    requires |s| >= 1
    ensures |r| == LargestPowerOfTwo(|s|) && IsPowerOfTwo(|r|)
  {
    var (lo, hi) := KeptRange(|s|, mode);
    s[lo..hi]
  }

  /** The two versions agree: slicing equals selecting with the mask of the same mode. */
  lemma TruncatedIsMaskSelection<T>(s: seq<T>, mode: Mode)
    requires |s| >= 1
    ensures BinarateMask(|s|, ModeName(mode)).Success?
    ensures Truncated(s, mode) == Select(s, BinarateMask(|s|, ModeName(mode)).value)
  {
    var (lo, hi) := KeptRange(|s|, mode);
    var m := BinarateMask(|s|, ModeName(mode)).value;
    SelectRange(s, m, lo, hi);
  }

  /** Truncating again changes nothing: the kept signal is already a power of two long. */
  lemma TruncatedIdempotent<T>(s: seq<T>, mode: Mode)
    requires |s| >= 1
    ensures Truncated(Truncated(s, mode), mode) == Truncated(s, mode)
  {
    var t := Truncated(s, mode);
    LargestPowerOfTwoOfPowerOfTwo(|t|);
    assert t[0..|t|] == t;
  }
}
