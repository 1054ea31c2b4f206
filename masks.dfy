/**
 * Boolean masks over index ranges and numpy's boolean indexing `xs[m]`.
 */
module Masks {

  /** np.count_nonzero(m): the number of true entries. */
  function CountTrue(m: seq<bool>): (c: nat)
    ensures c <= |m|
  {
    if m == [] then 0 else CountTrue(m[..|m| - 1]) + (if m[|m| - 1] then 1 else 0)
  }

  /** xs[m]: the entries of xs at the positions where m is true, in order. */
  function Select<T>(xs: seq<T>, m: seq<bool>): (r: seq<T>)
    requires |xs| == |m|
    ensures |r| == CountTrue(m)
  {
    if xs == [] then []
    else Select(xs[..|xs| - 1], m[..|m| - 1]) + (if m[|m| - 1] then [xs[|xs| - 1]] else [])
  }

  /** (indices >= lo) & (indices < hi) over np.arange(n). */
  function RangeMask(n: nat, lo: int, hi: int): seq<bool>
  {
    seq(n, i => lo <= i < hi)
  }

  /** A mask that is true exactly on [lo, hi) selects the slice xs[lo..hi]. */
  lemma {:induction false} SelectRange<T>(xs: seq<T>, m: seq<bool>, lo: nat, hi: nat)
    requires |xs| == |m| && lo <= hi <= |xs|
    requires forall i :: 0 <= i < |m| ==> (m[i] <==> lo <= i < hi)
    ensures Select(xs, m) == xs[lo..hi]
  {
    var n := |xs|;
    if n == 0 {
      return;
    }
    var lo', hi' := if lo == n then n - 1 else lo, if hi == n then n - 1 else hi;
    SelectRange(xs[..n - 1], m[..n - 1], lo', hi');
    SliceSnoc(xs, lo, hi, lo', hi');
  }

  /** Dropping the last entry of xs shortens a slice that reaches the end by that entry. */
  lemma SliceSnoc<T>(xs: seq<T>, lo: nat, hi: nat, lo': nat, hi': nat)
    requires 0 < |xs| && lo <= hi <= |xs|
    requires lo' == (if lo == |xs| then |xs| - 1 else lo) && hi' == (if hi == |xs| then |xs| - 1 else hi)
    ensures lo' <= hi' <= |xs| - 1
    ensures xs[lo..hi] == xs[..|xs| - 1][lo'..hi'] + (if lo < hi == |xs| then [xs[|xs| - 1]] else [])
  {
    if lo < hi == |xs| {
      assert xs[lo..hi] == xs[lo..hi - 1] + [xs[hi - 1]];
    }
  }

  /** A mask that is true exactly on [lo, hi) has hi - lo true entries. */
  lemma CountRange(m: seq<bool>, lo: nat, hi: nat)
    requires lo <= hi <= |m|
    requires forall i :: 0 <= i < |m| ==> (m[i] <==> lo <= i < hi)
    ensures CountTrue(m) == hi - lo
  {
    SelectRange(m, m, lo, hi);
  }

  /**
   * The ripple-trim mask over an axis of n points with a dead time of ww points:
   * true on [ww, n - ww).
   */
  function RipplelessMask(n: nat, ww: nat): (m: seq<bool>)
    ensures |m| == n
  {
    RangeMask(n, ww, n - ww)
  }

  /** The mask keeps n - 2 ww points, or none when the dead time covers the whole axis. */
  lemma RipplelessCount(n: nat, ww: nat)
    ensures CountTrue(RipplelessMask(n, ww)) == if 2 * ww <= n then n - 2 * ww else 0
  {
    if 2 * ww <= n {
      CountRange(RangeMask(n, ww, n - ww), ww, n - ww);
    } else {
      CountRange(RangeMask(n, ww, n - ww), 0, 0);
    }
  }

  /**
   * The ripple-trim mask keeps exactly the samples at least ww points away from both
   * ends: it is true on [ww, n - ww) and nowhere else.
   */
  lemma RipplelessMaskIsRange(n: nat, ww: nat)
    ensures forall i :: 0 <= i < n ==> (RipplelessMask(n, ww)[i] <==> ww <= i < n - ww)
  {
  }

  /** Applied to an axis, the ripple-trim mask yields the interior slice. */
  lemma RipplelessSelectsInterior<T>(xs: seq<T>, ww: nat)
    requires 2 * ww <= |xs|
    ensures Select(xs, RipplelessMask(|xs|, ww)) == xs[ww..|xs| - ww]
  {
    RipplelessMaskIsRange(|xs|, ww);
    SelectRange(xs, RipplelessMask(|xs|, ww), ww, |xs| - ww);
  }
}
