/**
 * The cyclicizing window: the rising half of a taper of width 2*ww, a run of ones, and
 * the falling half of the same taper. The taper values (a Blackman window) come from the
 * numerics library and are a parameter here.
 */
module Window {
  import opened Wrappers
  import opened Errors

  function Ones(k: nat): seq<real>
  {
    seq(k, _ => 1.0)
  }

  /**
   * The window of n points with a rise/fall of ww points. np.ones(n - 2*ww) raises when
   * 2*ww > n; otherwise the first ww entries are the taper's first half, the middle is
   * exactly 1.0 and the last ww entries are the taper's second half.
   */
  function CyclicizeWindow(n: nat, ww: nat, taper: seq<real>): (r: Result<seq<real>, Error>)
    requires |taper| == 2 * ww
    ensures r.Success? <==> 2 * ww <= n
    ensures r.Failure? ==> r.error == NegativeDimension
    ensures r.Success? ==> |r.value| == n
    ensures r.Success? ==> forall i :: 0 <= i < ww ==> r.value[i] == taper[i]
    ensures r.Success? ==> forall i :: ww <= i < n - ww ==> r.value[i] == 1.0
    ensures r.Success? ==> forall i :: n - ww <= i < n ==> r.value[i] == taper[i - (n - 2 * ww)]
  {
    if n < 2 * ww then Failure(NegativeDimension)
    else Success(taper[..ww] + Ones(n - 2 * ww) + taper[|taper| - ww..])
  }

  /** A taper that reads the same backwards. */
  ghost predicate Symmetric(s: seq<real>)
  {
    forall i :: 0 <= i < |s| ==> s[i] == s[|s| - 1 - i]
  }

  /** A symmetric taper gives a symmetric window: the rise mirrors the fall. */
  lemma WindowSymmetric(n: nat, ww: nat, taper: seq<real>)
    requires |taper| == 2 * ww && 2 * ww <= n && Symmetric(taper)
    ensures Symmetric(CyclicizeWindow(n, ww, taper).value)
  {
    var w := CyclicizeWindow(n, ww, taper).value;
    forall i | 0 <= i < n
      ensures w[i] == w[n - 1 - i]
    {
      if i < ww {
        assert w[n - 1 - i] == taper[2 * ww - 1 - i];
      } else if i >= n - ww {
        assert taper[i - (n - 2 * ww)] == taper[2 * ww - 1 - (i - (n - 2 * ww))];
      }
    }
  }

  /** Taper values in [0, 1] give window values in [0, 1]. */
  lemma WindowBounded(n: nat, ww: nat, taper: seq<real>)
    requires |taper| == 2 * ww && 2 * ww <= n
    requires forall i :: 0 <= i < |taper| ==> 0.0 <= taper[i] <= 1.0
    ensures forall i :: 0 <= i < n ==> 0.0 <= CyclicizeWindow(n, ww, taper).value[i] <= 1.0
  {
    var w := CyclicizeWindow(n, ww, taper).value;
    forall i | 0 <= i < n
      ensures 0.0 <= w[i] <= 1.0
    {
      if i >= n - ww {
        assert w[i] == taper[i - (n - 2 * ww)];
      }
    }
  }
}
