/**
 * The segmented linear fit that turns phase versus time into frequency versus time:
 * the phase is cut into whole chunks of n points, each chunk is shifted to start at zero
 * in time and in phase, and each chunk's slope comes from the closed-form least-squares
 * formula m = (n Sxy - Sx Sy) / (n Sxx - Sx^2), with Sx and Sxx computed analytically.
 */
module Fit {
  import opened Wrappers
  import opened Errors
  import opened Axes

  /** A float quotient: a finite value, or the inf/NaN numpy gives for a zero denominator. */
  datatype Quotient = Finite(value: real) | NonFinite

  /** The fit: chunk size and count, the start time and the fitted slope of every chunk. */
  datatype FitResult = FitResult(nPerChunk: nat, chunkCount: nat, fitTime: seq<real>, fitFreq: seq<Quotient>)

  function Sum(s: seq<real>): real
  {
    if s == [] then 0.0 else Sum(s[..|s| - 1]) + s[|s| - 1]
  }

  /** Elementwise product of two arrays of the same length. */
  function Products(u: seq<real>, v: seq<real>): seq<real>
    requires |u| == |v|
  {
    seq(|u|, i requires 0 <= i < |u| => u[i] * v[i])
  }

  /** Every entry times b. */
  function Scaled(s: seq<real>, b: real): seq<real>
  {
    seq(|s|, i requires 0 <= i < |s| => b * s[i])
  }

  /** Chunk c of v (n points), minus its first sample: every reset chunk starts at 0. */
  function ResetChunk(v: seq<real>, c: nat, n: nat): (r: seq<real>)
    requires c * n + n <= |v|
    ensures |r| == n && (n > 0 ==> r[0] == 0.0)
  {
    seq(n, k requires 0 <= k < n => v[c * n + k] - v[c * n])
  }

  /**
   * Sx, computed analytically as in the source: dt * 0.5 * (n - 1) * n. It is zero for a
   * chunk of at most one point and positive for two or more points and a positive step.
   */
  function SX(n: nat, dt: real): (s: real)
    ensures n <= 1 ==> s == 0.0
    ensures dt > 0.0 && n >= 2 ==> s > 0.0
  {
    var s := dt * 0.5 * (n as real - 1.0) * n as real;
    PositiveProduct(dt * 0.5, n as real - 1.0, n as real, s);
    ZeroProduct(dt * 0.5, n as real - 1.0, n as real, s);
    s
  }

  /**
   * Sxx, computed analytically as in the source: dt^2 * (1/6) * n * (n - 1) * (2n - 1).
   * It is zero for a chunk of at most one point and positive for two or more points and
   * a nonzero step.
   */
  function SXX(n: nat, dt: real): (s: real)
    ensures n <= 1 ==> s == 0.0
    ensures dt != 0.0 && n >= 2 ==> s > 0.0
  {
    var q := dt * dt * (1.0 / 6.0) * n as real;
    var s := q * (n as real - 1.0) * (2.0 * n as real - 1.0);
    SquarePositive(dt, dt * dt);
    PositiveProduct(dt * dt, 1.0 / 6.0, n as real, q);
    PositiveProduct(q, n as real - 1.0, 2.0 * n as real - 1.0, s);
    s
  }

  /** The least-squares denominator n Sxx - Sx^2. */
  function Denominator(n: nat, dt: real): real
  {
    n as real * SXX(n, dt) - SX(n, dt) * SX(n, dt)
  }

  /** The slope formula, evaluated the way numpy evaluates a float quotient. */
  function Slope(n: nat, dt: real, sy: real, sxy: real): (q: Quotient)
    ensures q.NonFinite? <==> Denominator(n, dt) == 0.0
  {
    var den := Denominator(n, dt);
    if den == 0.0 then NonFinite else Finite((n as real * sxy - SX(n, dt) * sy) / den)
  }

  /**
   * The slope of chunk c: Sy and Sxy are summed over the reset chunk. With a nonzero step
   * it is finite exactly when the chunk has two or more points.
   */
  function ChunkSlope(theta: seq<real>, t: seq<real>, dt: real, n: nat, c: nat): (q: Quotient)
    requires c * n + n <= |theta| && c * n + n <= |t|
    ensures dt != 0.0 ==> (q.Finite? <==> n >= 2)
  {
    var y := ResetChunk(theta, c, n);
    var x := ResetChunk(t, c, n);
    DenominatorPositiveIff(n, dt);
    Slope(n, dt, Sum(y), Sum(Products(x, y)))
  }

  lemma ChunkInBounds(c: nat, n: nat, len: nat)
    requires n > 0 && c < len / n
    ensures c * n + n <= n * (len / n) <= len
  {
    assert (c + 1) * n <= (len / n) * n;
  }

  /** Every one of the len div n whole chunks lies inside the first n * (len div n) points. */
  lemma AllChunksInBounds(n: nat, len: nat, chunks: nat)
    requires n > 0 && chunks == len / n
    ensures n * chunks <= len < n * chunks + n
    ensures forall c :: 0 <= c < chunks ==> c * n + n <= n * chunks
  {
    forall c | 0 <= c < chunks
      ensures c * n + n <= n * chunks
    {
      ChunkInBounds(c, n, len);
    }
  }

  /**
   * The chunking and fitting proper, for a positive chunk size n and a time array that
   * covers the n * (len(theta) div n) points used: the trailing len(theta) mod n points
   * are dropped, and chunk c has as start time its first time sample and as frequency
   * the least-squares slope of its reset phase and time.
   */
  function FitChunks(theta: seq<real>, t: seq<real>, dt: real, n: nat): (f: FitResult)
    requires n > 0 && n * (|theta| / n) <= |t|
    ensures f.nPerChunk == n && f.chunkCount == |theta| / n
    ensures n * f.chunkCount <= |theta| < n * f.chunkCount + n
    ensures |f.fitTime| == |f.fitFreq| == f.chunkCount
    ensures forall c :: 0 <= c < f.chunkCount ==>
      && c * n + n <= |theta|
      && c * n + n <= |t|
      && f.fitTime[c] == t[c * n]
  {
    var chunks := |theta| / n;
    AllChunksInBounds(n, |theta|, chunks);
    FitResult(n, chunks,
      seq(chunks, c requires 0 <= c < chunks => t[c * n]),
      seq(chunks, c requires 0 <= c < chunks => ChunkSlope(theta, t, dt, n, c)))
  }

  /** The frequency of chunk c is the least-squares slope of its reset phase and time. */
  lemma FitFreqIsChunkSlope(theta: seq<real>, t: seq<real>, dt: real, n: nat, c: nat)
    requires n > 0 && n * (|theta| / n) <= |t| && c < |theta| / n
    ensures c * n + n <= |theta| && c * n + n <= |t|
    ensures FitChunks(theta, t, dt, n).fitFreq[c] == ChunkSlope(theta, t, dt, n, c)
  {
    ChunkInBounds(c, n, |theta|);
  }

  /**
   * fit(theta, t, dt, n_per_chunk). A chunk size of zero is a ZeroDivisionError in the
   * chunk count; a negative one cannot be reshaped; a time array shorter than the points
   * used cannot be reshaped either; otherwise the chunks are fitted.
   */
  function Fit(theta: seq<real>, t: seq<real>, dt: real, nPerChunk: int): (r: Result<FitResult, Error>)
    ensures nPerChunk == 0 ==> r == Failure(DivisionByZero)
    ensures nPerChunk < 0 ==> r == Failure(ShapeMismatch)
    ensures nPerChunk > 0 && |t| < nPerChunk * (|theta| / nPerChunk) ==> r == Failure(ShapeMismatch)
    ensures r.Success? <==> nPerChunk > 0 && nPerChunk * (|theta| / nPerChunk) <= |t|
    ensures r.Success? ==> r.value == FitChunks(theta, t, dt, nPerChunk)
  {
    if nPerChunk == 0 then Failure(DivisionByZero)
    else if nPerChunk < 0 then Failure(ShapeMismatch)
    else if |t| < nPerChunk * (|theta| / nPerChunk) then Failure(ShapeMismatch)
    else Success(FitChunks(theta, t, dt, nPerChunk))
  }

  // ---------------------------------------------------------------- the analytic sums

  /** Sx is the explicit sum of the offsets k*dt. */
  lemma {:induction false} AnalyticSx(n: nat, dt: real)
    ensures Sum(TimeAxis(n, dt)) == SX(n, dt)
  {
    if n > 0 {
      AnalyticSx(n - 1, dt);
      assert TimeAxis(n, dt)[..n - 1] == TimeAxis(n - 1, dt);
      var m := (n - 1) as real;
      assert SX(n, dt) == dt * 0.5 * m * (m + 1.0);
      assert SX(n - 1, dt) == dt * 0.5 * (m - 1.0) * m;
      assert dt * 0.5 * m * (m + 1.0) == dt * 0.5 * (m - 1.0) * m + m * dt;
    }
  }

  /** Sxx grows by the square of the last offset when a point is added. */
  lemma SxxStep(n: nat, dt: real)
    requires n > 0
    ensures SXX(n, dt) == SXX(n - 1, dt) + ((n - 1) as real * dt) * ((n - 1) as real * dt)
  {
    var m := (n - 1) as real;
    var d2 := dt * dt;
    assert SXX(n, dt) == d2 * (1.0 / 6.0) * (m + 1.0) * m * (2.0 * m + 1.0);
    assert SXX(n - 1, dt) == d2 * (1.0 / 6.0) * m * (m - 1.0) * (2.0 * m - 1.0);
    assert (m * dt) * (m * dt) == d2 * (m * m);
    assert (m + 1.0) * m * (2.0 * m + 1.0) == m * (m - 1.0) * (2.0 * m - 1.0) + 6.0 * (m * m);
  }

  /** Sxx is the explicit sum of the squared offsets (k*dt)^2. */
  lemma {:induction false} AnalyticSxx(n: nat, dt: real)
    ensures Sum(Products(TimeAxis(n, dt), TimeAxis(n, dt))) == SXX(n, dt)
  {
    if n > 0 {
      AnalyticSxx(n - 1, dt);
      var sq, sq' := Products(TimeAxis(n, dt), TimeAxis(n, dt)), Products(TimeAxis(n - 1, dt), TimeAxis(n - 1, dt));
      assert forall k :: 0 <= k < n - 1 ==> sq[..n - 1][k] == sq'[k];
      assert sq[..n - 1] == sq';
      assert sq[n - 1] == ((n - 1) as real * dt) * ((n - 1) as real * dt);
      SxxStep(n, dt);
    }
  }

  /** The denominator in closed form: n Sxx - Sx^2 = dt^2 n^2 (n^2 - 1) / 12. */
  lemma DenominatorClosedForm(n: nat, dt: real)
    ensures Denominator(n, dt) == dt * dt * (n as real * n as real) * (n as real * n as real - 1.0) / 12.0
  {
    var m := n as real;
    var d2 := dt * dt;
    assert SXX(n, dt) == d2 * (m * (m - 1.0) * (2.0 * m - 1.0) / 6.0);
    assert SX(n, dt) * SX(n, dt) == d2 * (m * (m - 1.0) * m * (m - 1.0) / 4.0);
    assert m * (m * (m - 1.0) * (2.0 * m - 1.0) / 6.0) - m * (m - 1.0) * m * (m - 1.0) / 4.0
        == (m * m) * (m * m - 1.0) / 12.0;
  }

  /** A product of three positive factors is positive. */
  lemma PositiveProduct(x: real, y: real, z: real, p: real)
    ensures x > 0.0 && y > 0.0 && z > 0.0 && p == x * y * z ==> p > 0.0
  {
  }

  /** A product with a zero factor is zero. */
  lemma ZeroProduct(x: real, y: real, z: real, p: real)
    ensures (x == 0.0 || y == 0.0 || z == 0.0) && p == x * y * z ==> p == 0.0
  {
  }

  /** A nonzero real has a positive square. */
  lemma SquarePositive(x: real, s: real)
    ensures x != 0.0 && s == x * x ==> s > 0.0
  {
    if x > 0.0 {
      PositiveProduct(x, x, 1.0, s);
    } else if x < 0.0 {
      PositiveProduct(-x, -x, 1.0, s);
    }
  }

  lemma SquareAboveOne(x: real, s: real)
    requires x >= 2.0 && s == x * x
    ensures s > 1.0
  {
  }

  /** The denominator is positive, and the slope finite, exactly when a chunk has two or more points. */
  lemma DenominatorPositiveIff(n: nat, dt: real)
    ensures dt != 0.0 ==> (Denominator(n, dt) > 0.0 <==> n >= 2)
    ensures n < 2 ==> Denominator(n, dt) == 0.0
  {
    DenominatorClosedForm(n, dt);
    var d2 := dt * dt;
    var m := n as real;
    var m2 := m * m;
    if n >= 2 {
      SquarePositive(dt, d2);
      SquareAboveOne(m, m2);
      PositiveProduct(d2, m2, m2 - 1.0, 12.0 * Denominator(n, dt));
    } else if n == 1 {
      assert m2 - 1.0 == 0.0;
    } else {
      assert m2 == 0.0;
    }
  }

  // ---------------------------------------------------------------- slope recovery

  lemma {:induction false} SumScaled(s: seq<real>, b: real)
    ensures Sum(Scaled(s, b)) == b * Sum(s)
  {
    if s != [] {
      SumScaled(s[..|s| - 1], b);
      var sc, sc' := Scaled(s, b), Scaled(s[..|s| - 1], b);
      assert forall k :: 0 <= k < |s| - 1 ==> sc[..|s| - 1][k] == sc'[k];
      assert sc[..|s| - 1] == sc';
    }
  }

  /** Evenly spaced times starting at t0 with step dt. */
  ghost predicate EvenlySpaced(t: seq<real>, t0: real, dt: real)
  {
    forall k :: 0 <= k < |t| ==> t[k] == t0 + k as real * dt
  }

  /** A phase that is linear in time, theta = a + b t. */
  ghost predicate LinearPhase(theta: seq<real>, t: seq<real>, a: real, b: real)
  {
    |theta| <= |t| && forall k :: 0 <= k < |theta| ==> theta[k] == a + b * t[k]
  }

  /** A reset chunk of evenly spaced times is the offsets k*dt. */
  lemma ResetChunkOfEvenlySpaced(t: seq<real>, t0: real, dt: real, n: nat, c: nat)
    requires EvenlySpaced(t, t0, dt)
    requires c * n + n <= |t|
    ensures ResetChunk(t, c, n) == TimeAxis(n, dt)
  {
    var off := TimeAxis(n, dt);
    var x := ResetChunk(t, c, n);
    var i := c * n;
    forall k | 0 <= k < n
      ensures x[k] == off[k]
    {
      var ti, tk := t[i], t[i + k];
      assert ti == t0 + i as real * dt;
      assert tk == t0 + (i + k) as real * dt;
      OffsetDifference(t0, dt, i, k);
    }
    assert x == off;
  }

  lemma OffsetDifference(t0: real, dt: real, i: nat, k: nat)
    ensures (t0 + (i + k) as real * dt) - (t0 + i as real * dt) == k as real * dt
  {
    assert (i + k) as real == i as real + k as real;
  }

  /** A reset chunk of a linear phase is b times the reset chunk of the times. */
  lemma ResetChunkOfLinearPhase(theta: seq<real>, t: seq<real>, a: real, b: real, n: nat, c: nat)
    requires LinearPhase(theta, t, a, b)
    requires c * n + n <= |theta|
    ensures ResetChunk(theta, c, n) == Scaled(ResetChunk(t, c, n), b)
  {
    var x := ResetChunk(t, c, n);
    var y := ResetChunk(theta, c, n);
    var i := c * n;
    forall k | 0 <= k < n
      ensures y[k] == b * x[k]
    {
      var tk, ti := t[i + k], t[i];
      assert theta[i + k] == a + b * tk;
      assert theta[i] == a + b * ti;
      assert (a + b * tk) - (a + b * ti) == b * (tk - ti);
    }
    assert forall k :: 0 <= k < n ==> y[k] == Scaled(x, b)[k];
    assert y == Scaled(x, b);
  }

  /** Reset chunks of evenly spaced times are the offsets k*dt; of a linear phase, b times them. */
  lemma ResetChunksOfLinearPhase(theta: seq<real>, t: seq<real>, t0: real, dt: real, a: real, b: real, n: nat, c: nat)
    requires EvenlySpaced(t, t0, dt) && LinearPhase(theta, t, a, b)
    requires c * n + n <= |theta|
    ensures ResetChunk(t, c, n) == TimeAxis(n, dt)
    ensures ResetChunk(theta, c, n) == Scaled(TimeAxis(n, dt), b)
  {
    ResetChunkOfEvenlySpaced(t, t0, dt, n, c);
    ResetChunkOfLinearPhase(theta, t, a, b, n, c);
  }

  lemma ProductsWithScaled(u: seq<real>, b: real)
    ensures Products(u, Scaled(u, b)) == Scaled(Products(u, u), b)
  {
    var p, q := Products(u, Scaled(u, b)), Scaled(Products(u, u), b);
    forall k | 0 <= k < |u|
      ensures p[k] == q[k]
    {
      assert p[k] == u[k] * (b * u[k]);
      assert q[k] == b * (u[k] * u[k]);
    }
  }

  /** Sums proportional to the analytic ones give slope b, whenever the denominator is nonzero. */
  lemma SlopeOfProportionalSums(n: nat, dt: real, b: real, sy: real, sxy: real)
    requires Denominator(n, dt) != 0.0
    requires sy == b * SX(n, dt) && sxy == b * SXX(n, dt)
    ensures Slope(n, dt, sy, sxy) == Finite(b)
  {
    var sx, sxx := SX(n, dt), SXX(n, dt);
    var den := Denominator(n, dt);
    assert n as real * (b * sxx) - sx * (b * sx) == b * den;
    assert b * den / den == b;
  }

  /** Sxy of a chunk whose reset phase is b times its reset time is b Sxx. */
  lemma ProportionalSxy(x: seq<real>, b: real, sxx: real)
    requires Sum(Products(x, x)) == sxx
    ensures Sum(Products(x, Scaled(x, b))) == b * sxx
  {
    ProductsWithScaled(x, b);
    SumScaled(Products(x, x), b);
  }

  /** Every chunk of a linear phase over evenly spaced times has slope b. */
  lemma ChunkSlopeOfLinearPhase(theta: seq<real>, t: seq<real>, t0: real, dt: real, a: real, b: real, n: nat, c: nat)
    requires EvenlySpaced(t, t0, dt) && LinearPhase(theta, t, a, b)
    requires dt != 0.0 && n >= 2 && c * n + n <= |theta|
    ensures ChunkSlope(theta, t, dt, n, c) == Finite(b)
  {
    ResetChunksOfLinearPhase(theta, t, t0, dt, a, b, n, c);
    var x := TimeAxis(n, dt);
    var y := Scaled(x, b);
    AnalyticSx(n, dt);
    AnalyticSxx(n, dt);
    SumScaled(x, b);
    assert Sum(y) == b * SX(n, dt);
    ProportionalSxy(x, b, SXX(n, dt));
    DenominatorPositiveIff(n, dt);
    SlopeOfProportionalSums(n, dt, b, Sum(y), Sum(Products(x, y)));
    assert ChunkSlope(theta, t, dt, n, c) == Slope(n, dt, Sum(y), Sum(Products(x, y)));
  }

  /**
   * Slope recovery: for evenly spaced times and a phase linear in time, every chunk's
   * fitted slope is exactly the phase's rate b, whatever the chunk size (at least 2).
   */
  lemma FitRecoversLinearSlope(theta: seq<real>, t: seq<real>, t0: real, dt: real, a: real, b: real, n: nat)
    requires EvenlySpaced(t, t0, dt) && LinearPhase(theta, t, a, b)
    requires dt != 0.0 && n >= 2
    ensures Fit(theta, t, dt, n).Success?
    ensures forall c :: 0 <= c < |Fit(theta, t, dt, n).value.fitFreq| ==>
      Fit(theta, t, dt, n).value.fitFreq[c] == Finite(b)
  {
    AllChunksInBounds(n, |theta|, |theta| / n);
    var f := Fit(theta, t, dt, n).value;
    forall c | 0 <= c < |f.fitFreq|
      ensures f.fitFreq[c] == Finite(b)
    {
      FitFreqIsChunkSlope(theta, t, dt, n, c);
      ChunkSlopeOfLinearPhase(theta, t, t0, dt, a, b, n, c);
    }
  }

  /** With one point per chunk every slope is 0/0: numpy returns NaN for each chunk. */
  lemma SinglePointChunksAreNonFinite(theta: seq<real>, t: seq<real>, dt: real)
    requires |theta| <= |t|
    ensures Fit(theta, t, dt, 1).Success?
    ensures forall c :: 0 <= c < |Fit(theta, t, dt, 1).value.fitFreq| ==>
      Fit(theta, t, dt, 1).value.fitFreq[c] == NonFinite
  {
    var f := Fit(theta, t, dt, 1).value;
    assert Denominator(1, dt) == 0.0;
    forall c | 0 <= c < |f.fitFreq|
      ensures f.fitFreq[c] == NonFinite
    {
      FitFreqIsChunkSlope(theta, t, dt, 1, c);
    }
  }
}
