# FreqDemod workup core in Dafny

This project models the index-level core of FreqDemod. FreqDemod demodulates a sampled
cantilever-displacement signal to get its instantaneous phase and frequency. The model
covers two classes.

- `Signal` in `freqdemod/demodulate.py` keeps its data in an in-memory HDF5 file. Each
  workup step reads some named datasets and creates new ones:
  - `time_mask_binarate` builds a boolean mask that truncates the record to a power of
    two;
  - `time_window_cyclicize` builds an edge window that makes the record cyclic;
  - `fft` stores the frequency axis and the spectrum;
  - `freq_filter_Hilbert_complex` builds the sideband filter `Hc`;
  - `freq_filter_bp` builds a bandpass filter centred on the spectral peak;
  - `time_mask_rippleless` builds a mask that trims ringing at both ends;
  - `ifft` filters the spectrum, inverse transforms it, trims it, and stores `z` with its
    phase and amplitude;
  - `fit` cuts the phase into chunks and fits each chunk with least squares, giving
    frequency against time.
- `Signal` in `freqdemod/freqdemod.py` is the older dictionary-based object. Its `binarate`
  truncates the signal in place and keeps a copy of the original.

The model is split into these Dafny modules:

- **`Demodulate`** holds the class `Demodulate.Signal`.
  - Each dataset of the HDF5 file is an `Option` field, and it is `None` until a step
    creates it.
  - Each step is a method that returns `Pass` or `Fail(error)`.
  - Like h5py, a step fails if it creates a dataset that already exists (`KeyExists`), or
    if it reads a dataset that does not exist (`MissingKey`).
  - A step that fails part-way keeps the datasets it created before the failure, as the
    file does.
  - The predicate `Valid()` is what every step preserves. It relates the datasets to one
    another: the time axis, the frequency axis, the filters on that axis, and the masked
    axes.
- **`FreqDemod`** holds the class `FreqDemod.Signal`, with its constructor and its in-place
  `Binarate`.
- The computations inside the steps are pure functions with lemmas about them:
  - `Binarate`: the largest power of two, the three modes, the mask and the slice;
  - `Masks`: boolean indexing, and the ripple-trim mask;
  - `Window`: the cyclicizing window;
  - `Filters`: `Hc`, the peak search, the bandpass filter, and the filtered spectrum;
  - `Axes`: the time axis, `fftfreq`, `fftshift` and `ifftshift`;
  - `Transforms`: numpy broadcasting, the array given to the FFT, the stored spectrum, and
    the reconstruction done by the inverse step;
  - `Fit`: the chunked fit.

Python 2 integer division floors. This matters for the middle-mode start `(n - n2)/2` and
for the chunk count `theta.size / n_per_chunk`. The model uses Dafny's `/` on non-negative
integers, which floors in the same way.

The docstring of `fit` gives `S_xx` with a factor `Δt`. The code, at
`freqdemod/demodulate.py:914`, uses `dt**2`, and the model follows the code. The lemma
`Fit.AnalyticSxx` shows that the code's closed form equals the explicit sum of squares.

## Model

| member | source | states |
|---|---|---|
| Masks.CountTrue | freqdemod/demodulate.py:379 | `count_nonzero(m)` is at most the length of the mask |
| Masks.Select | freqdemod/demodulate.py:381 | `x[m]` has one entry for each true entry of the mask |
| Masks.SelectRange | freqdemod/demodulate.py:381 | a mask that is true exactly on `[lo, hi)` selects the slice `xs[lo..hi]` |
| Masks.CountRange | freqdemod/demodulate.py:379 | `count_nonzero` of a mask that is true exactly on `[lo, hi)` is `hi - lo` |
| Masks.RipplelessMask | freqdemod/demodulate.py:684-686 | the ripple-trim mask has one entry for each point of the axis in use |
| Masks.RipplelessMaskIsRange | freqdemod/demodulate.py:684-686 | the ripple-trim mask is true at index i if and only if `ww <= i < n - ww` |
| Masks.RipplelessCount | freqdemod/demodulate.py:684-687 | the ripple-trim mask keeps `n - 2ww` points, or none when `2ww > n` |
| Masks.RipplelessSelectsInterior | freqdemod/demodulate.py:684-687 | `x_rippleless` is the interior slice `x[ww..n-ww]` of the axis in use |
| Binarate.LargestPowerOfTwo | freqdemod/demodulate.py:300 | `n2` is a power of two with `n2 <= n < 2 n2` |
| Binarate.PowerOfTwoBracketUnique | freqdemod/demodulate.py:300 | any power of two p with `p <= n < 2p` equals `n2`, so `n2` is the largest power of two not above n |
| Binarate.LargestPowerOfTwoOfPowerOfTwo | freqdemod/demodulate.py:300 | when n is a power of two, `n2 == n` |
| Binarate.ParseModeInvertsModeName | freqdemod/demodulate.py:303-316 | a mode string that `ParseMode` accepts is the name of the mode it returns, so only "start", "middle" and "end" are accepted |
| Binarate.ModeName | freqdemod/demodulate.py:303-316 | each mode has a string that selects it ("start", "middle", "end") |
| Binarate.KeptRange | freqdemod/demodulate.py:303-316 | the kept range has width `n2` and lies inside `[0, n)`; it starts at 0 in start mode and ends at n in end mode; in middle mode the two ends drop the same number of points, up to one extra point at the end |
| Binarate.BinarateMask | freqdemod/demodulate.py:296-318 | an empty signal fails (log of 0); an unknown mode fails; the mask succeeds exactly in the other cases; it has n entries, is true exactly on the kept range, and has `n2` true entries |
| Binarate.BinarateMaskOfPowerOfTwo | freqdemod/demodulate.py:296-318 | when n is a power of two the mask is all true, for every mode |
| Binarate.Truncated | freqdemod/freqdemod.py:92-109 | the truncated signal has length `n2`, which is a power of two |
| Binarate.TruncatedIsMaskSelection | freqdemod/freqdemod.py:95-109 | slicing the signal in freqdemod.py gives the same samples as selecting with the mask of demodulate.py for the same mode |
| Binarate.TruncatedIdempotent | freqdemod/freqdemod.py:92-109 | truncating a truncated signal again changes nothing |
| Window.CyclicizeWindow | freqdemod/demodulate.py:405-407 | succeeds if and only if `2ww <= n`, and otherwise fails because the dimension is negative; the window has n entries: the taper's first half, then exactly 1.0 on `[ww, n-ww)`, then the taper's second half |
| Window.WindowSymmetric | freqdemod/demodulate.py:405-407 | a symmetric taper gives a symmetric window |
| Window.WindowBounded | freqdemod/demodulate.py:405-407 | taper values in [0, 1] give window values in [0, 1] |
| Filters.HilbertAt | freqdemod/demodulate.py:535 | `Hc` is 0 for f < 0, 1 for f == 0 and 2 for f > 0 |
| Filters.Hilbert | freqdemod/demodulate.py:534-535 | `Hc` has one entry for each frequency, each entry is `HilbertAt` of its frequency, and every value is 0, 1 or 2 |
| Filters.HilbertMirrorPair | freqdemod/demodulate.py:535 | a frequency and its mirror image have `Hc` values that sum to 2, and for f != 0 one of the two is zero |
| Filters.HilbertMonotone | freqdemod/demodulate.py:535 | `Hc` never decreases as the frequency increases |
| Filters.FirstArgMax | freqdemod/demodulate.py:584 | `argmax` returns an index of a maximal entry, and every earlier entry is strictly smaller |
| Filters.Weighted | freqdemod/demodulate.py:583 | `Hc * abs(FT)` has one entry for each frequency, and it is 0 wherever `Hc` is 0 |
| Filters.WeightedNonNegative | freqdemod/demodulate.py:582-583 | with `Hc` as weights, a non-negative magnitude gives non-negative weights |
| Filters.CenterIndex | freqdemod/demodulate.py:583-584 | fc is at the first index that maximises `Hc[i] * abs(FT[i])` |
| Filters.CenterIsNonNegative | freqdemod/demodulate.py:582-584 | if the spectrum has some energy at a positive frequency, the centre frequency is not negative |
| Filters.BandpassAt | freqdemod/demodulate.py:588-589 | `bp` is in (0, 1]; for a positive order, `bp == 1` if and only if f == fc |
| Filters.BandpassSymmetric | freqdemod/demodulate.py:588-589 | `bp(fc + d) == bp(fc - d)` for every order, odd orders included |
| Filters.BandpassDecreasesWithDistance | freqdemod/demodulate.py:588-589 | a frequency closer to fc is passed at least as much |
| Filters.Pow | freqdemod/demodulate.py:589 | `power(1, order)` is 1; `power(0, order)` is 0 exactly when the order is positive |
| Filters.BandpassHalfAtBandwidth | freqdemod/demodulate.py:588-589 | `bp` is exactly 1/2 at `fc + bw` and at `fc - bw`, for every order, so `bw` is the half-width of the filter |
| Filters.PowMonotone | freqdemod/demodulate.py:589 | `power(x, order)` grows with its non-negative base |
| Filters.Bandpass | freqdemod/demodulate.py:588-589 | the filter has one value for each frequency, each in (0, 1] |
| Filters.FilteredSpectrum | freqdemod/demodulate.py:741-747 | entry i is `FT[i] / dt`, times `Hc[i]` only if `Hc` exists, times `bp[i]` only if `bp` exists; the length is unchanged |
| Filters.UnfilteredSpectrumUndoesScaling | freqdemod/demodulate.py:741 | dividing a stored `dt * FT` by dt gives back the raw transform |
| Filters.FiltersCommute | freqdemod/demodulate.py:743-747 | applying `Hc` and `bp` in either order gives the same spectrum |
| Axes.TimeAxis | freqdemod/demodulate.py:138 | `x` has one time for each sample and starts at 0 |
| Axes.TimeAxisStep | freqdemod/demodulate.py:138 | consecutive times are dt apart |
| Axes.FftShift | freqdemod/demodulate.py:465-470 | `fftshift` rolls the array by `floor(n/2)` |
| Axes.IfftShift | freqdemod/demodulate.py:751 | `ifftshift` rolls the array back by `floor(n/2)` |
| Axes.IfftShiftUndoesFftShift | freqdemod/demodulate.py:751 | `ifftshift(fftshift(s)) == s` for every length |
| Axes.FftShiftUndoesIfftShift | freqdemod/demodulate.py:751 | `fftshift(ifftshift(s)) == s` for every length |
| Axes.FftShiftTwiceEven | freqdemod/demodulate.py:751 | for an even length, fftshift is its own inverse |
| Axes.FftShiftTwiceOdd | freqdemod/demodulate.py:751 | for three samples, fftshift applied twice gives `[2, 3, 1]`, not the input |
| Axes.FftShiftTwiceOddRotates | freqdemod/demodulate.py:751 | for an odd length, fftshift applied twice moves the first sample to the end |
| Axes.FftShiftOddIsRotatedIfftShift | freqdemod/demodulate.py:751 | for an odd length, `fftshift` is `ifftshift` followed by a roll back by one |
| Axes.ShiftsByParity | freqdemod/demodulate.py:751 | `fftshift` and `ifftshift` are the same roll for an even length; for an odd length `fftshift` is `ifftshift` rolled back by one |
| Axes.FftFreq | freqdemod/demodulate.py:466 | `fftfreq` has n entries, with the zero frequency first |
| Axes.ShiftedFftFreq | freqdemod/demodulate.py:464-466 | after the shift, entry i of `fftfreq` is `(i - floor(n/2)) / (n dt)` |
| Axes.FreqAxis | freqdemod/demodulate.py:464-474 | the stored axis has n entries, and its zero frequency is at index `floor(n/2)` |
| Axes.FreqAxisAt | freqdemod/demodulate.py:464-474 | entry i of the stored axis in kHz is `(i - floor(n/2)) / (n dt) / 1000` |
| Axes.FreqAxisSign | freqdemod/demodulate.py:464-474 | the stored axis is negative before index `floor(n/2)`, zero there, and positive after it |
| Axes.FreqAxisIncreasing | freqdemod/demodulate.py:464-474 | the stored axis is strictly increasing |
| Axes.HilbertOnFreqAxis | freqdemod/demodulate.py:534-535 | on the stored axis, `Hc` is 0 before the DC bin, 1 on it and 2 after it |
| Fit.ResetChunk | freqdemod/demodulate.py:901-908 | a reset chunk has n points and starts at 0 |
| Fit.SX | freqdemod/demodulate.py:913 | `SX` is 0 for a chunk of at most one point, and positive for two or more points with dt > 0 |
| Fit.SXX | freqdemod/demodulate.py:914-915 | `SXX` is 0 for a chunk of at most one point, and positive for two or more points with dt != 0 |
| Fit.Slope | freqdemod/demodulate.py:920 | the slope is non-finite if and only if the denominator is 0 |
| Fit.ChunkSlope | freqdemod/demodulate.py:917-920 | with dt != 0, the slope of a chunk is finite exactly when the chunk has two or more points |
| Fit.ChunkInBounds | freqdemod/demodulate.py:880-881 | chunk c lies inside the first `n_total` points |
| Fit.AllChunksInBounds | freqdemod/demodulate.py:880-881 | `n_total <= len(theta) < n_total + n_per_chunk`, so only the trailing remainder is dropped, and every chunk lies inside `n_total` |
| Fit.FitChunks | freqdemod/demodulate.py:880-928 | there are `len(theta) div n` chunks; `fit_time[c] == t[c n]`; there is one slope for each chunk |
| Fit.FitFreqIsChunkSlope | freqdemod/demodulate.py:917-920 | `fit_freq[c]` is the least-squares slope of reset chunk c |
| Fit.Fit | freqdemod/demodulate.py:878-928 | a chunk size of 0 is a division by zero; a negative chunk size, or a time array too short to reshape, fails; the fit succeeds exactly in the other cases |
| Fit.AnalyticSx | freqdemod/demodulate.py:913 | the closed form for `SX` equals the sum of `k dt` |
| Fit.SxxStep | freqdemod/demodulate.py:914-915 | the closed form for `SXX` grows by `((n-1) dt)^2` when one point is added |
| Fit.AnalyticSxx | freqdemod/demodulate.py:914-915 | the closed form for `SXX` equals the sum of `(k dt)^2` |
| Fit.DenominatorClosedForm | freqdemod/demodulate.py:913-920 | `n SXX - SX^2 == dt^2 n^2 (n^2 - 1) / 12` |
| Fit.DenominatorPositiveIff | freqdemod/demodulate.py:920 | for dt != 0 the denominator is positive if and only if n >= 2, and it is zero for n < 2 |
| Fit.SumScaled | freqdemod/demodulate.py:917-918 | the sum of `b y` is `b` times the sum of `y` |
| Fit.ResetChunkOfEvenlySpaced | freqdemod/demodulate.py:907-908 | a reset chunk of evenly spaced times is `k dt` |
| Fit.ResetChunkOfLinearPhase | freqdemod/demodulate.py:901-902 | a reset chunk of the phase `a + b t` is b times the reset times |
| Fit.ResetChunksOfLinearPhase | freqdemod/demodulate.py:901-908 | both reset chunks of a linear phase over evenly spaced times |
| Fit.ProductsWithScaled | freqdemod/demodulate.py:918 | `x * (b x) == b (x * x)` entry by entry |
| Fit.SlopeOfProportionalSums | freqdemod/demodulate.py:920 | sums proportional to `SX` and `SXX` with factor b give slope b |
| Fit.ProportionalSxy | freqdemod/demodulate.py:918 | the `SXY` of a phase that is b times the time is `b SXX` |
| Fit.ChunkSlopeOfLinearPhase | freqdemod/demodulate.py:913-920 | every chunk of at least 2 points of a linear phase has slope b |
| Fit.FitRecoversLinearSlope | freqdemod/demodulate.py:878-928 | for evenly spaced times and the phase `a + b t`, the fit succeeds and every chunk's frequency is exactly b |
| Fit.SinglePointChunksAreNonFinite | freqdemod/demodulate.py:920 | with one point per chunk, every slope is 0/0 |
| Transforms.Broadcast | freqdemod/demodulate.py:458 | `w*s` succeeds if and only if the lengths are equal or one of them is 1, fails with a shape mismatch otherwise, and has the broadcast length |
| Transforms.BroadcastCommutes | freqdemod/demodulate.py:458 | `w*s == s*w` |
| Transforms.FftInput | freqdemod/demodulate.py:446-458 | without a window the input is `y`, masked when a mask exists; it can fail only because of the window, with a shape mismatch |
| Transforms.DesignedWindowFits | freqdemod/demodulate.py:446-458 | a window as long as the masked signal gives their product, entry by entry |
| Transforms.BinaratedInputIsPowerOfTwo | freqdemod/demodulate.py:446-458 | after binarate and a window designed for it, the array given to the FFT succeeds, has a power-of-two length, and equals the window times the truncated signal |
| Transforms.BinaratedInputHasEvenLength | freqdemod/demodulate.py:446-458 | for a binarated record of at least two samples and any stored window (none, or any length), the FFT input exists when there is no window, and whenever it exists its length is an even power of two, at least two |
| Transforms.Spectrum | freqdemod/demodulate.py:468-470 | the stored FT is `dt` times the transform, rolled by `floor(n/2)` |
| Transforms.SpectrumCentreIsDc | freqdemod/demodulate.py:464-470 | the stored FT at index `n/2` is the zero-frequency term, and the frequency axis is 0 there |
| Transforms.Reconstruct | freqdemod/demodulate.py:741-751 | the corrected inverse step; for an even length it equals the step as written |
| Transforms.ReconstructAsWritten | freqdemod/demodulate.py:741-751 | the step as written; for an odd length it inverse transforms the corrected step's spectrum rolled back by one bin |
| Transforms.UnfilteredIsShiftedTransform | freqdemod/demodulate.py:741-751 | without filters, the spectrum the inverse step starts from is `fftshift(fft(s))` |
| Transforms.RoundTrip | freqdemod/demodulate.py:741-751 | without filters, the corrected inverse step returns s, for every length |
| Transforms.AsWrittenRollsOddSpectra | freqdemod/demodulate.py:751 | for an odd length, the step as written inverse transforms the spectrum rolled by one bin |
| Demodulate.Moduli | freqdemod/demodulate.py:796 | `abs()` of a complex array, used for `a = abs(z)` here and for `abs(FT)` at line 583: one modulus for each sample, never negative; the stored amplitude stays non-negative through `Valid()` |
| Demodulate.Signal.Load | freqdemod/demodulate.py:119-150 | `x = dt * arange(n)`, `y = s`, no workup datasets yet, and `Valid()` holds |
| Demodulate.Signal.TimeMaskBinarate | freqdemod/demodulate.py:296-320 | fails with the mask's error or on an existing mask; otherwise stores the binarate mask; keeps `Valid()` |
| Demodulate.Signal.TimeWindowCyclicize | freqdemod/demodulate.py:371-409 | the length is the mask's true count or `len(y)`; `x_binarated` is stored first, and its first two entries must exist; fails on a negative dimension or an existing key; otherwise stores the cyclicize window |
| Demodulate.Signal.DesignLength | freqdemod/demodulate.py:371-398 | stores `x_binarated = x[m]` and returns `count_nonzero(m)`, or `len(y)` without a mask; fails with an index error when fewer than 2 points are kept |
| Demodulate.Signal.StoreWindow | freqdemod/demodulate.py:405-409 | stores the window for n points unless the dimension is negative or the window exists |
| Demodulate.Signal.Fft | freqdemod/demodulate.py:446-486 | a shape mismatch, an empty array or an existing axis fails; otherwise stores the kHz frequency axis; one sample then fails reading `freq[1]`; otherwise stores `dt * fftshift(fft(s))` |
| Demodulate.Signal.FreqFilterHilbertComplex | freqdemod/demodulate.py:534-537 | a missing frequency axis or an existing `Hc` fails; otherwise stores `Hc` of the axis |
| Demodulate.Signal.FreqFilterBp | freqdemod/demodulate.py:581-591 | reads freq, `Hc` and FT in that order, failing on the first one missing; otherwise stores `bp` centred on the first peak of `Hc * abs(FT)` |
| Demodulate.Signal.TimeMaskRippleless | freqdemod/demodulate.py:672-708 | uses `x_binarated` when a binarate mask exists, else `x`; stores the mask and `x_rippleless`, then fails unless at least 2 points are kept |
| Demodulate.Signal.Ifft | freqdemod/demodulate.py:741-797 | fails without FT; filters, inverse transforms with the corrected `ifftshift` (which differs from line 751 only for odd lengths), and trims by the rippleless mask; stores `z`, its phase and its amplitude against the rippleless, binarated or plain axis, in that order of preference |
| Demodulate.Signal.StoreZ | freqdemod/demodulate.py:770-797 | stores `z`, `p = phase(z)` and `a = abs(z)` with their abscissa unless `z` exists; the stored amplitude is non-negative |
| FreqDemod.Signal.constructor | freqdemod/freqdemod.py:57-79 | stores s, its name, its unit and dt as given, and starts `s_original` empty |
| FreqDemod.Signal.Binarate | freqdemod/freqdemod.py:81-109 | `s_original` is always the old s; an empty signal or an unknown mode fails with s unchanged; otherwise s becomes the slice of the kept range; no other field is modified |
| FreqDemod.BinarateKeepsOnlyPowersOfTwo | freqdemod/freqdemod.py:90-109 | binarate leaves s unchanged if and only if its length is already a power of two |

## Left out

- The numerics library functions are parameters of the model rather than definitions:
  - `np.fft.fft` and `np.fft.ifft`: the parameters `transform` and `inverse`, assumed to preserve length;
  - `np.unwrap(np.angle(.))/(2π)`: the parameter `phaseOf`;
  - complex `abs`: the parameter `modulus`;
  - the Blackman taper values: the parameter `taper`.
  The properties proved hold for every choice of these parameters. `fftfreq`, `fftshift` and `ifftshift` are defined exactly.
- Floating point is modelled by exact reals. Rounding, overflow, inf and NaN are not modelled, except that a zero denominator in the fit slope is `NonFinite`.
- `ceil(tw/dt)`, `ceil(td/dt)` and `round(dt_chunk_target/dt)` are taken as integer parameters:
  - `ww: nat` for the two durations, so negative durations are not modelled;
  - `nPerChunk: int` for the chunk size.
- Demodulate.Signal.TimeWindowCyclicize: the `ww` of `blackman(2*ww)[-ww:]` is taken as given. A negative `ww` cannot be passed.
- Binarate.LargestPowerOfTwo: `n2` is computed exactly on integers. The floating-point `math.log(n, 2)` is not modelled, so its rounding for large n is not captured.
- Demodulate.Signal.FreqFilterBp: a zero bandwidth is reported as `ZeroBandwidth`, where numpy silently produces inf or NaN. `order` is a natural number, so negative orders are not modelled.
- Demodulate.Signal.FreqFilterBp: the `fc_improved` centroid is not modelled, because it only feeds a report string.
- Demodulate.Signal.Load: requires dt > 0. A negative dt gives a reversed, decreasing frequency axis, on which `Hc` at line 535 keeps the other sideband; the model leaves it out by choice. dt == 0 gives an infinite and NaN frequency axis, which real arithmetic cannot represent.
- Demodulate.Signal.Load models only `load_nparray` on a freshly opened file. Calling it twice, which fails on the existing `x`, is not modelled.
- `Signal.__init__`, `open`, `close`, `__repr__`, `update_attrs` and the HDF5 attributes are left out. These are storage metadata, not workup data. This includes the `initial` and `step` attributes, except that reading `x_binarated[1]`, `freq[1]` and `x_rippleless[1]` is modelled because it can fail.
- The `report` strings and the `time.time()` timing are left out, as presentation and clock.
- Demodulate.Signal.Ifft: for a spectrum of odd length, the stored `z` follows the corrected `ifftshift`, not the `fftshift` of line 751. The step as written is `Transforms.ReconstructAsWritten`. Even lengths give the same `z` either way. Every binarated record that reaches an FT has an even length: `Transforms.BinaratedInputHasEvenLength` covers records of two or more samples with or without a stored window, and a one-sample record fails in `Demodulate.Signal.Fft` at `freq[1]` before any FT is stored.
- Demodulate.Signal.Ifft treats `z`, `p` and `a` as created together. The datasets `workup/time/p` and `workup/time/a` are only ever created by this step, so a file in which one exists without `z` is not modelled.
- Fit.Fit is modelled as a function of `(theta, t, dt, n_per_chunk)`. The source reads `self.signal`, which the HDF5-based class never creates.
- Plotting (`plot`, `plot_phase_fit`, `plot_phase`, `plot_signal`, `plot_fft`), `testsignal_sine` and the command-line main are left out. They are user interface and a test driver that uses random noise.
- `freqdemod/util.py` (`powerise10`, `eng`) is left out. It is number formatting.

## Findings

| source | as written | input that shows it | evidently intended | confidence | as-written member | corrected member |
|---|---|---|---|---|---|---|
| freqdemod/demodulate.py:751 | `ifft` undoes the spectrum's `fftshift` with a second `fftshift` | any record of odd length without a binarate mask, e.g. 3 samples: the inverse transform receives the spectrum rolled by one bin, with the zero-frequency term last instead of first | `np.fft.ifftshift(s)`, which inverts `fftshift` for every length | not executed | Transforms.AsWrittenRollsOddSpectra | Transforms.RoundTrip |

`Transforms.ReconstructAsWritten` is the step as written. `Axes.FftShiftTwiceOdd` gives the
three-sample counterexample for the shift itself. The contract of `Transforms.Reconstruct`
shows that the bug has no effect on even lengths. `Transforms.BinaratedInputHasEvenLength`
shows that every binarated record of two or more samples, with or without a stored window,
reaches the FFT with an even length, and a one-sample record stops at `freq[1]` in `Demodulate.Signal.Fft` before any FT is stored.
`Demodulate.Signal.Ifft` uses the corrected `Transforms.Reconstruct`.
