# muscribe core, modelled in Dafny

muscribe turns recorded audio into musical facts: where notes start, which
pitch sounds in each frame, and the tempo. This project models the
numerical core of that pipeline and proves properties of the model:

- **notes** (`notes.dfy`, module `Notes`): the table of 108 equal-tempered
  notes (C0 = 16.35 Hz up to B8, each entry one semitone above the last) and
  the binary search that maps a frequency to the nearest note;
- **spectral framing and complex-domain novelty** (`spectral.dfy`,
  `onset_detection.dfy`, `stft.dfy`; modules `Spectral`, `OnsetDetection`,
  `Stft`): Hamming-windowed frames, one FFT per frame, and the Complex
  Domain (CD) and Rectified Complex Domain (RCD) onset functions, in the
  detector's form (`windows().step_by()`, phase normalised) and in the
  stand-alone form of `stft.rs` (explicit frame bound, raw phase);
- **tempo** (`bpm_detection.dfy`, module `BpmDetection`): autocorrelation
  of an onset detection function through a zero-padded FFT, the dominant-lag
  search from lag 10 on, and the conversion to beats per minute;
- **constant-Q onsets and pitch** (`cqt.dfy`, module `Cqt`): weighted
  half-wave-rectified spectral flux, moving-average thresholding, the time
  of the first onset, and the loudest bin of each frame as a frequency;
- **helpers** (`shared.dfy`, `peak_picking.dfy`; modules `Shared`,
  `PeakPicking`): in-place standardization to zero mean and unit variance
  (two identical copies, proved to agree), and frame-index conversions.

`common.dfy` (module `Common`) holds `Option`, sums, means and integer
division facts used throughout.

Floating-point values are modelled as `real`. Primitives that the model does
not compute are parameters, and the model asks of them only what the
stated properties need:

- the forward and inverse FFT (`Transform`): they work in place and keep the
  buffer's length;
- `norm` (never negative), `arg` and `from_polar` (`Polar`);
- the Hamming coefficients (`WindowCoeff`);
- `2^x` (`pow2`) and the semitone ratio (`ratio > 1`);
- `sqrt`, which must return a positive root of the variance it is given.

Where the Rust code panics on an input the model admits, the model returns
`None`. The divisions of the tempo and the start time follow IEEE's rules on
the value type `Float` (finite, +inf or NaN): `x / 0` is +inf, `0 / 0` is
NaN and a finite value over +inf is 0 (`Common.Quotient`, `Cqt.FrameToMillis`,
`Cqt.StartRate`). A finite tempo or start comes back as `Some`, and only an
infinite or NaN one becomes `None`.

The exceptions are listed under "Left out":
- `OnsetDetection.Stft` and `Stft.Stft` exclude the zero sizes on which
  `windows(0)`, `step_by(0)` or the frame bound misbehave.
- `Shared.FrameToSeconds` returns `None` at zero frames instead of a `Float`.
- `Shared.Standardize` and `PeakPicking.Standardize` exclude a zero deviation.

Note the code's choices, which the model keeps:

- the note search returns the upper neighbour on a tie, not the lower one;
- `cd_inner` fails on zero or one frame instead of returning an empty vector;
- `compute_log_weights` yields `k / num_bins`, not `log2(f_k / f_min)`;
- `max_by` keeps the last of several equal maxima.

## Model

| member | source | states |
|---|---|---|
| Notes.ChromaticIsPermutation | src/notes.rs:36-49 | the inner loop's twelve names are pairwise distinct and cover every `NoteName` |
| Notes.NoteTable | src/notes.rs:32-61 | 108 entries; entry 0 is C0 at 16.35 Hz; every later entry is the previous frequency times the semitone ratio; entry `i` has octave `i / 12` and the `(i mod 12)`-th chromatic name |
| Notes.AllNotes | src/notes.rs:32-61 | the nested loops with the C0 special case produce exactly that table |
| Notes.FreqIncreasing | src/notes.rs:54-57 | with a ratio above 1 every frequency is positive and later entries are strictly higher |
| Notes.TableStrictlySorted | src/notes.rs:50-57 | the table is strictly increasing in frequency, which the binary search relies on |
| Notes.TableEntriesDistinct | src/notes.rs:35-55 | no two entries share octave and name |
| Notes.LowerBound | src/notes.rs:70-77 | the first index from `i` whose frequency is at least the query; every entry before it is below the query |
| Notes.Quantize | src/notes.rs:68-84 | the lookup fails exactly when no entry after the first reaches the query; otherwise it returns one of two neighbouring entries, the upper one at or above the query |
| Notes.FromFreq | src/notes.rs:65-85 | on any sorted table, the bisection loop and the final pick return the quantizer's answer, `None` where the source panics |
| Notes.QuantizeFailsIff | src/notes.rs:68-79 | the lookup fails exactly when the table has at most one entry or the query lies above its last frequency |
| Notes.QuantizeNearest | src/notes.rs:78-84 | a successful lookup returns a table entry at least as close to the query as every other entry |
| Notes.QuantizeBetween | src/notes.rs:78-84 | for a query in `(f[i-1], f[i]]` the lower note is returned only when strictly closer, so ties go to the upper note |
| Notes.QuantizeExact | src/notes.rs:65-85 | on a strictly sorted table the exact frequency of entry `i` maps back to entry `i` |
| Notes.NoteTableFailsIff | src/notes.rs:63-79 | on the note table, conversion fails exactly for frequencies above B8's |
| Notes.NoteTableNearest | src/notes.rs:63-85 | on the note table, the note returned is a nearest note |
| Notes.NoteTableRoundTrip | src/notes.rs:63-85 | converting any table note's frequency gives back that note |
| Spectral.NormSqr | src/algorithms/bpm_detection.rs:22 | the power of a bin is never negative |
| Spectral.Apply | src/algorithms/bpm_detection.rs:16 | an in-place transform keeps the buffer's length |
| Spectral.HammingWindow | src/stft.rs:65-69 | one coefficient per index, so the window has the frame's length |
| Spectral.Windowed | src/stft.rs:21-25 | the windowed frame has one real-valued bin per sample |
| Spectral.FrameCountIff | src/stft.rs:13-19 | frame `k` exists exactly when it fits entirely, `k * hop + size <= len` |
| Spectral.Spectrum | src/algorithms/onset_detection.rs:80-86 | a frame's spectrum has as many bins as the window |
| Spectral.Frames | src/algorithms/onset_detection.rs:79-87 | one spectrum per full frame, each with as many bins as the window |
| Spectral.FramesAt | src/stft.rs:14-28 | frame `k` fits in the signal and is the transform of the windowed samples from `k * hop` |
| Spectral.WrapPhase | src/algorithms/onset_detection.rs:52-53 | the written normalisation lands in (-3π, π), and in [-π, π) when the step plus π is not negative |
| Spectral.WrapPhaseWholeTurns | src/algorithms/onset_detection.rs:51-53 | the normalised phase step differs from the raw one by a whole number of turns |
| Spectral.WrapPhaseNotConfined | src/algorithms/onset_detection.rs:50-53 | a step of -2π comes back unchanged, outside [-π, π] |
| Spectral.WrapPhaseCentred | src/algorithms/onset_detection.rs:50-53 | the intended normalisation: always in [-π, π), and a whole number of turns from the raw step |
| Spectral.WrapPhasesAgree | src/algorithms/onset_detection.rs:52-53 | the two normalisations agree from -π up; between -2π and -π the written one leaves the step as it is and the intended one adds a turn |
| Spectral.Predict | src/algorithms/onset_detection.rs:43-56 | for a `from_polar` periodic in whole turns, the predicted bin is the amplitude of the previous bin at its phase plus the phase step, whether the step is normalised or not (also src/stft.rs:43-54) |
| Spectral.Deviation | src/algorithms/onset_detection.rs:56-59 | for such a `from_polar`, a bin's contribution is its distance from that phase-extrapolated bin (also src/stft.rs:54-57) |
| Spectral.RcdCountsSubset | src/algorithms/onset_detection.rs:58-60 | every bin that RCD counts, CD counts too |
| Spectral.PredictWrapIrrelevant | src/algorithms/onset_detection.rs:46-56 | for a `from_polar` periodic in whole turns, the predicted bin is the same with the normalised and the raw phase step |
| Spectral.BinSum | src/algorithms/onset_detection.rs:41-61 | a frame's novelty is a sum of norms of counted bins, so never negative |
| Spectral.Novelty | src/algorithms/onset_detection.rs:39-63 | one value per frame from the third on, none of them negative |
| Spectral.RcdBelowCd | src/algorithms/onset_detection.rs:58-60 | frame by frame, 0 <= RCD <= CD, with equal lengths |
| Spectral.NoveltyIsLocal | src/algorithms/onset_detection.rs:42-44 | the value for frame `n` depends only on frames `n`, `n-1` and `n-2` |
| Spectral.WrapIrrelevant | src/algorithms/onset_detection.rs:50-56 | for a `from_polar` periodic in whole turns, the normalised and raw phase steps give the same CD and RCD |
| OnsetDetection.StepByAt | src/algorithms/onset_detection.rs:79 | `step_by(s)` yields `ceil(len / s)` items, the `k`-th being item `k * s` |
| OnsetDetection.WindowsStepBy | src/algorithms/onset_detection.rs:79 | `windows(size).step_by(hop)` yields exactly the full frames, frame `k` starting at `k * hop` |
| OnsetDetection.Stft | src/algorithms/onset_detection.rs:68-90 | the detector's frames are the framing specification's frames |
| OnsetDetection.FrameDeviation | src/algorithms/onset_detection.rs:41-61 | the bin loop computes the frame's sum, with phase normalisation and the RCD test |
| OnsetDetection.CdInner | src/algorithms/onset_detection.rs:28-65 | fails on zero or one frame; otherwise the novelty of the frames (empty for two frames), with RCD selecting the rectified form |
| OnsetDetection.Cd | src/algorithms/onset_detection.rs:19-21 | the Complex Domain novelty of the detector's frames |
| OnsetDetection.Rcd | src/algorithms/onset_detection.rs:24-26 | the Rectified Complex Domain novelty of the detector's frames |
| OnsetDetection.CdRcdRelation | src/algorithms/onset_detection.rs:19-26 | CD and RCD have length frames − 2 and 0 <= RCD <= CD element by element |
| Stft.FrameCountWithinBound | src/stft.rs:11-19 | no full frame starts beyond the loop bound `ceil(len / hop)` |
| Stft.Stft | src/stft.rs:3-32 | with a positive frame size, the loop with its early `break` yields exactly the full frames; with frame size 0, `ceil(len / hop)` empty frames |
| Stft.FramingsAgree | src/stft.rs:13-19 | the two STFTs of the repository give the same frames for the same input |
| Stft.ExampleFraming | src/stft.rs:82-92 | 8 samples, frames of 4, hop 2 give 3 frames of 4 bins |
| Stft.FrameDeviation | src/stft.rs:41-58 | the bin loop computes the frame's CD sum with the raw phase step |
| Stft.ComputeCd | src/stft.rs:34-62 | fails on no frames or on rows shorter than the first; empty for one or two frames; otherwise the CD novelty without phase normalisation |
| BpmDetection.ZeroPadLayout | src/algorithms/bpm_detection.rs:11-13 | the padded buffer is twice as long as the input, carries the input as real parts first, then zeros |
| BpmDetection.PowerSpectrum | src/algorithms/bpm_detection.rs:18-25 | every bin becomes real and non-negative; the length is kept |
| BpmDetection.Process | src/algorithms/bpm_detection.rs:16 | an in-place transform call leaves the transform of the old buffer |
| BpmDetection.PowerInPlace | src/algorithms/bpm_detection.rs:19-25 | the in-place loop leaves the power spectrum of the old buffer |
| BpmDetection.TakeScaled | src/algorithms/bpm_detection.rs:30-34 | the first `n` real parts, each divided by the padded length |
| BpmDetection.Autocorrelation | src/algorithms/bpm_detection.rs:4-35 | one autocorrelation value per input value |
| BpmDetection.ComputeAutocorrelation | src/algorithms/bpm_detection.rs:4-35 | pad, transform, power, inverse transform and scale give the autocorrelation specification |
| BpmDetection.Scan | src/algorithms/bpm_detection.rs:38-46 | the loop's state is the starting lag 0 with value 0, or a lag from 10 on, below the scanned bound, with its own positive value |
| BpmDetection.ScanFinds | src/algorithms/bpm_detection.rs:38-46 | the lag loop ends on lag 0 with value 0 when no lag holds a positive value; otherwise on a lag from 10 on holding the positive maximum, strictly above all earlier lags |
| BpmDetection.DominantLag | src/algorithms/bpm_detection.rs:37-46 | the dominant lag is 0 or a lag from 10 on inside the autocorrelation |
| BpmDetection.DominantLagSpec | src/algorithms/bpm_detection.rs:37-46 | the dominant lag is 0 exactly when nothing from lag 10 on is positive (always with 10 values or fewer); otherwise the first positive maximum |
| BpmDetection.DominantLagUnique | src/algorithms/bpm_detection.rs:41-46 | any first positive maximum from lag 10 on is the lag the search returns |
| Common.Quotient | src/algorithms/bpm_detection.rs:48 | IEEE division of a non-negative value: finite exactly for a finite non-zero or infinite divisor; 0 over +inf; NaN for 0 / 0 |
| BpmDetection.FindDominantPeriod | src/algorithms/bpm_detection.rs:37-49 | for a non-zero sample rate, a finite period with period × rate = dominant lag; at rate 0, NaN for lag 0 and +inf otherwise |
| BpmDetection.BpmOf | src/algorithms/bpm_detection.rs:51-57 | defined exactly when the lag is non-zero; then bpm × period = 60 for a non-zero rate, and 0 (60 over an infinite period) at rate 0 |
| BpmDetection.TempoOfPeriod | src/algorithms/bpm_detection.rs:51-57 | 60 over the period `find_dominant_period` returns is the tempo of its lag, `None` exactly where that quotient is infinite or NaN |
| BpmDetection.BpmBounds | src/algorithms/bpm_detection.rs:41-56 | for a lag found from 10 on, 0 < bpm <= 6 × sample rate |
| BpmDetection.Bpm | src/algorithms/bpm_detection.rs:51-57 | the tempo is the bpm of the dominant lag of the autocorrelation |
| Cqt.ComputeLogWeights | src/cqt.rs:41-48 | one weight per bin |
| Cqt.LogWeightsSpec | src/cqt.rs:41-48 | weight `k` times the bin count is `k`; weights lie in [0, 1), are 0 only for bin 0, and strictly increase |
| Cqt.Flux | src/cqt.rs:51-98 | one flux value per frame (at least one), the first being 0 |
| Cqt.FrameFluxOf | src/cqt.rs:68-79 | the bin loop sums the weighted squared rises |
| Cqt.SpectralFlux | src/cqt.rs:51-98 | the flux loop yields the flux specification |
| Cqt.FluxNonNegative | src/cqt.rs:74-78 | no flux value is negative |
| Cqt.FluxWithoutRise | src/cqt.rs:74-78 | a frame where no bin past bin 0 rises above the previous frame has flux 0 |
| Cqt.WindowContains | src/cqt.rs:110-115 | the averaging window is `[max(0, i - h), min(i + h + 1, len))` and contains `i` |
| Cqt.OnsetFlags | src/cqt.rs:100-132 | one flag per flux value |
| Cqt.AboveMovingAverage | src/cqt.rs:110-128 | frame `i` is flagged exactly when its flux exceeds the mean of its window |
| Cqt.Onsets | src/cqt.rs:100-132 | the flags of the flux with half-window `frames / 2` |
| Cqt.ThresholdFlux | src/cqt.rs:105-131 | the loop over all flux values yields the flag specification |
| Cqt.ConstantFluxNoOnsets | src/cqt.rs:120-128 | a constant flux flags nothing |
| Cqt.OnsetsAffineInvariant | src/cqt.rs:120-128 | scaling the flux by a positive factor and shifting it changes no flag |
| Cqt.WindowPeakIsOnset | src/cqt.rs:120-128 | a strict maximum of a window of two or more values is flagged |
| Cqt.WindowMinimumIsNotOnset | src/cqt.rs:120-128 | a minimum of its window is not flagged |
| Cqt.FirstTrue | src/cqt.rs:135-138 | the index of the first onset, or the length when there is none |
| Cqt.FrameToMillis | src/cqt.rs:172-174 | finite for a finite non-zero rate; 0 at an infinite rate; at rate 0, NaN for frame 0 and +inf otherwise; NaN stays NaN |
| Cqt.FrameToMillisInverse | src/cqt.rs:172-174 | for a non-zero rate, milliseconds × rate = frame × 1000 |
| Cqt.StartRate | src/cqt.rs:141 | the rate passed on is finite exactly for a non-zero duration, and then rate × duration = frames × 1000 |
| Cqt.Start | src/cqt.rs:134-143 | defined exactly when there are frames; then start × frames = first onset × duration, and 0 at duration 0 |
| Cqt.StartIsFrameToMillis | src/cqt.rs:134-143 | `start` is `frame_to_millis` of the first onset at that rate, `None` exactly where that is infinite or NaN |
| Cqt.StartWithinDuration | src/cqt.rs:134-143 | the start lies in [0, duration]; it is 0 exactly when frame 0 is an onset and the full duration exactly when there is no onset |
| Cqt.LastArgMax | src/cqt.rs:155-158 | a bin holding the row's maximum, with every later bin strictly smaller |
| Cqt.BinToFreq | src/cqt.rs:185-187 | bin 0 sits at `MIN_FREQ` |
| Cqt.BinToFreqOctave | src/cqt.rs:185-187 | `BINS_PER_OCTAVE` bins up doubles the frequency, and a higher bin has a higher frequency, for a `2^x` that behaves so |
| Cqt.PeakFreq | src/cqt.rs:155-160 | the frequency of a bin holding the row's maximum, every later bin being strictly smaller |
| Cqt.Frequencies | src/cqt.rs:145-169 | no pairs for empty rows; otherwise one pair per frame, the loudest bin's frequency with that frame's onset flag |
| Cqt.PairWithOnsets | src/cqt.rs:150-167 | the frame loop pairs each frame's peak frequency with its flag |
| Shared.StandardizedInverse | src/algorithms/shared.rs:9-11 | each standardized value times the deviation gives back the sample's distance from the mean |
| Shared.StandardizedSumZero | src/algorithms/shared.rs:1-12 | the standardized values sum to 0 |
| Shared.StandardizedMeanZero | src/algorithms/shared.rs:1-12 | their mean is 0 |
| Shared.StandardizedOrder | src/algorithms/shared.rs:9-11 | with a positive deviation, order and equality between samples are kept |
| Shared.StandardizedUnitVariance | src/algorithms/shared.rs:4-11 | dividing by the root of the variance leaves variance 1 |
| Shared.StandardizedBufferSpec | src/algorithms/shared.rs:1-12 | the standardized buffer sums to 0; when non-empty it has mean 0 and variance 1; it keeps the samples' order |
| Shared.SumOf | src/algorithms/shared.rs:4 | the sum of the buffer |
| Shared.SumOfSquaredDeviations | src/algorithms/shared.rs:6 | the sum of the squared deviations from the mean |
| Shared.Standardize | src/algorithms/shared.rs:1-12 | rewrites the buffer in place into its standardized form; an empty buffer is left alone |
| Shared.FrameToSecondsLinear | src/algorithms/shared.rs:14-16 | frame 0 is at 0 s, frame `frames` at the full duration, and the conversion is additive |
| Shared.FrameToSeconds | src/algorithms/shared.rs:14-16 | defined exactly when `frames > 0`; then seconds × frames = duration × frame |
| Shared.FrameToFrames | src/algorithms/shared.rs:18-20 | defined exactly when `frames_a > 0` and the product fits in `usize`; then the floor of `frames_b * frame / frames_a` |
| Shared.FrameToFramesBounds | src/algorithms/shared.rs:18-20 | 0 maps to 0, `frames_a` to `frames_b`, and any frame of A to a frame of B |
| Shared.FrameToFramesMonotone | src/algorithms/shared.rs:18-20 | later frames never map to earlier ones |
| PeakPicking.Standardize | src/algorithms/peak_picking.rs:1-12 | the second copy rewrites the buffer into the same standardized form |
| PeakPicking.CopiesAgree | src/algorithms/peak_picking.rs:1-12 | both copies leave the same buffer: sum 0 and, when non-empty, variance 1 |

## Left out

- `CqtFeatures::from` (src/cqt.rs:14-39): the constant-Q transform is an external library; the magnitude matrix is an input. `MAX_FREQ` is used only there, so it is not modelled.
- Exact floating-point values: the Hamming coefficients, `2^(1/12)`, `2^x` and `sqrt` are parameters. So neither the window test (src/stft.rs:75-79) nor a 440 Hz lookup is reproduced.
- f32 rounding and overflow to infinity: arithmetic is exact over the reals. Infinities and NaN are modelled only where a division by zero produces them (`Common.Float`); -0.0 and negative infinity are not distinguished.
- `partial_cmp(...).unwrap()` panicking on NaN (src/cqt.rs:158): there are no NaNs in the model.
- `LazyLock` initialisation of `ALL_NOTES`: the table is a function of the ratio.
- The FFT's content: transforms are parameters, so the identity between the FFT route and the direct autocorrelation is not proved.
- Planners, allocation and capacity hints: only a capacity that panics (`num_frames - 2` on one frame) is modelled.
- src/main.rs, src/charts.rs, src/samples.rs, src/algorithms/yin.rs and examples/pyin.rs are not part of this model.
- Notes.FromFreq: `None` stands for the panics on a table of at most one entry or a query above the last frequency.
- BpmDetection.BpmOf: `None` stands for the infinite or NaN tempo at lag 0; a negative sample rate with lag 0 gives -inf in f32, which is also `None`.
- Cqt.Start: `None` stands for the NaN start when there are no frames.
- Shared.FrameToSeconds: `None` stands for the infinite or NaN result when `frames` is 0.
- Shared.FrameToFrames: `None` stands for the division by zero and for a product beyond `usize::MAX` (a panic in debug builds; release builds would wrap, which is not modelled).
- Shared.Standardize: requires a buffer whose variance has a positive root. A constant non-empty buffer divides by zero and fills with NaN, which is not modelled.
- PeakPicking.Standardize: same restriction as `Shared.Standardize`.
- Stft.Stft: the bound `ceil(len / hop)` is exact. f32 rounding of it for signals beyond 2^24 samples is not modelled. `hop_size == 0` is excluded: the source's frame bound then saturates to `usize::MAX` and every frame starts at 0.
- OnsetDetection.Stft: frame size 0 and hop size 0 are excluded, because `windows(0)` and `step_by(0)` panic.

## Findings

| source | as written | input that shows it | evidently intended | confidence | as-written member | corrected member |
|---|---|---|---|---|---|---|
| src/algorithms/onset_detection.rs:50-53 | `(d + PI) % (2 PI) - PI` with Rust's truncating `%`, which keeps the dividend's sign | a phase step `d = -2 PI` (any step below `-PI`) comes back unchanged, outside `[-PI, PI]` | normalise every step into `[-PI, PI)`, as the comment says | not executed; the output is unchanged up to a rounding-level shift, since both forms differ from the raw step by whole turns of 2·PI_f32 (`Spectral.WrapIrrelevant` assumes `from_polar` periodic in that) | Spectral.WrapPhaseNotConfined | Spectral.WrapPhaseCentred |
