/** The onset and pitch logic of src/cqt.rs over a constant-Q magnitude
    matrix (frames by bins): weighted half-wave-rectified spectral flux,
    moving-average thresholding, the time of the first onset and the loudest
    bin per frame. The matrix itself comes from an external library and is
    an input here. */
module Cqt {
  import opened Common

  /** The lowest bin's frequency and the bins per octave, as `bin_to_freq`
      uses them (`MAX_FREQ` only configures the transform, which is not part
      of this model). */
  const MinFreq: real := 30.0
  const BinsPerOctave: nat := 96

  /** The threshold factor applied to the moving average in `onsets`. */
  const ThresholdFactor: real := 1.0

  /** `CqtFeatures`: the rows (frames) of the matrix and its column count (bins). */
  datatype CqtFeatures = CqtFeatures(data: seq<seq<real>>, bins: nat)
  {
    /** Every row of a two-dimensional array has the same length. */
    predicate Rectangular()
    {
      forall n :: 0 <= n < |data| ==> |data[n]| == bins
    }
  }

  /** `compute_log_weights(min_freq, num_bins)`: `log2(f_k / min_freq)` with
      `f_k = min_freq * 2^(k / num_bins)`, that is the fraction `k / num_bins`
      of an octave. */
  function ComputeLogWeights(numBins: nat): (w: seq<real>)
    ensures |w| == numBins
  {
    seq(numBins, k requires 0 <= k < numBins => k as real / numBins as real)
  }

  lemma LogWeight(k: nat, n: nat)
    requires k < n
    ensures (k as real / n as real) * n as real == k as real
    ensures 0.0 <= k as real / n as real < 1.0
    ensures k == 0 <==> k as real / n as real == 0.0
  {
  }

  lemma LogWeightOrder(j: nat, k: nat, n: nat)
    requires j < k < n
    ensures j as real / n as real < k as real / n as real
  {
  }

  /** Weight `k` is the fraction `k / num_bins` of an octave: it lies in
      `[0, 1)`, is 0 exactly for the lowest bin, and grows with the bin. */
  lemma LogWeightsSpec(numBins: nat)
    ensures forall k :: 0 <= k < numBins ==> ComputeLogWeights(numBins)[k] * numBins as real == k as real
    ensures forall k :: 0 <= k < numBins ==> 0.0 <= ComputeLogWeights(numBins)[k] < 1.0
    ensures forall k :: 0 <= k < numBins ==> (ComputeLogWeights(numBins)[k] == 0.0 <==> k == 0)
    ensures forall j, k :: 0 <= j < k < numBins ==> ComputeLogWeights(numBins)[j] < ComputeLogWeights(numBins)[k]
  {
    var w := ComputeLogWeights(numBins);
    forall k | 0 <= k < numBins
      ensures w[k] * numBins as real == k as real && 0.0 <= w[k] < 1.0 && (w[k] == 0.0 <==> k == 0)
    {
      LogWeight(k, numBins);
    }
    forall j, k | 0 <= j < k < numBins
      ensures w[j] < w[k]
    {
      LogWeightOrder(j, k, numBins);
    }
  }

  /** The flux of one frame over its first `k` bins: the rising bins only,
      each weighted, squared difference. */
  function FrameFlux(cur: seq<real>, prev: seq<real>, w: seq<real>, k: nat): real
    requires k <= |cur| && k <= |prev| && k <= |w|
  {
    if k == 0 then 0.0
    else
      FrameFlux(cur, prev, w, k - 1) + RectifiedTerm(w[k - 1], cur[k - 1] - prev[k - 1])
  }

  /** The contribution of one bin: its weight times its squared rise, or
      nothing when the bin did not rise. */
  function RectifiedTerm(weight: real, diff: real): real
  {
    if diff > 0.0 then weight * (diff * diff) else 0.0
  }

  /** The flux sequence: 0 for the first frame, then the flux of every frame
      against the one before it. */
  function Flux(f: CqtFeatures): (flux: seq<real>)
    requires f.Rectangular()
    ensures |flux| == Max(1, |f.data|)
    ensures flux[0] == 0.0
  {
    var w := ComputeLogWeights(f.bins);
    [0.0] + seq(Max(0, |f.data| - 1), n requires 0 <= n < Max(0, |f.data| - 1) =>
      FrameFlux(f.data[n + 1], f.data[n], w, f.bins))
  }

  /** The inner loop of `spectral_flux`. */
  method FrameFluxOf(cur: seq<real>, prev: seq<real>, weights: seq<real>, nBins: nat) returns (frameFlux: real)
    requires nBins <= |cur| && nBins <= |prev| && nBins <= |weights|
    ensures frameFlux == FrameFlux(cur, prev, weights, nBins)
  {
    frameFlux := 0.0;
    for k := 0 to nBins
      invariant frameFlux == FrameFlux(cur, prev, weights, k)
    {
      var diff := cur[k] - prev[k];
      if diff > 0.0 {
        frameFlux := frameFlux + weights[k] * (diff * diff);
      }
    }
  }

  /** `spectral_flux`. */
  method SpectralFlux(f: CqtFeatures) returns (flux: seq<real>)
    requires f.Rectangular()
    ensures flux == Flux(f)
  {
    var nSamples := |f.data|;
    var nBins := f.bins;
    flux := [0.0];
    var weights := ComputeLogWeights(nBins);
    if nSamples > 0 {
      for n := 1 to nSamples
        invariant flux == Flux(CqtFeatures(f.data[..n], nBins))
      {
        var frameFlux := FrameFluxOf(f.data[n], f.data[n - 1], weights, nBins);
        flux := flux + [frameFlux];
      }
      assert f.data[..nSamples] == f.data;
    }
  }

  lemma {:induction false} FrameFluxNonNegative(cur: seq<real>, prev: seq<real>, w: seq<real>, k: nat)
    requires k <= |cur| && k <= |prev| && k <= |w|
    requires forall j :: 0 <= j < |w| ==> w[j] >= 0.0
    ensures FrameFlux(cur, prev, w, k) >= 0.0
  {
    if k > 0 {
      FrameFluxNonNegative(cur, prev, w, k - 1);
      RectifiedTermSign(w[k - 1], cur[k - 1] - prev[k - 1]);
    }
  }

  /** No flux value is negative. */
  lemma FluxNonNegative(f: CqtFeatures)
    requires f.Rectangular()
    ensures forall n :: 0 <= n < |Flux(f)| ==> Flux(f)[n] >= 0.0
  {
    var w := ComputeLogWeights(f.bins);
    forall n | 1 <= n < |Flux(f)|
      ensures Flux(f)[n] >= 0.0
    {
      FrameFluxNonNegative(f.data[n], f.data[n - 1], w, f.bins);
    }
  }

  /** A bin contributes nothing unless it rose, nothing if its weight is 0,
      and never a negative amount under a non-negative weight. */
  lemma RectifiedTermSign(weight: real, diff: real)
    ensures weight >= 0.0 ==> RectifiedTerm(weight, diff) >= 0.0
    ensures diff <= 0.0 || weight == 0.0 ==> RectifiedTerm(weight, diff) == 0.0
  {
    if diff > 0.0 && weight >= 0.0 {
      assert diff * diff >= 0.0;
    }
  }

  lemma {:induction false} FrameFluxWithoutRise(cur: seq<real>, prev: seq<real>, w: seq<real>, k: nat)
    requires k <= |cur| && k <= |prev| && k <= |w|
    requires forall j :: 0 <= j < k && j != 0 ==> cur[j] <= prev[j]
    requires k > 0 ==> w[0] == 0.0
    ensures FrameFlux(cur, prev, w, k) == 0.0
  {
    if k > 0 {
      FrameFluxWithoutRise(cur, prev, w, k - 1);
      RectifiedTermSign(w[k - 1], cur[k - 1] - prev[k - 1]);
    }
  }

  /** A frame in which no bin other than the lowest rose has zero flux: the
      lowest bin has log weight 0, so it never counts. */
  lemma FluxWithoutRise(f: CqtFeatures, n: nat)
    requires f.Rectangular() && 1 <= n < |f.data|
    requires forall j :: 1 <= j < f.bins ==> f.data[n][j] <= f.data[n - 1][j]
    ensures Flux(f)[n] == 0.0
  {
    LogWeightsSpec(f.bins);
    FrameFluxWithoutRise(f.data[n], f.data[n - 1], ComputeLogWeights(f.bins), f.bins);
  }

  /** First index of the averaging window around `i`. */
  function WindowStart(i: nat, halfWindow: nat): (s: nat)
    ensures s <= i
  {
    if i < halfWindow then 0 else i - halfWindow
  }

  /** One past the last index of the averaging window around `i`. */
  function WindowEnd(i: nat, halfWindow: nat, len: nat): (e: nat)
    ensures i < len ==> i < e <= len
  {
    if i + halfWindow >= len then len else i + halfWindow + 1
  }

  /** The window around `i` is `max(0, i - hw) .. min(len, i + hw + 1)`: never
      empty, and it contains `i`. */
  lemma WindowContains(i: nat, halfWindow: nat, len: nat)
    requires i < len
    ensures WindowStart(i, halfWindow) <= i < WindowEnd(i, halfWindow, len) <= len
    ensures WindowStart(i, halfWindow) == Max(0, i - halfWindow)
    ensures WindowEnd(i, halfWindow, len) == if i + halfWindow + 1 < len then i + halfWindow + 1 else len
  {
  }

  /** The moving average of the window around `i`. */
  function WindowMean(flux: seq<real>, i: nat, halfWindow: nat): real
    requires i < |flux|
  {
    Mean(flux[WindowStart(i, halfWindow)..WindowEnd(i, halfWindow, |flux|)])
  }

  /** The onset flags: a frame is an onset when its flux is strictly above
      the threshold of its window. */
  function OnsetFlags(flux: seq<real>, halfWindow: nat): (flags: seq<bool>)
    ensures |flags| == |flux|
  {
    seq(|flux|, i requires 0 <= i < |flux| => flux[i] > WindowMean(flux, i, halfWindow) * ThresholdFactor)
  }

  /** The body of the loop of `onsets`: the clamped window around `i`, its
      moving average, and the comparison with the threshold. */
  method AboveMovingAverage(spectralFlux: seq<real>, i: nat, halfWindow: nat) returns (above: bool)
    requires i < |spectralFlux|
    ensures above == OnsetFlags(spectralFlux, halfWindow)[i]
  {
    var start := if i < halfWindow then 0 else i - halfWindow;
    var end := if i + halfWindow >= |spectralFlux| then |spectralFlux| else i + halfWindow + 1;
    var window := spectralFlux[start..end];
    var windowLen := |window| as real;
    var windowSum := Sum(window);
    var movingAverage := windowSum / windowLen;
    var threshold := movingAverage * ThresholdFactor;
    above := spectralFlux[i] > threshold;
  }

  /** `onsets`: the spectral flux thresholded against its moving average,
      with a half window of half the frame count. */
  method Onsets(f: CqtFeatures) returns (onsets: seq<bool>)
    requires f.Rectangular()
    ensures onsets == OnsetFlags(Flux(f), |f.data| / 2)
  {
    var windowSize := |f.data|;
    var spectralFlux := SpectralFlux(f);
    var halfWindow := windowSize / 2;
    onsets := ThresholdFlux(spectralFlux, halfWindow);
  }

  /** The loop of `onsets`: the flags start false and are set for the frames
      above threshold. */
  method ThresholdFlux(spectralFlux: seq<real>, halfWindow: nat) returns (onsets: seq<bool>)
    ensures onsets == OnsetFlags(spectralFlux, halfWindow)
  {
    var flags := new bool[|spectralFlux|](_ => false);
    for i := 0 to |spectralFlux|
      invariant forall j :: 0 <= j < i ==> flags[j] == OnsetFlags(spectralFlux, halfWindow)[j]
      invariant forall j :: i <= j < flags.Length ==> !flags[j]
    {
      var above := AboveMovingAverage(spectralFlux, i, halfWindow);
      if above {
        flags[i] := true;
      }
    }
    onsets := flags[..];
  }

  /** A constant flux has no frame above its own average: no onsets. */
  lemma ConstantFluxNoOnsets(flux: seq<real>, halfWindow: nat, c: real)
    requires forall i :: 0 <= i < |flux| ==> flux[i] == c
    ensures forall i :: 0 <= i < |flux| ==> !OnsetFlags(flux, halfWindow)[i]
  {
    forall i | 0 <= i < |flux|
      ensures !OnsetFlags(flux, halfWindow)[i]
    {
      var window := flux[WindowStart(i, halfWindow)..WindowEnd(i, halfWindow, |flux|)];
      MeanConstant(window, c);
    }
  }

  /** The flags do not change when the flux is scaled by a positive factor
      and shifted: the detector has no absolute threshold. */
  lemma OnsetsAffineInvariant(flux: seq<real>, g: seq<real>, halfWindow: nat, a: real, b: real)
    requires a > 0.0 && |g| == |flux|
    requires forall i :: 0 <= i < |flux| ==> g[i] == a * flux[i] + b
    ensures OnsetFlags(g, halfWindow) == OnsetFlags(flux, halfWindow)
  {
    forall i | 0 <= i < |flux|
      ensures OnsetFlags(g, halfWindow)[i] == OnsetFlags(flux, halfWindow)[i]
    {
      OnsetAffineAt(flux, g, halfWindow, a, b, i);
    }
  }

  lemma OnsetAffineAt(flux: seq<real>, g: seq<real>, halfWindow: nat, a: real, b: real, i: nat)
    requires a > 0.0 && |g| == |flux| && i < |flux|
    requires forall i :: 0 <= i < |flux| ==> g[i] == a * flux[i] + b
    ensures OnsetFlags(g, halfWindow)[i] == OnsetFlags(flux, halfWindow)[i]
  {
    var s, e := WindowStart(i, halfWindow), WindowEnd(i, halfWindow, |flux|);
    MeanAffine(flux[s..e], g[s..e], a, b);
    assert WindowMean(g, i, halfWindow) == a * WindowMean(flux, i, halfWindow) + b;
    AffineOrder(flux[i], WindowMean(flux, i, halfWindow), a, b);
  }

  lemma AffineOrder(x: real, m: real, a: real, b: real)
    requires a > 0.0
    ensures (a * x + b > (a * m + b) * ThresholdFactor) == (x > m * ThresholdFactor)
  {
    if x > m {
      assert a * x > a * m;
    } else {
      assert a * x <= a * m;
    }
  }

  /** A frame whose flux is strictly the largest in a window of two frames or
      more is an onset. */
  lemma WindowPeakIsOnset(flux: seq<real>, halfWindow: nat, i: nat)
    requires i < |flux|
    requires WindowEnd(i, halfWindow, |flux|) - WindowStart(i, halfWindow) >= 2
    requires forall j :: WindowStart(i, halfWindow) <= j < WindowEnd(i, halfWindow, |flux|) && j != i ==> flux[j] < flux[i]
    ensures OnsetFlags(flux, halfWindow)[i]
  {
    var s, e := WindowStart(i, halfWindow), WindowEnd(i, halfWindow, |flux|);
    var window := flux[s..e];
    var other := if i > s then s else i + 1;
    assert window[other - s] < flux[i];
    MeanBelow(window, flux[i], other - s);
  }

  /** A frame whose flux is the smallest in its window is never an onset. */
  lemma WindowMinimumIsNotOnset(flux: seq<real>, halfWindow: nat, i: nat)
    requires i < |flux|
    requires forall j :: WindowStart(i, halfWindow) <= j < WindowEnd(i, halfWindow, |flux|) ==> flux[i] <= flux[j]
    ensures !OnsetFlags(flux, halfWindow)[i]
  {
    var window := flux[WindowStart(i, halfWindow)..WindowEnd(i, halfWindow, |flux|)];
    MeanAtLeast(window, flux[i]);
  }

  /** `iter().position(|&o| o).unwrap_or(len)`: the first set flag, or the
      length when none is set. */
  function FirstTrue(flags: seq<bool>): (r: nat)
    ensures r <= |flags|
    ensures r < |flags| ==> flags[r]
    ensures forall j :: 0 <= j < r ==> !flags[j]
  {
    if |flags| == 0 then 0
    else if flags[0] then 0
    else 1 + FirstTrue(flags[1..])
  }

  /** `frame_to_millis(frame, rate)`: `frame / rate * 1000`. The rate may
      itself be non-finite: `start` hands over +inf for a zero duration. */
  function FrameToMillis(frame: nat, sampleRate: Float): (ms: Float)
    ensures sampleRate.Finite? && sampleRate.value != 0.0 ==> ms.Finite?
    ensures sampleRate.PosInf? ==> ms == Finite(0.0)
    ensures sampleRate == Finite(0.0) ==> (ms.NaN? <==> frame == 0) && (ms.PosInf? <==> frame != 0)
    ensures sampleRate.NaN? ==> ms.NaN?
  {
    match sampleRate
    case Finite(rate) =>
      if rate != 0.0 then Finite(frame as real / rate * 1000.0)
      else if frame == 0 then NaN
      else PosInf
    case PosInf => Finite(0.0)
    case NaN => NaN
  }

  /** For a finite, non-zero rate, the milliseconds times the rate give back
      the frame in thousandths. */
  lemma FrameToMillisInverse(frame: nat, sampleRate: real)
    requires sampleRate != 0.0
    ensures FrameToMillis(frame, Finite(sampleRate)).value * sampleRate == frame as real * 1000.0
  {
    var q := frame as real / sampleRate;
    assert FrameToMillis(frame, Finite(sampleRate)) == Finite(q * 1000.0);
    assert q * sampleRate == frame as real;
  }

  /** `start`: the time of the first onset, the flags spread evenly over the
      duration, `first * duration / len`, by way of the rate
      `len / duration * 1000`. With no flags the result is `0 / 0`, NaN
      (`None`); with a zero duration the rate is +inf and the start is 0.
      `StartIsFrameToMillis` shows that these cases are what the source's
      two divisions give. */
  function Start(onsets: seq<bool>, durationMillis: real): (ms: Option<real>)
    ensures ms.Some? <==> |onsets| > 0
    ensures durationMillis != 0.0 && ms.Some? ==> ms.value * |onsets| as real == FirstTrue(onsets) as real * durationMillis
    ensures durationMillis == 0.0 && |onsets| > 0 ==> ms == Some(0.0)
  {
    var firstIndex := FirstTrue(onsets);
    if |onsets| == 0 then None
    else if durationMillis == 0.0 then Some(0.0)
    else
      var rate := (|onsets| as real / durationMillis) * 1000.0;
      var r := FrameToMillis(firstIndex, Finite(rate));
      FrameToMillisInverse(firstIndex, rate);
      assert r.value * |onsets| as real * 1000.0 == firstIndex as real * 1000.0 * durationMillis;
      Some(r.value)
  }

  /** The rate `len / duration * 1000` that `start` hands to
      `frame_to_millis`, in IEEE arithmetic: +inf for a zero duration, NaN
      when there are no flags either. */
  function StartRate(len: nat, durationMillis: real): (rate: Float)
    ensures rate.Finite? <==> durationMillis != 0.0
    ensures rate.Finite? ==> rate.value * durationMillis == len as real * 1000.0
  {
    if durationMillis != 0.0 then Finite((len as real / durationMillis) * 1000.0)
    else if len == 0 then NaN
    else PosInf
  }

  /** `start` computes exactly `frame_to_millis(first, len / duration * 1000)`
      in IEEE arithmetic, with a non-finite result as `None`. */
  lemma StartIsFrameToMillis(onsets: seq<bool>, durationMillis: real)
    ensures var r := FrameToMillis(FirstTrue(onsets), StartRate(|onsets|, durationMillis));
      Start(onsets, durationMillis) == if r.Finite? then Some(r.value) else None
  {
    if |onsets| == 0 {
      assert FirstTrue(onsets) == 0;
    }
  }

  /** For a positive duration the start lies within it; it is 0 exactly when
      the first frame is an onset and the whole duration exactly when there is
      no onset. */
  lemma StartWithinDuration(onsets: seq<bool>, durationMillis: real)
    requires durationMillis > 0.0 && |onsets| > 0
    ensures 0.0 <= Start(onsets, durationMillis).value <= durationMillis
    ensures Start(onsets, durationMillis).value == 0.0 <==> onsets[0]
    ensures Start(onsets, durationMillis).value == durationMillis <==> forall j :: 0 <= j < |onsets| ==> !onsets[j]
  {
    var v := Start(onsets, durationMillis).value;
    StartBounds(v, |onsets| as real, FirstTrue(onsets) as real, durationMillis);
    if FirstTrue(onsets) == |onsets| {
      assert forall j :: 0 <= j < |onsets| ==> !onsets[j];
    }
  }

  /** The arithmetic of `StartWithinDuration`: `v = first * d / n` with
      `0 <= first <= n`. */
  lemma StartBounds(v: real, n: real, first: real, d: real)
    requires n > 0.0 && d > 0.0 && 0.0 <= first <= n
    requires v * n == first * d
    ensures 0.0 <= v <= d
    ensures v == 0.0 <==> first == 0.0
    ensures v == d <==> first == n
  {
    assert v == first * d / n;
    assert first * d <= n * d;
  }

  /** `max_by(partial_cmp)` over a row: the index of the largest value, the
      last one when several are equal. */
  function LastArgMax(row: seq<real>): (b: nat)
    requires |row| > 0
    ensures b < |row|
    ensures forall j :: 0 <= j < |row| ==> row[j] <= row[b]
    ensures forall j :: b < j < |row| ==> row[j] < row[b]
  {
    if |row| == 1 then 0
    else
      var b := LastArgMax(row[..|row| - 1]);
      assert forall j :: 0 <= j < |row| - 1 ==> row[..|row| - 1][j] == row[j];
      if row[|row| - 1] >= row[b] then |row| - 1 else b
  }

  /** `bin_to_freq(bin) = MIN_FREQ * 2^(bin / BINS_PER_OCTAVE)`, for the
      power of two `pow2`: bin 0 sits at `MIN_FREQ`. */
  function BinToFreq(bin: nat, pow2: real -> real): (f: real)
    ensures bin == 0 && pow2(0.0) == 1.0 ==> f == MinFreq
  {
    MinFreq * pow2(bin as real / BinsPerOctave as real)
  }

  /** Bins are spaced logarithmically: for a `pow2` that doubles over one
      unit, `BINS_PER_OCTAVE` bins up is twice the frequency, one octave; and
      for an increasing `pow2`, a higher bin has a higher frequency. */
  lemma BinToFreqOctave(bin: nat, pow2: real -> real)
    ensures pow2(bin as real / 96.0 + 1.0) == 2.0 * pow2(bin as real / 96.0) ==>
      BinToFreq(bin + BinsPerOctave, pow2) == 2.0 * BinToFreq(bin, pow2)
    ensures pow2(bin as real / 96.0) < pow2((bin + 1) as real / 96.0) ==>
      BinToFreq(bin, pow2) < BinToFreq(bin + 1, pow2)
  {
    assert (bin + BinsPerOctave) as real / BinsPerOctave as real == bin as real / 96.0 + 1.0;
  }

  /** The loudest-bin frequency of a non-empty row: the frequency of the
      bin that holds the maximum, the last such bin on a tie, as
      `max_by(partial_cmp)` keeps the last of equal elements. */
  function PeakFreq(row: seq<real>, pow2: real -> real): (f: real)
    requires |row| > 0
    ensures exists b ::
              && 0 <= b < |row| && f == BinToFreq(b, pow2)
              && (forall j :: 0 <= j < |row| ==> row[j] <= row[b])
              && (forall j :: b < j < |row| ==> row[j] < row[b])
  {
    BinToFreq(LastArgMax(row), pow2)
  }

  /** `frequencies`: for every frame, the frequency of its loudest bin paired
      with the frame's onset flag; a matrix without bins gives no entries. */
  method Frequencies(f: CqtFeatures, pow2: real -> real) returns (freqs: seq<(real, bool)>)
    requires f.Rectangular()
    ensures |freqs| == if f.bins == 0 then 0 else |f.data|
    ensures forall i :: 0 <= i < |freqs| ==>
      freqs[i] == (PeakFreq(f.data[i], pow2), OnsetFlags(Flux(f), |f.data| / 2)[i])
  {
    var onsets := Onsets(f);
    freqs := PairWithOnsets(f, onsets, pow2);
  }

  /** The loop of `frequencies`, given the onset flags. */
  method PairWithOnsets(f: CqtFeatures, onsets: seq<bool>, pow2: real -> real) returns (freqs: seq<(real, bool)>)
    requires f.Rectangular() && |onsets| >= |f.data|
    ensures |freqs| == if f.bins == 0 then 0 else |f.data|
    ensures forall i :: 0 <= i < |freqs| ==> freqs[i] == (PeakFreq(f.data[i], pow2), onsets[i])
  {
    freqs := [];
    var numFrames := |f.data|;
    for frameIdx := 0 to numFrames
      invariant |freqs| == if f.bins == 0 then 0 else frameIdx
      invariant forall i :: 0 <= i < |freqs| ==> freqs[i] == (PeakFreq(f.data[i], pow2), onsets[i])
    {
      var frame := f.data[frameIdx];
      if |frame| > 0 {
        var maxBin := LastArgMax(frame);
        var freq := BinToFreq(maxBin, pow2);
        freqs := freqs + [(freq, onsets[frameIdx])];
      }
    }
  }
}
