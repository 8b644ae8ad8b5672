/** Tempo estimation of src/algorithms/bpm_detection.rs: the autocorrelation
    of an onset detection function through a zero-padded FFT, the search for
    the dominant lag, and its conversion to beats per minute.

    The forward and inverse transforms are `Transform` parameters; the model
    states the shape of the computation (padding, power step, truncation and
    scaling), not the autocorrelation identity the transforms make true. */
module BpmDetection {
  import opened Common
  import opened Spectral

  /** The buffer handed to the forward transform: the input as complex bins,
      resized with zeros to twice its length. */
  function ZeroPad(odf: seq<real>): (b: seq<Complex>)
    ensures |b| == 2 * |odf|
  {
    seq(2 * |odf|, i requires 0 <= i < 2 * |odf| => if i < |odf| then Complex(odf[i], 0.0) else Complex(0.0, 0.0))
  }

  /** The padded buffer is the input, real-valued, followed by exactly `n` zeros. */
  lemma ZeroPadLayout(odf: seq<real>)
    ensures |ZeroPad(odf)| == 2 * |odf|
    ensures forall i :: 0 <= i < |odf| ==> ZeroPad(odf)[i].re == odf[i] && ZeroPad(odf)[i].im == 0.0
    ensures ZeroPad(odf)[|odf|..] == seq(|odf|, _ => Complex(0.0, 0.0))
  {
  }

  /** The power step: each bin replaced by its squared magnitude, as a real bin. */
  function PowerSpectrum(b: seq<Complex>): (p: seq<Complex>)
    ensures |p| == |b|
    ensures forall k :: 0 <= k < |p| ==> p[k].im == 0.0 && p[k].re >= 0.0
  {
    seq(|b|, k requires 0 <= k < |b| => Complex(NormSqr(b[k]), 0.0))
  }

  /** The first `n` real parts of the inverse transform of the power
      spectrum, each divided by the padded length `2 n`. */
  function Autocorrelation(odf: seq<real>, fft: Transform, ifft: Transform): (ac: seq<real>)
    ensures |ac| == |odf|
  {
    var back := Apply(ifft, PowerSpectrum(Apply(fft, ZeroPad(odf))));
    seq(|odf|, i requires 0 <= i < |odf| => back[i].re / (2 * |odf|) as real)
  }

  /** `process` on a buffer: every bin of the new contents is the transform
      of the old contents. */
  method Process(t: Transform, buffer: array<Complex>)
    modifies buffer
    ensures buffer[..] == Apply(t, old(buffer[..]))
  {
    var before := buffer[..];
    forall k | 0 <= k < buffer.Length {
      buffer[k] := t(before, k);
    }
  }

  /** The power step of `compute_autocorrelation`, in place: `*x` becomes
      `Complex { re: x.norm_sqr(), im: 0.0 }` for every bin. */
  method PowerInPlace(buffer: array<Complex>)
    modifies buffer
    ensures buffer[..] == PowerSpectrum(old(buffer[..]))
  {
    ghost var spectrum := buffer[..];
    for k := 0 to buffer.Length
      invariant forall j :: 0 <= j < k ==> buffer[j] == PowerSpectrum(spectrum)[j]
      invariant forall j :: k <= j < buffer.Length ==> buffer[j] == spectrum[j]
    {
      buffer[k] := Complex(NormSqr(buffer[k]), 0.0);
    }
  }

  /** The closing `take(n).map(|x| x.re / padded_len)`. */
  method TakeScaled(buffer: array<Complex>, n: nat) returns (ac: seq<real>)
    requires n <= buffer.Length && buffer.Length == 2 * n
    ensures |ac| == n
    ensures forall i :: 0 <= i < n ==> ac[i] == buffer[i].re / (2 * n) as real
  {
    ac := [];
    for i := 0 to n
      invariant |ac| == i
      invariant forall j :: 0 <= j < i ==> ac[j] == buffer[j].re / (2 * n) as real
    {
      ac := ac + [buffer[i].re / buffer.Length as real];
    }
  }

  /** `compute_autocorrelation`: pad into a buffer, transform it in place,
      replace each bin by its power, transform back, keep the first `n`
      real parts scaled by `1 / (2 n)`. */
  method ComputeAutocorrelation(odf: seq<real>, fft: Transform, ifft: Transform) returns (ac: seq<real>)
    ensures ac == Autocorrelation(odf, fft, ifft)
  {
    var n := |odf|;
    var paddedLen := 2 * n;
    var buffer := new Complex[paddedLen](i requires 0 <= i < paddedLen => if i < n then Complex(odf[i], 0.0) else Complex(0.0, 0.0));
    assert buffer[..] == ZeroPad(odf);
    Process(fft, buffer);
    PowerInPlace(buffer);
    Process(ifft, buffer);
    ac := TakeScaled(buffer, n);
  }

  /** The lag search over lags `10 .. hi`, starting from lag 0 with value 0:
      a lag replaces the best so far only when strictly greater. The pair
      is always a lag in range with its own value, or the starting (0, 0). */
  function Scan(a: seq<real>, hi: nat): (best: (nat, real))
    requires hi <= |a|
    ensures best.0 == 0 ==> best.1 == 0.0
    ensures best.0 != 0 ==> 10 <= best.0 < hi && best.1 == a[best.0] > 0.0
  {
    if hi <= 10 then (0, 0.0)
    else
      var prev := Scan(a, hi - 1);
      if a[hi - 1] > prev.1 then (hi - 1, a[hi - 1]) else prev
  }

  /** What the search finds: lag 0 exactly when no lag in range holds a
      positive value; otherwise a lag in range with a positive, maximal value,
      the first one with that value. */
  lemma {:induction false} ScanFinds(a: seq<real>, hi: nat)
    requires hi <= |a|
    ensures var (lag, value) := Scan(a, hi);
      (lag != 0 ==> 10 <= lag < hi && a[lag] > 0.0) &&
      value == (if lag == 0 then 0.0 else a[lag]) &&
      (lag == 0 <==> forall j :: 10 <= j < hi ==> a[j] <= 0.0) &&
      (forall j :: 10 <= j < hi ==> a[j] <= value) &&
      (forall j :: 10 <= j < lag ==> a[j] < value)
  {
    if hi > 10 {
      ScanFinds(a, hi - 1);
    }
  }

  /** The lag `find_dominant_period` settles on for an autocorrelation. */
  function DominantLag(a: seq<real>): (lag: nat)
    ensures lag == 0 || 10 <= lag < |a|
  {
    Scan(a, |a|).0
  }

  /** The dominant lag is 0 exactly when no lag from 10 on holds a positive
      value (in particular whenever there are at most 10 values); otherwise
      it is in range, positive, maximal, and strictly above every earlier lag. */
  lemma DominantLagSpec(a: seq<real>)
    ensures DominantLag(a) == 0 <==> forall j :: 10 <= j < |a| ==> a[j] <= 0.0
    ensures |a| <= 10 ==> DominantLag(a) == 0
    ensures DominantLag(a) != 0 ==>
      10 <= DominantLag(a) < |a| && a[DominantLag(a)] > 0.0 &&
      (forall j :: 10 <= j < |a| ==> a[j] <= a[DominantLag(a)]) &&
      (forall j :: 10 <= j < DominantLag(a) ==> a[j] < a[DominantLag(a)])
  {
    ScanFinds(a, |a|);
  }

  /** The characterisation determines the lag: the first positive maximum is
      the one the search returns. */
  lemma DominantLagUnique(a: seq<real>, l: nat)
    requires 10 <= l < |a| && a[l] > 0.0
    requires forall j :: 10 <= j < |a| ==> a[j] <= a[l]
    requires forall j :: 10 <= j < l ==> a[j] < a[l]
    ensures DominantLag(a) == l
  {
    DominantLagSpec(a);
    var d := DominantLag(a);
    assert d != 0 by {
      assert !(a[l] <= 0.0);
    }
  }

  /** `find_dominant_period`: the dominant lag divided by the sample rate.
      A zero sample rate gives +inf for a non-zero lag and NaN for lag 0. */
  method FindDominantPeriod(autocorr: seq<real>, sampleRate: real) returns (period: Float)
    ensures sampleRate != 0.0 ==> period.Finite? && period.value * sampleRate == DominantLag(autocorr) as real
    ensures sampleRate == 0.0 ==> (period.NaN? <==> DominantLag(autocorr) == 0)
    ensures sampleRate == 0.0 ==> (period.PosInf? <==> DominantLag(autocorr) != 0)
  {
    var maxLag: nat := 0;
    var maxValue := 0.0;
    if |autocorr| > 10 {
      // `10..len` is empty otherwise
      for lag := 10 to |autocorr|
        invariant (maxLag, maxValue) == Scan(autocorr, lag)
      {
        if autocorr[lag] > maxValue {
          maxValue := autocorr[lag];
          maxLag := lag;
        }
      }
    }
    assert maxLag == DominantLag(autocorr);
    period := Quotient(maxLag as real, Finite(sampleRate));
    QuotientByRate(maxLag, sampleRate);
  }

  /** A lag over a sample rate: finite and multiplying back for a non-zero
      rate; at rate 0, NaN for lag 0 and +inf otherwise. */
  lemma QuotientByRate(lag: nat, rate: real)
    ensures rate != 0.0 ==> Quotient(lag as real, Finite(rate)).Finite? &&
                            Quotient(lag as real, Finite(rate)).value * rate == lag as real
    ensures rate == 0.0 ==> (Quotient(lag as real, Finite(rate)).NaN? <==> lag == 0)
    ensures rate == 0.0 ==> (Quotient(lag as real, Finite(rate)).PosInf? <==> lag != 0)
  {
  }

  /** Beats per minute for a lag, `60 / (lag / sample_rate)`, stated case by
      case: `None` where the tempo is not finite (lag 0: a zero or NaN
      period); 0 at sample rate 0, where the period is +inf; otherwise the
      tempo whose beat lasts `lag / sample_rate` seconds. */
  function BpmOf(lag: nat, sampleRate: real): (bpm: Option<real>)
    ensures bpm.Some? <==> lag != 0
    ensures sampleRate != 0.0 && bpm.Some? ==> bpm.value * (lag as real / sampleRate) == 60.0
    ensures sampleRate == 0.0 && lag != 0 ==> bpm == Some(0.0)
  {
    if lag == 0 then None
    else if sampleRate == 0.0 then Some(0.0)
    else Some(60.0 * sampleRate / lag as real)
  }

  /** Since the search starts at lag 10, a positive sample rate never yields
      more than `6 * sample_rate` beats per minute, and never a negative tempo. */
  lemma BpmBounds(lag: nat, sampleRate: real)
    requires sampleRate > 0.0
    requires BpmOf(lag, sampleRate).Some?
    requires lag >= 10
    ensures 0.0 < BpmOf(lag, sampleRate).value <= 6.0 * sampleRate
  {
    var b := BpmOf(lag, sampleRate).value;
    assert b * lag as real == 60.0 * sampleRate;
  }

  /** `bpm`: the autocorrelation, its dominant period, and 60 over the period. */
  method Bpm(odf: seq<real>, sampleRate: real, fft: Transform, ifft: Transform) returns (bpm: Option<real>)
    ensures bpm == BpmOf(DominantLag(Autocorrelation(odf, fft, ifft)), sampleRate)
  {
    var autocorr := ComputeAutocorrelation(odf, fft, ifft);
    var period := FindDominantPeriod(autocorr, sampleRate);
    var tempo := Quotient(60.0, period);
    if !tempo.Finite? {
      return None;
    }
    bpm := Some(tempo.value);
    TempoOfPeriod(DominantLag(autocorr), sampleRate, period);
  }

  /** 60 over the period `find_dominant_period` returns is the tempo of its
      lag, `None` exactly where that quotient is not finite. */
  lemma TempoOfPeriod(lag: nat, rate: real, period: Float)
    requires rate != 0.0 ==> period.Finite? && period.value * rate == lag as real
    requires rate == 0.0 ==> (period.NaN? <==> lag == 0) && (period.PosInf? <==> lag != 0)
    ensures var tempo := Quotient(60.0, period);
      BpmOf(lag, rate) == if tempo.Finite? then Some(tempo.value) else None
  {
    if rate != 0.0 {
      assert period.value == lag as real / rate;
      if lag != 0 {
        assert 60.0 / (lag as real / rate) == 60.0 * rate / lag as real;
      }
    }
  }
}
