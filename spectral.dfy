/** The spectral vocabulary shared by src/stft.rs and
    src/algorithms/onset_detection.rs: complex bins, the in-place transform,
    windowed framing and the complex-domain novelty sum.

    Floating-point primitives the model does not compute are parameters:
    - a transform (`rustfft`'s `process`) gives bin `k` of the transformed
      buffer; it works in place, so it keeps the buffer's length;
    - `norm` (with results that are never negative), `arg` and `from_polar`
      come together as a `Polar` value;
    - the Hamming coefficients come from a coefficient function. */
module Spectral {
  import opened Common

  datatype Complex = Complex(re: real, im: real)

  function Minus(a: Complex, b: Complex): Complex
  {
    Complex(a.re - b.re, a.im - b.im)
  }

  /** `norm_sqr`: the squared magnitude. */
  function NormSqr(c: Complex): (p: real)
    ensures p >= 0.0
  {
    c.re * c.re + c.im * c.im
  }

  type NonNeg = r: real | r >= 0.0

  /** `Transform(buffer, k)` is bin `k` of the transformed buffer. */
  type Transform = (seq<Complex>, nat) -> Complex

  /** An in-place `process` call: every bin is rewritten, none added or dropped. */
  function Apply(t: Transform, b: seq<Complex>): (r: seq<Complex>)
    ensures |r| == |b|
  {
    seq(|b|, k requires 0 <= k < |b| => t(b, k))
  }

  /** The complex primitives the novelty functions call. */
  datatype Polar = Polar(norm: Complex -> NonNeg, arg: Complex -> real, fromPolar: (real, real) -> Complex)

  /** `WindowCoeff(i, size)` stands for `0.54 - 0.46 * cos(2 pi i / (size - 1))`. */
  type WindowCoeff = (nat, nat) -> real

  /** `hamming_window(size)`: one coefficient per index of `0..size`. */
  function HammingWindow(size: nat, coeff: WindowCoeff): (w: seq<real>)
    ensures |w| == size
  {
    seq(size, i requires 0 <= i < size => coeff(i, size))
  }

  /** A frame of samples multiplied by the window, as complex bins with zero
      imaginary part: the buffer handed to the transform. */
  function Windowed(frame: seq<real>, hw: seq<real>): (f: seq<Complex>)
    requires |frame| == |hw|
    ensures |f| == |frame|
  {
    seq(|frame|, j requires 0 <= j < |frame| => Complex(frame[j] * hw[j], 0.0))
  }

  /** The number of full frames of `size` samples, one every `hop` samples. */
  function FrameCount(len: nat, size: nat, hop: nat): nat
    requires hop > 0
  {
    if len < size then 0 else (len - size) / hop + 1
  }

  /** Frame `k` exists exactly when it ends inside the signal. */
  lemma FrameCountIff(len: nat, size: nat, hop: nat, k: nat)
    requires hop > 0
    ensures k < FrameCount(len, size, hop) <==> k * hop + size <= len
  {
    if len >= size {
      DivLeIff(k, len - size, hop);
    } else {
      assert k * hop >= 0;
    }
  }

  function Spectrum(samples: seq<real>, hw: seq<real>, hop: nat, fft: Transform, k: nat): (f: seq<Complex>)
    requires hop > 0 && k < FrameCount(|samples|, |hw|, hop)
    ensures |f| == |hw|
  {
    FrameCountIff(|samples|, |hw|, hop, k);
    Apply(fft, Windowed(samples[k * hop..k * hop + |hw|], hw))
  }

  /** The spectra of all full frames: frame `k` covers samples
      `k * hop .. k * hop + |hw|`, multiplied by the window and transformed. */
  function Frames(samples: seq<real>, hw: seq<real>, hop: nat, fft: Transform): (frames: seq<seq<Complex>>)
    requires hop > 0
    ensures |frames| == FrameCount(|samples|, |hw|, hop)
    ensures forall k :: 0 <= k < |frames| ==> |frames[k]| == |hw|
  {
    seq(FrameCount(|samples|, |hw|, hop),
        k requires 0 <= k < FrameCount(|samples|, |hw|, hop) => Spectrum(samples, hw, hop, fft, k))
  }

  /** Every frame lies inside the signal and is the transform of its windowed samples. */
  lemma FramesAt(samples: seq<real>, hw: seq<real>, hop: nat, fft: Transform, k: nat)
    requires hop > 0 && k < |Frames(samples, hw, hop, fft)|
    ensures k * hop + |hw| <= |samples|
    ensures Frames(samples, hw, hop, fft)[k] == Apply(fft, Windowed(samples[k * hop..k * hop + |hw|], hw))
  {
    FrameCountIff(|samples|, |hw|, hop, k);
  }

  /** f32's PI. */
  const Pi: real := 3.1415927410125732421875

  /** Truncation towards zero. */
  function Trunc(q: real): int
  {
    if q >= 0.0 then q.Floor else -((-q).Floor)
  }

  /** Rust's `%` on floats: the remainder of truncated division, which keeps
      the dividend's sign. */
  function FloatRem(x: real, y: real): real
    requires y != 0.0
  {
    x - y * Trunc(x / y) as real
  }

  /** The phase normalisation of onset_detection.rs, `(d + PI) % (2 PI) - PI`.
      The remainder keeps the sign of `d + PI`, so the result lies in
      [-PI, PI) only when `d + PI` is not negative, and in (-3 PI, PI) in
      general. */
  function WrapPhase(d: real): (r: real)
    ensures -3.0 * Pi < r < Pi
    ensures d + Pi >= 0.0 ==> -Pi <= r
  {
    RemBounds(d + Pi);
    FloatRem(d + Pi, 2.0 * Pi) - Pi
  }

  /** The truncated remainder by 2 PI is below one turn in size and has the
      sign of the dividend. */
  lemma RemBounds(x: real)
    ensures -2.0 * Pi < FloatRem(x, 2.0 * Pi) < 2.0 * Pi
    ensures x >= 0.0 ==> 0.0 <= FloatRem(x, 2.0 * Pi)
  {
    var q := x / (2.0 * Pi);
    assert x == q * (2.0 * Pi);
    if q >= 0.0 {
      assert Trunc(q) as real <= q < Trunc(q) as real + 1.0;
    } else {
      assert Trunc(q) as real - 1.0 < q <= Trunc(q) as real;
    }
  }

  /** The normalised phase differs from the raw one by a whole number of turns. */
  lemma WrapPhaseWholeTurns(d: real)
    ensures (d - WrapPhase(d)) / (2.0 * Pi) == Trunc((d + Pi) / (2.0 * Pi)) as real
  {
  }

  /** ... but it is not confined to (-PI, PI]: since `%` keeps the dividend's
      sign, a difference of -2 PI comes back unchanged. */
  lemma WrapPhaseNotConfined()
    ensures WrapPhase(-2.0 * Pi) == -2.0 * Pi
    ensures WrapPhase(-2.0 * Pi) <= -Pi
  {
    assert (-2.0 * Pi + Pi) / (2.0 * Pi) == -0.5;
    assert Trunc(-0.5) == 0;
  }

  /** The normalisation the comment at onset_detection.rs:50 asks for: the
      remainder of floored division, which lands in [-PI, PI) whatever the
      sign, and still moves the difference by whole turns only. */
  function WrapPhaseCentred(d: real): (r: real)
    ensures -Pi <= r < Pi
    ensures ((d - r) / (2.0 * Pi)).Floor as real == (d - r) / (2.0 * Pi)
  {
    var turns := ((d + Pi) / (2.0 * Pi)).Floor;
    CentredStep(d + Pi, turns);
    WholeTurns(d, turns);
    d - 2.0 * Pi * turns as real
  }

  /** Subtracting `turns` whole turns moves a value by exactly `turns` turns. */
  lemma WholeTurns(d: real, turns: int)
    ensures (d - (d - 2.0 * Pi * turns as real)) / (2.0 * Pi) == turns as real
  {
  }

  /** The two normalisations agree whenever `d + PI` is not negative; they part
      only below -PI, where the truncated remainder leaves `d` as it is. */
  lemma WrapPhasesAgree(d: real)
    ensures d + Pi >= 0.0 ==> WrapPhase(d) == WrapPhaseCentred(d)
    ensures -2.0 * Pi <= d < -Pi ==> WrapPhase(d) == d && WrapPhaseCentred(d) == d + 2.0 * Pi
  {
    var q := (d + Pi) / (2.0 * Pi);
    if -2.0 * Pi <= d < -Pi {
      assert -0.5 <= q < 0.0;
      assert q.Floor == -1;
      assert Trunc(q) == 0;
    }
  }

  lemma CentredStep(x: real, turns: int)
    requires turns == (x / (2.0 * Pi)).Floor
    ensures 0.0 <= x - 2.0 * Pi * turns as real < 2.0 * Pi
  {
    var q := x / (2.0 * Pi);
    assert turns as real <= q < turns as real + 1.0;
    assert x == q * (2.0 * Pi);
  }

  /** The predicted bin: the amplitude of `x1`, with the phase of `x1` advanced
      by the phase step from `x2` to `x1`; `wrapped` applies WrapPhase to the
      step, as onset_detection.rs does and stft.rs does not. For a
      `from_polar` periodic in whole turns, either way the prediction is the
      linear extrapolation of the phase: the amplitude of `x1` at the phase
      of `x1` plus the step from `x2` to `x1`. */
  function Predict(ops: Polar, x1: Complex, x2: Complex, wrapped: bool): (p: Complex)
    ensures TurnPeriodic(ops) ==>
      p == ops.fromPolar(ops.norm(x1), ops.arg(x1) + (ops.arg(x1) - ops.arg(x2)))
  {
    var diff := ops.arg(x1) - ops.arg(x2);
    WrappedAngleWholeTurns(ops.arg(x1), diff);
    ops.fromPolar(ops.norm(x1), ops.arg(x1) + (if wrapped then WrapPhase(diff) else diff))
  }

  /** The contribution of one bin: the distance of the observed bin from its
      prediction, which for a turn-periodic `from_polar` is the distance from
      the phase-extrapolated bin, wrapped or not. */
  function Deviation(ops: Polar, x: Complex, x1: Complex, x2: Complex, wrapped: bool): (d: NonNeg)
    ensures TurnPeriodic(ops) ==>
      d == ops.norm(Minus(x, ops.fromPolar(ops.norm(x1), ops.arg(x1) + (ops.arg(x1) - ops.arg(x2)))))
  {
    ops.norm(Minus(x, Predict(ops, x1, x2, wrapped)))
  }

  /** Whether a bin enters the sum: always for CD; for RCD, only when the bin did
      not lose energy since the previous frame. */
  predicate Counted(ops: Polar, x: Complex, x1: Complex, rcd: bool)
  {
    ops.norm(x) >= ops.norm(x1) || !rcd
  }

  /** RCD keeps only bins that CD keeps too. */
  lemma RcdCountsSubset(ops: Polar, x: Complex, x1: Complex)
    ensures Counted(ops, x, x1, true) ==> Counted(ops, x, x1, false)
  {
  }

  /** The novelty of one frame: the sum, over the first `bins` bins, of the
      deviations of the counted bins; `cur`, `prev` and `prev2` are frames
      n, n-1 and n-2. Every term is a norm, so no sum is negative. */
  function BinSum(ops: Polar, cur: seq<Complex>, prev: seq<Complex>, prev2: seq<Complex>,
                  bins: nat, rcd: bool, wrapped: bool): (r: real)
    requires bins <= |cur| && bins <= |prev| && bins <= |prev2|
    ensures r >= 0.0
  {
    if bins == 0 then 0.0
    else
      BinSum(ops, cur, prev, prev2, bins - 1, rcd, wrapped) +
      (if Counted(ops, cur[bins - 1], prev[bins - 1], rcd)
       then Deviation(ops, cur[bins - 1], prev[bins - 1], prev2[bins - 1], wrapped) else 0.0)
  }

  ghost predicate RowsAtLeast(frames: seq<seq<Complex>>, bins: nat)
  {
    forall n :: 0 <= n < |frames| ==> |frames[n]| >= bins
  }

  /** The novelty function: element `n - 2` is the BinSum of frames n, n-1, n-2,
      for every frame `n` from 2 on. */
  function Novelty(ops: Polar, frames: seq<seq<Complex>>, bins: nat, rcd: bool, wrapped: bool): (r: seq<real>)
    requires RowsAtLeast(frames, bins)
    ensures |r| == Max(0, |frames| - 2)
    ensures forall i :: 0 <= i < |r| ==> r[i] >= 0.0
  {
    if |frames| < 3 then []
    else
      seq(|frames| - 2, i requires 0 <= i < |frames| - 2 =>
        BinSum(ops, frames[i + 2], frames[i + 1], frames[i], bins, rcd, wrapped))
  }

  /** One more frame adds one more novelty value, computed from the last
      three frames; the earlier values stay as they were. */
  lemma NoveltyExtend(ops: Polar, frames: seq<seq<Complex>>, x: seq<Complex>, bins: nat, rcd: bool, wrapped: bool)
    requires RowsAtLeast(frames, bins) && |x| >= bins && |frames| >= 2
    ensures RowsAtLeast(frames + [x], bins)
    ensures Novelty(ops, frames + [x], bins, rcd, wrapped) ==
      Novelty(ops, frames, bins, rcd, wrapped) + [BinSum(ops, x, frames[|frames| - 1], frames[|frames| - 2], bins, rcd, wrapped)]
  {
    var f := frames + [x];
    assert RowsAtLeast(f, bins) by {
      forall n | 0 <= n < |f| ensures |f[n]| >= bins {
        if n < |frames| {
          assert f[n] == frames[n];
        }
      }
    }
  }

  lemma {:induction false} BinSumBounds(ops: Polar, cur: seq<Complex>, prev: seq<Complex>, prev2: seq<Complex>,
                                        bins: nat, wrapped: bool)
    requires bins <= |cur| && bins <= |prev| && bins <= |prev2|
    ensures BinSum(ops, cur, prev, prev2, bins, true, wrapped) <= BinSum(ops, cur, prev, prev2, bins, false, wrapped)
  {
    if bins > 0 {
      BinSumBounds(ops, cur, prev, prev2, bins - 1, wrapped);
    }
  }

  /** RCD drops terms that CD keeps, and every term is a norm: frame by frame,
      0 <= RCD <= CD, and the two have the same length. */
  lemma RcdBelowCd(ops: Polar, frames: seq<seq<Complex>>, bins: nat, wrapped: bool)
    requires RowsAtLeast(frames, bins)
    ensures |Novelty(ops, frames, bins, true, wrapped)| == |Novelty(ops, frames, bins, false, wrapped)|
    ensures forall i :: 0 <= i < |Novelty(ops, frames, bins, true, wrapped)| ==>
      0.0 <= Novelty(ops, frames, bins, true, wrapped)[i] <= Novelty(ops, frames, bins, false, wrapped)[i]
  {
    forall i | 0 <= i < |Novelty(ops, frames, bins, true, wrapped)|
      ensures 0.0 <= Novelty(ops, frames, bins, true, wrapped)[i] <= Novelty(ops, frames, bins, false, wrapped)[i]
    {
      BinSumBounds(ops, frames[i + 2], frames[i + 1], frames[i], bins, wrapped);
    }
  }

  /** Novelty at frame `i + 2` reads frames `i`, `i + 1` and `i + 2` only. */
  lemma NoveltyIsLocal(ops: Polar, frames: seq<seq<Complex>>, other: seq<seq<Complex>>,
                       bins: nat, rcd: bool, wrapped: bool, i: nat)
    requires RowsAtLeast(frames, bins) && RowsAtLeast(other, bins)
    requires |frames| == |other| && i + 2 < |frames|
    requires frames[i..i + 3] == other[i..i + 3]
    ensures Novelty(ops, frames, bins, rcd, wrapped)[i] == Novelty(ops, other, bins, rcd, wrapped)[i]
  {
    assert frames[i] == frames[i..i + 3][0] == other[i];
    assert frames[i + 1] == frames[i..i + 3][1] == other[i + 1];
    assert frames[i + 2] == frames[i..i + 3][2] == other[i + 2];
  }

  /** `from_polar` gives the same value for angles a whole number of turns apart. */
  ghost predicate TurnPeriodic(ops: Polar)
  {
    forall r: real, t: real, u: real {:trigger ops.fromPolar(r, t), ops.fromPolar(r, u)} ::
      ((u - t) / (2.0 * Pi)).Floor as real == (u - t) / (2.0 * Pi) ==> ops.fromPolar(r, t) == ops.fromPolar(r, u)
  }

  /** Wrapping the phase step moves the predicted angle by whole turns, so a
      turn-periodic `from_polar` predicts the same bin either way. */
  lemma PredictWrapIrrelevant(ops: Polar, x1: Complex, x2: Complex)
    requires TurnPeriodic(ops)
    ensures Predict(ops, x1, x2, true) == Predict(ops, x1, x2, false)
  {
    // both predictions equal the extrapolated bin that `Predict` ensures
  }

  /** Advancing an angle by the wrapped step instead of the raw one moves it
      by a whole number of turns. */
  lemma WrappedAngleWholeTurns(a: real, diff: real)
    ensures var t, u := a + diff, a + WrapPhase(diff);
      ((u - t) / (2.0 * Pi)).Floor as real == (u - t) / (2.0 * Pi)
  {
    var t, u, w := a + diff, a + WrapPhase(diff), WrapPhase(diff);
    WrapPhaseWholeTurns(diff);
    var turns := Trunc((diff + Pi) / (2.0 * Pi));
    assert u - t == w - diff;
    NegatedQuotient(diff - w, 2.0 * Pi);
    assert (w - diff) / (2.0 * Pi) == (-turns) as real;
  }

  lemma NegatedQuotient(x: real, y: real)
    requires y != 0.0
    ensures -x / y == -(x / y)
  {
  }

  lemma {:induction false} BinSumWrapIrrelevant(ops: Polar, cur: seq<Complex>, prev: seq<Complex>, prev2: seq<Complex>,
                                                bins: nat, rcd: bool)
    requires TurnPeriodic(ops)
    requires bins <= |cur| && bins <= |prev| && bins <= |prev2|
    ensures BinSum(ops, cur, prev, prev2, bins, rcd, true) == BinSum(ops, cur, prev, prev2, bins, rcd, false)
  {
    if bins > 0 {
      BinSumWrapIrrelevant(ops, cur, prev, prev2, bins - 1, rcd);
      PredictWrapIrrelevant(ops, prev[bins - 1], prev2[bins - 1]);
    }
  }

  /** For a `from_polar` that is periodic in whole turns, the phase
      normalisation of onset_detection.rs changes nothing: its CD and RCD equal
      the unnormalised sums that stft.rs computes. */
  lemma WrapIrrelevant(ops: Polar, frames: seq<seq<Complex>>, bins: nat, rcd: bool)
    requires TurnPeriodic(ops)
    requires RowsAtLeast(frames, bins)
    ensures Novelty(ops, frames, bins, rcd, true) == Novelty(ops, frames, bins, rcd, false)
  {
    forall i | 0 <= i < |frames| - 2
      ensures Novelty(ops, frames, bins, rcd, true)[i] == Novelty(ops, frames, bins, rcd, false)[i]
    {
      BinSumWrapIrrelevant(ops, frames[i + 2], frames[i + 1], frames[i], bins, rcd);
    }
  }
}
