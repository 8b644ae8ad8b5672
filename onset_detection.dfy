/** The STFT-based onset detector of src/algorithms/onset_detection.rs:
    framing by `windows(frame_size).step_by(hop_size)`, and the Complex Domain
    (CD) and Rectified Complex Domain (RCD) novelty functions over the frames. */
module OnsetDetection {
  import opened Common
  import opened Spectral

  /** `StftBasedOnset`: the borrowed samples and the framing parameters. */
  datatype StftBasedOnset = StftBasedOnset(samples: seq<real>, frameSize: nat, hopSize: nat)

  /** `slice::windows(size)`: every run of `size` consecutive samples, by start index. */
  function Windows(s: seq<real>, size: nat): seq<seq<real>>
    requires size > 0
  {
    if |s| < size then []
    else seq(|s| - size + 1, i requires 0 <= i < |s| - size + 1 => s[i..i + size])
  }

  /** `Iterator::step_by(step)`: the first element, then every `step`-th one after it. */
  function StepBy<T>(xs: seq<T>, step: nat): seq<T>
    requires step > 0
    decreases |xs|
  {
    if |xs| == 0 then [] else [xs[0]] + StepBy(xs[if step < |xs| then step else |xs|..], step)
  }

  /** `step_by` yields one element per started run of `step`. */
  lemma {:induction false} StepByLength<T>(xs: seq<T>, step: nat)
    requires step > 0
    ensures |StepBy(xs, step)| == CeilDiv(|xs|, step)
    decreases |xs|
  {
    if |xs| == 0 {
      DivUnique(step - 1, step, 0, step - 1);
    } else if |xs| <= step {
      assert xs[|xs|..] == [];
      DivUnique(|xs| + step - 1, step, 1, |xs| - 1);
    } else {
      StepByLength(xs[step..], step);
      DivAddOne(|xs| - 1, step);
    }
  }

  /** Element `k` of `step_by` is the element at `k * step`. */
  lemma {:induction false} StepByIndex<T>(xs: seq<T>, step: nat, k: nat)
    requires step > 0 && k < |StepBy(xs, step)|
    ensures k * step < |xs| && StepBy(xs, step)[k] == xs[k * step]
    decreases |xs|
  {
    var rest := xs[if step < |xs| then step else |xs|..];
    assert StepBy(xs, step) == [xs[0]] + StepBy(rest, step);
    if k > 0 {
      StepByIndex(rest, step, k - 1);
      MulPred(k, step);
    }
  }

  /** `step_by` keeps the elements at the multiples of `step`, and only those. */
  lemma StepByAt<T>(xs: seq<T>, step: nat)
    requires step > 0
    ensures |StepBy(xs, step)| == CeilDiv(|xs|, step)
    ensures forall k :: 0 <= k < |StepBy(xs, step)| ==> k * step < |xs| && StepBy(xs, step)[k] == xs[k * step]
  {
    StepByLength(xs, step);
    forall k | 0 <= k < |StepBy(xs, step)|
      ensures k * step < |xs| && StepBy(xs, step)[k] == xs[k * step]
    {
      StepByIndex(xs, step, k);
    }
  }

  lemma MulPred(k: nat, step: nat)
    requires k > 0
    ensures (k - 1) * step + step == k * step
  {
  }

  /** `windows(size).step_by(hop)` yields exactly the full frames: frame `k`
      starts at `k * hop`, and there are FrameCount of them. */
  lemma WindowsStepBy(s: seq<real>, size: nat, hop: nat)
    requires size > 0 && hop > 0
    ensures |StepBy(Windows(s, size), hop)| == FrameCount(|s|, size, hop)
    ensures forall k :: 0 <= k < |StepBy(Windows(s, size), hop)| ==>
      k * hop + size <= |s| && StepBy(Windows(s, size), hop)[k] == s[k * hop..k * hop + size]
  {
    var w := Windows(s, size);
    StepByAt(w, hop);
    if |s| >= size {
      DivAddOne(|s| - size, hop);
      assert CeilDiv(|w|, hop) == (|s| - size + hop) / hop;
    }
  }

  /** `StftBasedOnset::stft`: one spectrum per frame that
      `windows(frame_size).step_by(hop_size)` yields. The result equals the
      framing spec `Frames`, which stft.rs's loop is proved to meet as well. */
  method Stft(det: StftBasedOnset, coeff: WindowCoeff, fft: Transform) returns (stft: seq<seq<Complex>>)
    requires det.frameSize > 0 && det.hopSize > 0
    ensures stft == Frames(det.samples, HammingWindow(det.frameSize, coeff), det.hopSize, fft)
  {
    var hw := HammingWindow(det.frameSize, coeff);
    var frames := StepBy(Windows(det.samples, det.frameSize), det.hopSize);
    WindowsStepBy(det.samples, det.frameSize, det.hopSize);
    ghost var spec := Frames(det.samples, hw, det.hopSize, fft);
    stft := [];
    for i := 0 to |frames|
      invariant |stft| == i
      invariant forall k :: 0 <= k < i ==> stft[k] == spec[k]
    {
      var frame := frames[i];
      var f := Windowed(frame, hw);
      f := Apply(fft, f);
      FramesAt(det.samples, hw, det.hopSize, fft, i);
      stft := stft + [f];
    }
  }

  /** `cd_inner`: with fewer than two frames the source fails (`stft[0]` on no
      frames, `num_frames - 2` underflowing on one); with two it returns an
      empty vector; otherwise one sum per frame from the third on. */
  method CdInner(det: StftBasedOnset, ops: Polar, coeff: WindowCoeff, fft: Transform, rcd: bool)
    returns (cd: Option<seq<real>>)
    requires det.frameSize > 0 && det.hopSize > 0
    ensures var frames := Frames(det.samples, HammingWindow(det.frameSize, coeff), det.hopSize, fft);
      cd == if |frames| < 2 then None else Some(Novelty(ops, frames, det.frameSize, rcd, true))
  {
    var stft := Stft(det, coeff, fft);
    var numFrames := |stft|;
    if numFrames == 0 {
      return None;
    }
    var numBins := |stft[0]|;
    assert numBins == det.frameSize;
    assert forall n :: 0 <= n < numFrames ==> |stft[n]| == numBins;
    if numFrames < 2 {
      return None;
    }
    var out: seq<real> := [];
    if numFrames < 3 {
      return Some(out);
    }
    for n := 2 to numFrames
      invariant |out| == n - 2
      invariant forall i :: 0 <= i < n - 2 ==>
        out[i] == Novelty(ops, stft, numBins, rcd, true)[i]
    {
      var sum := FrameDeviation(ops, stft[n], stft[n - 1], stft[n - 2], numBins, rcd);
      out := out + [sum];
    }
    assert out == Novelty(ops, stft, det.frameSize, rcd, true);
    cd := Some(out);
  }

  /** The inner loop of `cd_inner`: the novelty of frame `n` from frames
      `n`, `n - 1` and `n - 2`, one bin after the other. */
  method FrameDeviation(ops: Polar, cur: seq<Complex>, prev: seq<Complex>, prev2: seq<Complex>,
                        numBins: nat, rcd: bool) returns (sum: real)
    requires numBins <= |cur| && numBins <= |prev| && numBins <= |prev2|
    ensures sum == BinSum(ops, cur, prev, prev2, numBins, rcd, true)
  {
    sum := 0.0;
    for k := 0 to numBins
      invariant sum == BinSum(ops, cur, prev, prev2, k, rcd, true)
    {
      var xn := cur[k];
      var xn1 := prev[k];
      var xn2 := prev2[k];
      var amp := ops.norm(xn1);
      var phase := ops.arg(xn1);
      var phaseDiff := ops.arg(xn1) - ops.arg(xn2);
      phaseDiff := WrapPhase(phaseDiff);
      var target := ops.fromPolar(amp, phase + phaseDiff);
      if ops.norm(xn) >= amp || !rcd {
        sum := sum + ops.norm(Minus(xn, target));
      }
    }
  }

  /** `cd`: the Complex Domain novelty. */
  method Cd(det: StftBasedOnset, ops: Polar, coeff: WindowCoeff, fft: Transform) returns (cd: Option<seq<real>>)
    requires det.frameSize > 0 && det.hopSize > 0
    ensures var frames := Frames(det.samples, HammingWindow(det.frameSize, coeff), det.hopSize, fft);
      cd == if |frames| < 2 then None else Some(Novelty(ops, frames, det.frameSize, false, true))
  {
    cd := CdInner(det, ops, coeff, fft, false);
  }

  /** `rcd`: the Rectified Complex Domain novelty. */
  method Rcd(det: StftBasedOnset, ops: Polar, coeff: WindowCoeff, fft: Transform) returns (rcd: Option<seq<real>>)
    requires det.frameSize > 0 && det.hopSize > 0
    ensures var frames := Frames(det.samples, HammingWindow(det.frameSize, coeff), det.hopSize, fft);
      rcd == if |frames| < 2 then None else Some(Novelty(ops, frames, det.frameSize, true, true))
  {
    rcd := CdInner(det, ops, coeff, fft, true);
  }

  /** The detector's two outputs side by side: both fail together, have the
      same length, which is the frame count less two, and RCD never exceeds CD. */
  lemma CdRcdRelation(det: StftBasedOnset, ops: Polar, coeff: WindowCoeff, fft: Transform)
    requires det.frameSize > 0 && det.hopSize > 0
    ensures var frames := Frames(det.samples, HammingWindow(det.frameSize, coeff), det.hopSize, fft);
      var cd := Novelty(ops, frames, det.frameSize, false, true);
      var rcd := Novelty(ops, frames, det.frameSize, true, true);
      |frames| >= 2 ==> |cd| == |rcd| == |frames| - 2 && forall i :: 0 <= i < |cd| ==> 0.0 <= rcd[i] <= cd[i]
  {
    var frames := Frames(det.samples, HammingWindow(det.frameSize, coeff), det.hopSize, fft);
    RcdBelowCd(ops, frames, det.frameSize, true);
  }
}
