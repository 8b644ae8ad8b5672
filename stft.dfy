/** The stand-alone STFT of src/stft.rs: framing by an explicit frame bound
    `ceil(len / hop)` with an early `break`, and `compute_cd`, the Complex
    Domain novelty without phase normalisation. */
module Stft {
  import opened Common
  import opened Spectral
  import OnsetDetection

  /** With non-empty frames, no full frame starts beyond the rounded-up bound
      `ceil(len / hop)` that the loop of `stft` runs to. */
  lemma FrameCountWithinBound(len: nat, size: nat, hop: nat)
    requires size > 0 && hop > 0
    ensures FrameCount(len, size, hop) <= CeilDiv(len, hop)
  {
    var n := FrameCount(len, size, hop);
    if n > 0 {
      FrameCountIff(len, size, hop, n - 1);
      CeilDivIff(n - 1, len, hop);
    }
  }

  /** `stft`: frame `i` starts at `i * hop_size`; the loop stops at the first
      frame that would run past the signal. For a positive frame size the
      frames are exactly the full frames, the same as `windows().step_by()`
      produces; a frame size of 0 gives `ceil(len / hop)` empty frames. */
  method Stft(input: seq<real>, frameSize: nat, hopSize: nat, coeff: WindowCoeff, fft: Transform)
    returns (result: seq<seq<Complex>>)
    requires hopSize > 0
    ensures frameSize > 0 ==> result == Frames(input, HammingWindow(frameSize, coeff), hopSize, fft)
    ensures frameSize == 0 ==>
      |result| == CeilDiv(|input|, hopSize) && forall k :: 0 <= k < |result| ==> result[k] == []
  {
    var hw := HammingWindow(frameSize, coeff);
    var numFrames := CeilDiv(|input|, hopSize);
    ghost var spec := Frames(input, hw, hopSize, fft);
    result := [];
    var i := 0;
    while i < numFrames
      invariant 0 <= i <= numFrames
      invariant |result| == i
      invariant frameSize > 0 ==> i <= |spec| && forall k :: 0 <= k < i ==> result[k] == spec[k]
      invariant frameSize == 0 ==> forall k :: 0 <= k < i ==> result[k] == []
    {
      var start := i * hopSize;
      CeilDivIff(i, |input|, hopSize);
      var end: nat := if start + frameSize < |input| then start + frameSize else |input|;
      if end - start < frameSize {
        FrameCountIff(|input|, frameSize, hopSize, i);
        break;
      }
      var frame := Windowed(input[start..end], hw);
      frame := Apply(fft, frame);
      if frameSize > 0 {
        FrameCountIff(|input|, frameSize, hopSize, i);
        FramesAt(input, hw, hopSize, fft, i);
      }
      result := result + [frame];
      i := i + 1;
    }
    if frameSize > 0 {
      FrameCountWithinBound(|input|, frameSize, hopSize);
    }
  }

  /** The two framing loops of the repository agree: `windows().step_by()` in
      onset_detection.rs and the bounded loop with `break` here yield the same
      frames for every signal, frame size and hop. */
  method FramingsAgree(samples: seq<real>, frameSize: nat, hopSize: nat, coeff: WindowCoeff, fft: Transform)
    returns (viaWindows: seq<seq<Complex>>, viaBound: seq<seq<Complex>>)
    requires frameSize > 0 && hopSize > 0
    ensures viaWindows == viaBound
    ensures |viaBound| == FrameCount(|samples|, frameSize, hopSize)
  {
    viaWindows := OnsetDetection.Stft(OnsetDetection.StftBasedOnset(samples, frameSize, hopSize), coeff, fft);
    viaBound := Stft(samples, frameSize, hopSize, coeff, fft);
  }

  /** The repository's framing test: 8 samples, frames of 4, hop 2 give three
      frames of four bins. */
  lemma ExampleFraming(coeff: WindowCoeff, fft: Transform)
    ensures var frames := Frames([1.0, 2.0, 3.0, 4.0, 5.0, 6.0, 7.0, 8.0], HammingWindow(4, coeff), 2, fft);
      |frames| == 3 && forall k :: 0 <= k < 3 ==> |frames[k]| == 4
  {
    DivUnique(4, 2, 2, 0);
  }

  /** The inner loop of `compute_cd`: like onset_detection.rs but with the raw
      phase step and every bin counted. */
  method FrameDeviation(ops: Polar, cur: seq<Complex>, prev: seq<Complex>, prev2: seq<Complex>, numBins: nat)
    returns (sum: real)
    requires numBins <= |cur| && numBins <= |prev| && numBins <= |prev2|
    ensures sum == BinSum(ops, cur, prev, prev2, numBins, false, false)
  {
    sum := 0.0;
    for k := 0 to numBins
      invariant sum == BinSum(ops, cur, prev, prev2, k, false, false)
    {
      var xn1 := prev[k];
      var xn2 := prev2[k];
      var amp := ops.norm(xn1);
      var phase := ops.arg(xn1);
      var phaseDiff := ops.arg(xn1) - ops.arg(xn2);
      var target := ops.fromPolar(amp, phase + phaseDiff);
      sum := sum + ops.norm(Minus(cur[k], target));
    }
  }

  /** `compute_cd`: `None` on an empty STFT (the source indexes `stft[0]`) and
      when, with three frames or more, some frame has fewer bins than the
      first (an index out of bounds); otherwise the unnormalised CD, with the
      bin count taken from the first frame. */
  method ComputeCd(ops: Polar, stft: seq<seq<Complex>>) returns (cd: Option<seq<real>>)
    ensures |stft| == 0 ==> cd == None
    ensures 1 <= |stft| < 3 ==> cd == Some([])
    ensures |stft| >= 3 ==> (cd == None <==> !RowsAtLeast(stft, |stft[0]|))
    ensures |stft| >= 3 && RowsAtLeast(stft, |stft[0]|) ==> cd == Some(Novelty(ops, stft, |stft[0]|, false, false))
  {
    var numFrames := |stft|;
    if numFrames == 0 {
      return None;
    }
    var numBins := |stft[0]|;
    var out: seq<real> := [];
    if numFrames < 3 {
      return Some(out);
    }
    if |stft[1]| < numBins {
      assert !RowsAtLeast(stft, numBins) by {
        assert |stft[1]| < numBins;
      }
      return None;
    }
    assert RowsAtLeast(stft[..2], numBins);
    for n := 2 to numFrames
      invariant RowsAtLeast(stft[..n], numBins)
      invariant out == Novelty(ops, stft[..n], numBins, false, false)
    {
      if |stft[n]| < numBins {
        assert !RowsAtLeast(stft, numBins) by {
          assert |stft[n]| < numBins;
        }
        return None;
      }
      ghost var seen := stft[..n];
      assert seen[n - 1] == stft[n - 1] && seen[n - 2] == stft[n - 2];
      var sum := FrameDeviation(ops, stft[n], stft[n - 1], stft[n - 2], numBins);
      NoveltyExtend(ops, seen, stft[n], numBins, false, false);
      assert seen + [stft[n]] == stft[..n + 1];
      out := out + [sum];
    }
    assert stft[..numFrames] == stft;
    cd := Some(out);
  }
}
