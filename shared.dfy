/** The helpers of src/algorithms/shared.rs: in-place standardization of a
    buffer to zero mean and unit variance, and the conversions of a frame
    index to seconds and to the index of another framing.

    `f32::sqrt` is a parameter `sqrt`; the model asks of it only that, at the
    variance it is applied to, it returns a positive root. */
module Shared {
  import opened Common

  /** `usize::MAX` on a 64-bit target. */
  const UsizeMax: nat := 0xFFFF_FFFF_FFFF_FFFF

  /** `powi(2)`. */
  function Square(x: real): (r: real)
    ensures r >= 0.0
  {
    x * x
  }

  /** The squared distance of every element from the mean. */
  function SquaredDeviations(s: seq<real>): (d: seq<real>)
    requires |s| > 0
    ensures |d| == |s|
  {
    seq(|s|, i requires 0 <= i < |s| => Square(s[i] - Mean(s)))
  }

  /** The population variance: the mean squared deviation, divided by `n`. */
  function Variance(s: seq<real>): real
    requires |s| > 0
  {
    Mean(SquaredDeviations(s))
  }

  /** `r` is the positive square root of a positive `v`. */
  predicate IsRootOf(r: real, v: real)
  {
    v > 0.0 && r > 0.0 && r * r == v
  }

  /** What the source asks of a buffer it standardizes: empty, or with a
      positive variance whose root `sqrt` computes. A constant buffer has
      variance 0 and would be divided by 0. */
  predicate Standardizable(s: seq<real>, sqrt: real -> real)
  {
    |s| > 0 ==> IsRootOf(sqrt(Variance(s)), Variance(s))
  }

  /** Every element moved by the mean and divided by `sd`. */
  function Standardized(s: seq<real>, sd: real): (r: seq<real>)
    requires sd != 0.0
    ensures |r| == |s|
  {
    if |s| == 0 then [] else seq(|s|, i requires 0 <= i < |s| => (s[i] - Mean(s)) / sd)
  }

  /** The buffer the source leaves behind: standardized by the root of its
      variance, or unchanged when it is empty. */
  function StandardizedBuffer(s: seq<real>, sqrt: real -> real): (r: seq<real>)
    requires Standardizable(s, sqrt)
    ensures |r| == |s|
  {
    if |s| == 0 then s else Standardized(s, sqrt(Variance(s)))
  }

  lemma {:induction false} SumScaled(s: seq<real>, t: seq<real>, c: real)
    requires |s| == |t|
    requires forall i :: 0 <= i < |s| ==> t[i] * c == s[i]
    ensures Sum(t) * c == Sum(s)
  {
    if |s| > 0 {
      SumScaled(s[..|s| - 1], t[..|t| - 1], c);
      assert Sum(t) * c == Sum(t[..|t| - 1]) * c + t[|t| - 1] * c;
    }
  }

  /** Standardizing is undone by scaling back and adding the mean: element
      `i` times `sd` is its distance from the old mean. */
  lemma StandardizedInverse(s: seq<real>, sd: real, i: nat)
    requires sd != 0.0 && i < |s|
    ensures Standardized(s, sd)[i] * sd == s[i] - Mean(s)
    ensures s[i] == Standardized(s, sd)[i] * sd + Mean(s)
  {
  }

  /** The distances from the mean. */
  function Centered(s: seq<real>): (c: seq<real>)
    requires |s| > 0
    ensures |c| == |s|
  {
    seq(|s|, i requires 0 <= i < |s| => s[i] - Mean(s))
  }

  /** Distances from the mean cancel out. */
  lemma CenteredSumZero(s: seq<real>)
    requires |s| > 0
    ensures Sum(Centered(s)) == 0.0
  {
    SumAffine(s, Centered(s), 1.0, -Mean(s));
  }

  /** The standardized elements sum to zero. */
  lemma StandardizedSumZero(s: seq<real>, sd: real)
    requires sd != 0.0
    ensures Sum(Standardized(s, sd)) == 0.0
  {
    if |s| > 0 {
      var r, c := Standardized(s, sd), Centered(s);
      forall i | 0 <= i < |s| ensures r[i] * sd == c[i] {
        StandardizedInverse(s, sd, i);
      }
      SumScaled(c, r, sd);
      CenteredSumZero(s);
    }
  }

  /** ... so their mean is zero. */
  lemma StandardizedMeanZero(s: seq<real>, sd: real)
    requires sd != 0.0 && |s| > 0
    ensures Mean(Standardized(s, sd)) == 0.0
  {
    StandardizedSumZero(s, sd);
  }

  /** Dividing by a positive deviation keeps the order of the elements,
      strict and non-strict. */
  lemma StandardizedOrder(s: seq<real>, sd: real, i: nat, j: nat)
    requires sd > 0.0 && i < |s| && j < |s|
    ensures s[i] < s[j] <==> Standardized(s, sd)[i] < Standardized(s, sd)[j]
    ensures s[i] == s[j] <==> Standardized(s, sd)[i] == Standardized(s, sd)[j]
  {
    var r := Standardized(s, sd);
    StandardizedInverse(s, sd, i);
    StandardizedInverse(s, sd, j);
    if s[i] < s[j] {
      assert r[i] * sd < r[j] * sd;
    } else {
      assert r[i] * sd >= r[j] * sd;
    }
  }

  lemma SquareScaled(x: real, sd: real, d: real)
    requires x * sd == d
    ensures Square(x) * (sd * sd) == Square(d)
  {
    calc {
      Square(x) * (sd * sd);
      (x * sd) * (x * sd);
      d * d;
    }
  }

  /** Each squared deviation of the result, scaled back by the variance, is
      the squared deviation of the input. */
  lemma StandardizedDeviation(s: seq<real>, sd: real, i: nat)
    requires sd != 0.0 && i < |s|
    ensures SquaredDeviations(Standardized(s, sd))[i] * (sd * sd) == SquaredDeviations(s)[i]
  {
    var r := Standardized(s, sd);
    StandardizedMeanZero(s, sd);
    StandardizedInverse(s, sd, i);
    assert SquaredDeviations(r)[i] == Square(r[i]);
    SquareScaled(r[i], sd, s[i] - Mean(s));
  }

  /** The closing arithmetic: sums related by the factor `sd * sd`, and the
      input's mean square equal to that factor, leave a mean square of 1. */
  lemma UnitRatio(sumR: real, sumS: real, n: real, v: real)
    requires n > 0.0 && v > 0.0
    requires sumR * v == sumS && sumS / n == v
    ensures sumR / n == 1.0
  {
    assert sumR * v == n * v;
  }

  /** Standardizing by the root of the variance gives variance 1. */
  lemma StandardizedUnitVariance(s: seq<real>, sd: real)
    requires |s| > 0 && IsRootOf(sd, Variance(s))
    ensures Variance(Standardized(s, sd)) == 1.0
  {
    var r, v := Standardized(s, sd), sd * sd;
    var dr, ds := SquaredDeviations(r), SquaredDeviations(s);
    SquaredDeviationsScaled(s, sd);
    assert Variance(s) == Sum(ds) / |s| as real == v;
    assert Variance(r) == Sum(dr) / |s| as real;
    UnitRatio(Sum(dr), Sum(ds), |s| as real, v);
  }

  /** Standardizing divides every squared deviation, and so their sum, by
      `sd * sd`. */
  lemma SquaredDeviationsScaled(s: seq<real>, sd: real)
    requires |s| > 0 && sd != 0.0
    ensures Sum(SquaredDeviations(Standardized(s, sd))) * (sd * sd) == Sum(SquaredDeviations(s))
  {
    var v := sd * sd;
    var dr, ds := SquaredDeviations(Standardized(s, sd)), SquaredDeviations(s);
    forall i | 0 <= i < |s| ensures dr[i] * v == ds[i] {
      StandardizedDeviation(s, sd, i);
    }
    SumScaled(ds, dr, v);
  }

  /** The source's standardization, as its result: mean 0, variance 1 and
      the order of the input, for every buffer it accepts. */
  lemma StandardizedBufferSpec(s: seq<real>, sqrt: real -> real)
    requires Standardizable(s, sqrt)
    ensures Sum(StandardizedBuffer(s, sqrt)) == 0.0
    ensures |s| > 0 ==> Mean(StandardizedBuffer(s, sqrt)) == 0.0
    ensures |s| > 0 ==> Variance(StandardizedBuffer(s, sqrt)) == 1.0
    ensures forall i, j :: 0 <= i < |s| && 0 <= j < |s| ==>
      (s[i] < s[j] <==> StandardizedBuffer(s, sqrt)[i] < StandardizedBuffer(s, sqrt)[j])
  {
    if |s| > 0 {
      var sd := sqrt(Variance(s));
      StandardizedSumZero(s, sd);
      StandardizedMeanZero(s, sd);
      StandardizedUnitVariance(s, sd);
      forall i, j | 0 <= i < |s| && 0 <= j < |s|
        ensures s[i] < s[j] <==> StandardizedBuffer(s, sqrt)[i] < StandardizedBuffer(s, sqrt)[j]
      {
        StandardizedOrder(s, sd, i, j);
      }
    }
  }

  /** `data.iter().sum()`. */
  method SumOf(data: array<real>) returns (total: real)
    ensures total == Sum(data[..])
  {
    total := 0.0;
    for i := 0 to data.Length
      invariant total == Sum(data[..i])
    {
      assert data[..i + 1] == data[..i] + [data[i]];
      SumSnoc(data[..i], data[i]);
      total := total + data[i];
    }
    assert data[..data.Length] == data[..];
  }

  /** `data.iter().map(|&x| (x - mean).powi(2)).sum()`. */
  method SumOfSquaredDeviations(data: array<real>, mean: real) returns (total: real)
    requires data.Length > 0 && mean == Mean(data[..])
    ensures total == Sum(SquaredDeviations(data[..]))
  {
    ghost var d := SquaredDeviations(data[..]);
    total := 0.0;
    for i := 0 to data.Length
      invariant total == Sum(d[..i])
    {
      assert d[..i + 1] == d[..i] + [d[i]];
      SumSnoc(d[..i], d[i]);
      total := total + Square(data[i] - mean);
    }
    assert d[..data.Length] == d;
  }

  /** `standardize`: the mean, the variance and its root are computed once,
      then every element is overwritten with its distance from the mean
      divided by the root. On an empty buffer the loop does nothing. */
  method Standardize(data: array<real>, sqrt: real -> real)
    requires Standardizable(data[..], sqrt)
    modifies data
    ensures data[..] == StandardizedBuffer(old(data[..]), sqrt)
  {
    if data.Length == 0 {
      return;
    }
    ghost var s := data[..];
    var n := data.Length as real;
    var total := SumOf(data);
    var mean := total / n;
    var squares := SumOfSquaredDeviations(data, mean);
    var variance := squares / n;
    var stdDev := sqrt(variance);
    for i := 0 to data.Length
      invariant forall j :: 0 <= j < i ==> data[j] == Standardized(s, stdDev)[j]
      invariant forall j :: i <= j < data.Length ==> data[j] == s[j]
    {
      data[i] := (data[i] - mean) / stdDev;
    }
  }

  /** `frame_to_seconds(duration, frames, frame)`: the frame's share of the
      duration, `(duration / frames) * frame`; `None` for zero frames, where
      the quotient is not finite. */
  function FrameToSeconds(duration: real, frames: nat, frame: nat): (r: Option<real>)
    ensures r.Some? <==> frames > 0
    ensures r.Some? ==> r.value * frames as real == duration * frame as real
  {
    if frames == 0 then None else Some((duration / frames as real) * frame as real)
  }

  /** Frame 0 is at time 0, the last frame boundary at the full duration, and
      the time is linear in the frame index. */
  lemma FrameToSecondsLinear(duration: real, frames: nat, f: nat, g: nat)
    requires frames > 0
    ensures FrameToSeconds(duration, frames, 0) == Some(0.0)
    ensures FrameToSeconds(duration, frames, frames) == Some(duration)
    ensures FrameToSeconds(duration, frames, f + g).value ==
      FrameToSeconds(duration, frames, f).value + FrameToSeconds(duration, frames, g).value
  {
    var step := duration / frames as real;
    assert step * (f + g) as real == step * f as real + step * g as real;
  }

  /** `frame_to_frames(frames_a, frames_b, frame)`: `frames_b * frame /
      frames_a` in `usize`, the rounded-down rescaling of a frame index of
      framing A to framing B. It fails exactly where the source panics, on a
      zero divisor or when the product overflows; otherwise `r` is the
      largest index with `r * frames_a <= frames_b * frame`. */
  function FrameToFrames(framesA: nat, framesB: nat, frame: nat): (r: Option<nat>)
    ensures r.Some? <==> framesA > 0 && framesB * frame <= UsizeMax
    ensures r.Some? ==> r.value * framesA <= framesB * frame < (r.value + 1) * framesA
  {
    if framesA == 0 || framesB * frame > UsizeMax then None
    else
      var q := framesB * frame / framesA;
      assert framesB * frame == q * framesA + (framesB * frame) % framesA;
      Some(q)
  }

  /** The first frame maps to the first, the end of framing A to the end of
      framing B, and every frame inside framing A into framing B. */
  lemma FrameToFramesBounds(framesA: nat, framesB: nat, frame: nat)
    requires framesA > 0 && framesB * framesA <= UsizeMax
    ensures FrameToFrames(framesA, framesB, 0) == Some(0)
    ensures FrameToFrames(framesA, framesB, framesA) == Some(framesB)
    ensures frame < framesA && framesB > 0 ==> FrameToFrames(framesA, framesB, frame).value < framesB
  {
    DivUnique(0, framesA, 0, 0);
    DivUnique(framesB * framesA, framesA, framesB, 0);
    if frame < framesA && framesB > 0 {
      MulMono(frame, framesA, framesB);
      assert framesB * frame <= framesB * framesA;
      var r := FrameToFrames(framesA, framesB, frame).value;
      if r >= framesB {
        MulMono(framesB, r, framesA);
        MulStep(frame, framesA, framesB);
        assert false;
      }
    }
  }

  /** A later frame never maps to an earlier one. */
  lemma FrameToFramesMonotone(framesA: nat, framesB: nat, f: nat, g: nat)
    requires framesA > 0 && f <= g && framesB * g <= UsizeMax
    ensures FrameToFrames(framesA, framesB, f).Some?
    ensures FrameToFrames(framesA, framesB, f).value <= FrameToFrames(framesA, framesB, g).value
  {
    MulMono(f, g, framesB);
    var p, q := framesB * f, framesB * g;
    var rf, rg := p / framesA, q / framesA;
    if rf > rg {
      MulStep(rg, rf, framesA);
      assert false;
    }
  }
}
