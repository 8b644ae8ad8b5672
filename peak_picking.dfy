/** src/algorithms/peak_picking.rs: a second copy of the in-place
    standardization of src/algorithms/shared.rs, line for line. The model
    gives it its own method with the same contract and proves that the two
    leave the same buffer behind. */
module PeakPicking {
  import opened Common
  import Shared

  /** `standardize`: the mean and the root of the variance, computed once,
      then every element overwritten with `(x - mean) / std_dev`. */
  method Standardize(data: array<real>, sqrt: real -> real)
    requires Shared.Standardizable(data[..], sqrt)
    modifies data
    ensures data[..] == Shared.StandardizedBuffer(old(data[..]), sqrt)
  {
    if data.Length == 0 {
      return;
    }
    ghost var s := data[..];
    var n := data.Length as real;
    var total := Shared.SumOf(data);
    var mean := total / n;
    var squares := Shared.SumOfSquaredDeviations(data, mean);
    var variance := squares / n;
    var stdDev := sqrt(variance);
    var i := 0;
    while i < data.Length
      invariant 0 <= i <= data.Length
      invariant forall j :: 0 <= j < i ==> data[j] == Shared.Standardized(s, stdDev)[j]
      invariant forall j :: i <= j < data.Length ==> data[j] == s[j]
    {
      data[i] := (data[i] - mean) / stdDev;
      i := i + 1;
    }
  }

  /** The two copies agree: standardizing the same samples with either one
      gives the same buffer, which has mean 0, variance 1 and the order of
      the samples. */
  method CopiesAgree(samples: seq<real>, sqrt: real -> real) returns (viaShared: seq<real>, viaPeakPicking: seq<real>)
    requires Shared.Standardizable(samples, sqrt)
    ensures viaShared == viaPeakPicking
    ensures |viaShared| == |samples|
    ensures Sum(viaShared) == 0.0
    ensures |samples| > 0 ==> Shared.Variance(viaShared) == 1.0
  {
    var a := new real[|samples|](i requires 0 <= i < |samples| => samples[i]);
    var b := new real[|samples|](i requires 0 <= i < |samples| => samples[i]);
    assert a[..] == samples && b[..] == samples;
    Shared.Standardize(a, sqrt);
    Standardize(b, sqrt);
    viaShared, viaPeakPicking := a[..], b[..];
    Shared.StandardizedBufferSpec(samples, sqrt);
  }
}
