/** Vocabulary shared by every stage of the model: optional results (the model's
    stand-in for a panic or a non-finite float), absolute values and sums of reals. */
module Common {

  /** `None` marks an input on which the source panics or divides by zero. */
  datatype Option<T> = None | Some(value: T)

  /** An f32 value where a division by zero can make it non-finite. Every
      dividend in the pipeline is a count, a lag or a constant, never
      negative, and every zero is +0.0, so the only infinity is +inf. */
  datatype Float = Finite(value: real) | PosInf | NaN

  /** IEEE division of a non-negative dividend: `x / 0` is +inf, `0 / 0` is
      NaN, a finite value over +inf is 0, and NaN stays NaN. */
  function Quotient(x: real, y: Float): (q: Float)
    requires x >= 0.0
    ensures q.Finite? <==> (y.Finite? && y.value != 0.0) || y.PosInf?
    ensures y.PosInf? ==> q == Finite(0.0)
    ensures y == Finite(0.0) ==> (q.NaN? <==> x == 0.0)
  {
    match y
    case Finite(v) => if v != 0.0 then Finite(x / v) else if x == 0.0 then NaN else PosInf
    case PosInf => Finite(0.0)
    case NaN => NaN
  }

  function Abs(x: real): real
  {
    if x < 0.0 then -x else x
  }

  function Max(a: int, b: int): int
  {
    if a < b then b else a
  }

  /** The sum of `s`, accumulated from the first element to the last, as
      `iter().sum()` and the source's accumulation loops do. */
  function Sum(s: seq<real>): real
  {
    if |s| == 0 then 0.0 else Sum(s[..|s| - 1]) + s[|s| - 1]
  }

  /** Summing one more element extends the running total, which is the step
      every accumulation loop takes. */
  lemma SumSnoc(s: seq<real>, x: real)
    ensures Sum(s + [x]) == Sum(s) + x
  {
    assert (s + [x])[..|s|] == s;
  }

  /** A sequence of copies of `c` sums to its length times `c`. */
  lemma {:induction false} SumConstant(s: seq<real>, c: real)
    requires forall i :: 0 <= i < |s| ==> s[i] == c
    ensures Sum(s) == |s| as real * c
  {
    if |s| > 0 {
      SumConstant(s[..|s| - 1], c);
    }
  }

  /** Summation commutes with an affine map applied element by element. */
  lemma {:induction false} SumAffine(s: seq<real>, t: seq<real>, a: real, b: real)
    requires |s| == |t|
    requires forall i :: 0 <= i < |s| ==> t[i] == a * s[i] + b
    ensures Sum(t) == a * Sum(s) + |s| as real * b
  {
    if |s| > 0 {
      SumAffine(s[..|s| - 1], t[..|t| - 1], a, b);
    }
  }

  /** The arithmetic mean, as `sum / len` in the source. */
  function Mean(s: seq<real>): real
    requires |s| > 0
  {
    Sum(s) / |s| as real
  }

  /** Elements bounded by `x` sum to at most `|s| * x`, and to strictly less
      when one of them is strictly below `x`. */
  lemma {:induction false} SumAtMost(s: seq<real>, x: real)
    requires forall i :: 0 <= i < |s| ==> s[i] <= x
    ensures Sum(s) <= |s| as real * x
  {
    if |s| > 0 {
      SumAtMost(s[..|s| - 1], x);
    }
  }

  lemma {:induction false} SumBelow(s: seq<real>, x: real, j: nat)
    requires forall i :: 0 <= i < |s| ==> s[i] <= x
    requires j < |s| && s[j] < x
    ensures Sum(s) < |s| as real * x
  {
    var init := s[..|s| - 1];
    if j == |s| - 1 {
      SumAtMost(init, x);
    } else {
      SumBelow(init, x, j);
    }
  }

  /** Elements bounded below by `x` sum to at least `|s| * x`. */
  lemma {:induction false} SumAtLeast(s: seq<real>, x: real)
    requires forall i :: 0 <= i < |s| ==> s[i] >= x
    ensures Sum(s) >= |s| as real * x
  {
    if |s| > 0 {
      SumAtLeast(s[..|s| - 1], x);
    }
  }

  /** The mean of values bounded below by `x` is at least `x`. */
  lemma MeanAtLeast(s: seq<real>, x: real)
    requires |s| > 0
    requires forall i :: 0 <= i < |s| ==> s[i] >= x
    ensures Mean(s) >= x
  {
    SumAtLeast(s, x);
    DivAtLeast(Sum(s), |s| as real, x);
  }

  /** The mean of values bounded by `x`, one of them strictly, is below `x`. */
  lemma MeanBelow(s: seq<real>, x: real, j: nat)
    requires forall i :: 0 <= i < |s| ==> s[i] <= x
    requires j < |s| && s[j] < x
    ensures Mean(s) < x
  {
    SumBelow(s, x, j);
    var n := |s| as real;
    if Sum(s) / n >= x {
      DivAtLeastConverse(Sum(s), n, x);
    }
  }

  /** The mean of copies of `c` is `c`. */
  lemma MeanConstant(s: seq<real>, c: real)
    requires |s| > 0
    requires forall i :: 0 <= i < |s| ==> s[i] == c
    ensures Mean(s) == c
  {
    SumConstant(s, c);
  }

  /** The mean commutes with an affine map applied element by element. */
  lemma MeanAffine(s: seq<real>, t: seq<real>, a: real, b: real)
    requires |s| == |t| && |s| > 0
    requires forall i :: 0 <= i < |s| ==> t[i] == a * s[i] + b
    ensures Mean(t) == a * Mean(s) + b
  {
    SumAffine(s, t, a, b);
    var n := |s| as real;
    assert (a * Sum(s) + n * b) / n == a * (Sum(s) / n) + b;
  }

  lemma DivAtLeast(sum: real, n: real, x: real)
    requires n > 0.0 && sum >= n * x
    ensures sum / n >= x
  {
  }

  lemma DivAtLeastConverse(sum: real, n: real, x: real)
    requires n > 0.0 && sum / n >= x
    ensures sum >= n * x
  {
    assert sum == (sum / n) * n;
  }

  /** Integer division is determined by quotient and remainder. */
  lemma DivUnique(a: int, b: int, q: int, r: int)
    requires b > 0 && 0 <= r < b && a == q * b + r
    ensures a / b == q && a % b == r
  {
    var q', r' := a / b, a % b;
    assert a == q' * b + r' && 0 <= r' < b;
    if q' < q {
      MulStep(q', q, b);
    } else if q < q' {
      MulStep(q, q', b);
    }
  }

  lemma MulStep(x: int, y: int, b: int)
    requires x < y && b > 0
    ensures x * b + b <= y * b
  {
    var d := y - x;
    MulAtLeast(d, b);
    assert y * b == (x + d) * b == x * b + d * b;
  }

  lemma {:induction false} MulAtLeast(d: int, b: int)
    requires d >= 1 && b >= 0
    ensures d * b >= b
  {
    if d > 1 {
      MulAtLeast(d - 1, b);
      assert d * b == (d - 1) * b + b;
    }
  }

  lemma MulMono(a: int, b: int, c: int)
    requires 0 <= a <= b && 0 <= c
    ensures a * c <= b * c
  {
  }

  /** `a / b` rounded up, for a positive divisor. */
  function CeilDiv(a: nat, b: nat): nat
    requires b > 0
  {
    (a + b - 1) / b
  }

  /** A multiple of `b` fits under `m` exactly when the multiplier fits under `m / b`. */
  lemma DivLeIff(i: nat, m: nat, b: nat)
    requires b > 0
    ensures i <= m / b <==> i * b <= m
  {
    var q, r := m / b, m % b;
    assert m == q * b + r && 0 <= r < b;
    if i <= q {
      MulMono(i, q, b);
    } else {
      MulStep(q, i, b);
    }
  }

  /** `i` is below the rounded-up quotient exactly when `i * b` is below `a`. */
  lemma CeilDivIff(i: nat, a: nat, b: nat)
    requires b > 0
    ensures i < CeilDiv(a, b) <==> i * b < a
  {
    if a == 0 {
      DivUnique(b - 1, b, 0, b - 1);
    } else {
      DivUnique(a + b - 1, b, (a - 1) / b + 1, (a - 1) % b);
      DivLeIff(i, a - 1, b);
    }
  }

  lemma DivAddOne(a: nat, b: nat)
    requires b > 0
    ensures (a + b) / b == a / b + 1
  {
    DivUnique(a + b, b, a / b + 1, a % b);
  }
}
