/** Signal arithmetic of the gating pipeline: sums, minima and means of
    per-frame signals, the min-shift/sum normalisation, and the uniform
    moving average computed as numpy's `convolve(..., mode='same')`.
    Exact reals stand in for numpy's float64. */
module Signals {

  /** np.sum, accumulated from the front. */
  function Sum(s: seq<real>): real
    decreases |s|
  {
    if s == [] then 0.0 else Sum(s[..|s| - 1]) + s[|s| - 1]
  }

  /** np.min of a non-empty signal. */
  function Min(s: seq<real>): (m: real)
    requires |s| > 0
    ensures forall i :: 0 <= i < |s| ==> m <= s[i]
    ensures exists i :: 0 <= i < |s| && s[i] == m
    decreases |s|
  {
    if |s| == 1 then s[0]
    else
      var m' := Min(s[..|s| - 1]);
      if s[|s| - 1] < m' then s[|s| - 1] else m'
  }

  /** np.mean of a non-empty signal. */
  function Mean(s: seq<real>): real
    requires |s| > 0
  {
    Sum(s) / |s| as real
  }

  /** Element-wise product with a scalar (`factor * signal`). */
  function Scale(s: seq<real>, c: real): (r: seq<real>)
    ensures |r| == |s|
  {
    seq(|s|, i requires 0 <= i < |s| => c * s[i])
  }

  /** Element-wise difference with a scalar (`signal - c`). */
  function Shift(s: seq<real>, c: real): (r: seq<real>)
    ensures |r| == |s|
  {
    seq(|s|, i requires 0 <= i < |s| => s[i] - c)
  }

  /** Element-wise quotient by a scalar (`signal / c`). */
  function Div(s: seq<real>, c: real): (r: seq<real>)
    requires c != 0.0
    ensures |r| == |s|
  {
    seq(|s|, i requires 0 <= i < |s| => s[i] / c)
  }

  lemma {:induction false} SumScale(s: seq<real>, c: real)
    ensures Sum(Scale(s, c)) == c * Sum(s)
    decreases |s|
  {
    if s != [] {
      var p := s[..|s| - 1];
      SumScale(p, c);
      assert forall i :: 0 <= i < |p| ==> Scale(s, c)[..|s| - 1][i] == Scale(p, c)[i];
      assert Scale(s, c)[..|s| - 1] == Scale(p, c);
    }
  }

  lemma {:induction false} SumShift(s: seq<real>, c: real)
    ensures Sum(Shift(s, c)) == Sum(s) - |s| as real * c
    decreases |s|
  {
    if s != [] {
      var p := s[..|s| - 1];
      SumShift(p, c);
      assert Shift(s, c)[..|s| - 1] == Shift(p, c);
    }
  }

  lemma {:induction false} SumDiv(s: seq<real>, c: real)
    requires c != 0.0
    ensures Sum(Div(s, c)) == Sum(s) / c
    decreases |s|
  {
    if s != [] {
      var p := s[..|s| - 1];
      SumDiv(p, c);
      assert Div(s, c)[..|s| - 1] == Div(p, c);
    }
  }

  /** A signal of non-negative entries, one of them positive, has a positive sum. */
  lemma {:induction false} SumPositive(s: seq<real>, k: int)
    requires forall i :: 0 <= i < |s| ==> s[i] >= 0.0
    requires 0 <= k < |s| && s[k] > 0.0
    ensures Sum(s) > 0.0
    decreases |s|
  {
    var p := s[..|s| - 1];
    if k < |s| - 1 {
      SumPositive(p, k);
      SumNonNegative(p);
    } else {
      SumNonNegative(p);
    }
  }

  lemma {:induction false} SumNonNegative(s: seq<real>)
    requires forall i :: 0 <= i < |s| ==> s[i] >= 0.0
    ensures Sum(s) >= 0.0
    decreases |s|
  {
    if s != [] {
      SumNonNegative(s[..|s| - 1]);
    }
  }

  lemma {:induction false} MeanScale(s: seq<real>, c: real)
    requires |s| > 0
    ensures Mean(Scale(s, c)) == c * Mean(s)
  {
    SumScale(s, c);
  }

  // ---------------------------------------------------------------------
  // Normalisation: (data - min(data)) / sum(data - min(data))

  /** Some two entries differ; a constant signal makes the denominator 0. */
  predicate NonConstant(s: seq<real>)
  {
    exists i, j :: 0 <= i < |s| && 0 <= j < |s| && s[i] != s[j]
  }

  /** `normalize_data`: shift so the minimum is 0, then divide by the sum.
      The result has the input's length, minimum 0 and sum 1, and keeps
      the order of the samples (so it keeps their extrema). */
  function Normalize(s: seq<real>): (r: seq<real>)
    requires NonConstant(s)
    ensures |r| == |s|
    ensures forall i :: 0 <= i < |r| ==> r[i] >= 0.0
    ensures exists i :: 0 <= i < |r| && r[i] == 0.0
    ensures Sum(r) == 1.0
    ensures forall i, j :: 0 <= i < |s| && 0 <= j < |s| ==> (s[i] < s[j] <==> r[i] < r[j])
  {
    var m := Min(s);
    var d := Shift(s, m);
    ShiftedSumPositive(s);
    var total := Sum(d);
    DivBySumIsOne(d);
    ShiftDivShape(s, m, total);
    Div(d, total)
  }

  lemma DivBySumIsOne(d: seq<real>)
    requires Sum(d) > 0.0
    ensures Sum(Div(d, Sum(d))) == 1.0
  {
    var total := Sum(d);
    SumDiv(d, total);
    assert total / total == 1.0;
  }

  /** A non-constant signal has a positive sum once shifted by its minimum. */
  lemma ShiftedSumPositive(s: seq<real>)
    requires NonConstant(s)
    ensures Sum(Shift(s, Min(s))) > 0.0
  {
    var m := Min(s);
    var i, j :| 0 <= i < |s| && 0 <= j < |s| && s[i] != s[j];
    var k := if s[i] != m then i else j;
    SumPositive(Shift(s, m), k);
  }

  lemma ShiftDivShape(s: seq<real>, m: real, t: real)
    requires t > 0.0
    requires forall i :: 0 <= i < |s| ==> m <= s[i]
    requires exists i :: 0 <= i < |s| && s[i] == m
    ensures var r := Div(Shift(s, m), t);
      && (forall i :: 0 <= i < |r| ==> r[i] >= 0.0)
      && (exists i :: 0 <= i < |r| && r[i] == 0.0)
      && (forall i, j :: 0 <= i < |s| && 0 <= j < |s| ==> (s[i] < s[j] <==> r[i] < r[j]))
  {
    var d := Shift(s, m);
    var r := Div(d, t);
    var z :| 0 <= z < |s| && s[z] == m;
    assert r[z] == 0.0;
    forall i | 0 <= i < |r| ensures r[i] >= 0.0 {
      QuotientKeepsOrder(0.0, d[i], t);
    }
    DivKeepsOrder(d, t);
  }

  lemma DivKeepsOrder(d: seq<real>, t: real)
    requires t > 0.0
    ensures forall i, j :: 0 <= i < |d| && 0 <= j < |d| ==> (d[i] < d[j] <==> Div(d, t)[i] < Div(d, t)[j])
  {
    forall i, j | 0 <= i < |d| && 0 <= j < |d|
      ensures d[i] < d[j] <==> Div(d, t)[i] < Div(d, t)[j]
    {
      QuotientKeepsOrder(d[i], d[j], t);
    }
  }

  lemma QuotientKeepsOrder(a: real, b: real, t: real)
    requires t > 0.0
    ensures a < b <==> a / t < b / t
  {
    if a < b {
      assert b / t - a / t == (b - a) / t;
    } else {
      assert a / t - b / t == (a - b) / t;
    }
  }

  lemma NormalizeMinIsZero(s: seq<real>)
    requires NonConstant(s)
    ensures Min(Normalize(s)) == 0.0
  {
  }

  // ---------------------------------------------------------------------
  // Convolution with numpy semantics

  /** The coefficient v[k - t], and 0 where k - t falls outside v. */
  function Tap(v: seq<real>, k: int, t: int): real
  {
    if 0 <= k - t < |v| then v[k - t] else 0.0
  }

  /** Sum over t < j of a[t] * v[k - t]: a prefix of the k-th full-convolution term. */
  function ConvPrefix(a: seq<real>, v: seq<real>, k: int, j: nat): real
    requires j <= |a|
  {
    if j == 0 then 0.0 else ConvPrefix(a, v, k, j - 1) + a[j - 1] * Tap(v, k, j - 1)
  }

  /** np.convolve(a, v, mode='full'): length |a| + |v| - 1. */
  function Convolve(a: seq<real>, v: seq<real>): (r: seq<real>)
    requires |a| > 0 && |v| > 0
    ensures |r| == |a| + |v| - 1
  {
    seq(|a| + |v| - 1, k requires 0 <= k < |a| + |v| - 1 => ConvPrefix(a, v, k, |a|))
  }

  function MinInt(x: int, y: int): int { if x <= y then x else y }
  function MaxInt(x: int, y: int): int { if x >= y then x else y }

  /** np.convolve(a, v, mode='same'): the centred max(|a|, |v|) terms of the
      full convolution, starting at (min(|a|, |v|) - 1) / 2. numpy swaps the
      operands so that the longer one comes first; the full convolution is
      symmetric, so only the length and the offset depend on that swap. */
  function ConvolveSame(a: seq<real>, v: seq<real>): (r: seq<real>)
    requires |a| > 0 && |v| > 0
    ensures |r| == MaxInt(|a|, |v|)
  {
    var off := (MinInt(|a|, |v|) - 1) / 2;
    Convolve(a, v)[off .. off + MaxInt(|a|, |v|)]
  }

  /** np.ones(w) / w */
  function Uniform(w: nat): (v: seq<real>)
    requires w > 0
    ensures |v| == w
  {
    seq(w, _ => 1.0 / w as real)
  }

  /** `smooth_curve`: convolution with a uniform window in numpy's 'same' mode. */
  function SmoothCurve(s: seq<real>, w: nat): (r: seq<real>)
    requires |s| > 0 && w > 0
    ensures |r| == MaxInt(|s|, w)
  {
    ConvolveSame(s, Uniform(w))
  }

  /** Independent reference for the moving average: the mean over a window
      [lo, hi] of sample positions, where positions outside the signal count
      as 0 and the divisor is always the window size w. */
  function Clamp(x: int, lo: int, hi: int): int
    requires lo <= hi
  {
    if x < lo then lo else if x > hi then hi else x
  }

  function WindowSum(s: seq<real>, lo: int, hi: int): real
  {
    var a := Clamp(lo, 0, |s|);
    Sum(s[a .. Clamp(hi + 1, a, |s|)])
  }

  lemma SumSliceExtend(s: seq<real>, a: int, b: int)
    requires 0 <= a <= b < |s|
    ensures Sum(s[a .. b + 1]) == Sum(s[a .. b]) + s[b]
  {
    assert s[a .. b + 1][.. b - a] == s[a .. b];
  }

  /** Extending the visible prefix s[..j] by one sample adds that sample to
      the window sum exactly when it lies inside [lo, hi]. */
  lemma WindowSumStep(s: seq<real>, lo: int, hi: int, j: nat)
    requires j < |s|
    ensures WindowSum(s[..j + 1], lo, hi)
            == WindowSum(s[..j], lo, hi) + (if lo <= j <= hi then s[j] else 0.0)
  {
    var p := s[..j];
    var q := s[..j + 1];
    var a := Clamp(lo, 0, j);
    var a' := Clamp(lo, 0, j + 1);
    var b := Clamp(hi + 1, a, j);
    var b' := Clamp(hi + 1, a', j + 1);
    if lo <= j <= hi {
      assert a' == a && b == j && b' == j + 1;
      assert q[a .. b] == p[a .. b];
      SumSliceExtend(q, a, j);
    } else if j < lo {
      assert q[a' .. b'] == [] && p[a .. b] == [];
    } else {
      assert a' == a && b' == b;
      assert q[a .. b] == p[a .. b];
    }
  }

  /** The j-prefix of a full-convolution term against the uniform window is
      the clipped window sum over [k - w + 1, k] restricted to s[..j], over w. */
  lemma {:induction false} ConvPrefixUniform(s: seq<real>, w: nat, k: nat, j: nat)
    requires w > 0 && j <= |s|
    ensures ConvPrefix(s, Uniform(w), k, j) == WindowSum(s[..j], k - w + 1, k) / w as real
  {
    if j > 0 {
      ConvPrefixUniform(s, w, k, j - 1);
      WindowSumStep(s, k - w + 1, k, j - 1);
      var x := s[j - 1];
      var t := Tap(Uniform(w), k, j - 1);
      var inWindow := k - w + 1 <= j - 1 <= k;
      assert t == if inWindow then 1.0 / w as real else 0.0;
      TermOverWindow(x, t, w as real, inWindow);
      DivAdd(WindowSum(s[..j - 1], k - w + 1, k), if inWindow then x else 0.0, w as real);
    } else {
      assert s[..0] == [];
    }
  }

  lemma TermOverWindow(x: real, t: real, w: real, inWindow: bool)
    requires w > 0.0 && t == if inWindow then 1.0 / w else 0.0
    ensures x * t == (if inWindow then x else 0.0) / w
  {
  }

  lemma DivAdd(a: real, b: real, w: real)
    requires w > 0.0
    ensures a / w + b / w == (a + b) / w
  {
  }

  /** The smoothing formula: with m = min(|s|, w) and c = i + (m - 1) / 2,
      output i is the window sum over [c - (w - 1), c] divided by w.
      For w <= |s| and w = 5 that is samples i-2 .. i+2; for w = 2 it is
      i-1 .. i. */
  lemma SmoothWindow(s: seq<real>, w: nat, i: nat)
    requires |s| > 0 && w > 0 && i < MaxInt(|s|, w)
    ensures var c := i + (MinInt(|s|, w) - 1) / 2;
            SmoothCurve(s, w)[i] == WindowSum(s, c - (w - 1), c) / w as real
  {
    var c := i + (MinInt(|s|, w) - 1) / 2;
    ConvPrefixUniform(s, w, c, |s|);
    assert s[..|s|] == s;
  }
}
