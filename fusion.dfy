/** Signal fusion (`combined_signal`) and the scale reconciliation between
    the two fused curves (the scale block of `plot_data`).

    The standard deviation of the extrema spacings (`np.std`) needs a square
    root and is a parameter `std` of the model; only its positivity matters
    for the weights to be defined. */
module Fusion {
  import opened Signals
  import opened Sorting
  import opened Extrema

  /** np.diff of an index array: the gaps between consecutive entries. */
  function Diff(e: seq<int>): (d: seq<int>)
    ensures |d| == if |e| == 0 then 0 else |e| - 1
    ensures StrictlyIncreasing(e) ==> forall i :: 0 <= i < |d| ==> d[i] > 0
  {
    if |e| <= 1 then [] else seq(|e| - 1, i requires 0 <= i < |e| - 1 => e[i + 1] - e[i])
  }

  /** Every signal of the family can be smoothed: the window and the
      signals are non-empty (np.convolve refuses empty operands). */
  predicate Smoothable(signals: seq<seq<real>>, windowSize: nat)
  {
    windowSize > 0 && forall j :: 0 <= j < |signals| ==> |signals[j]| > 0
  }

  /** The extrema that feed the variability: the maxima alone in maxima-only
      mode, otherwise all extrema. */
  function ExtremaFor(s: seq<real>, maximaOnly: bool): seq<int>
  {
    if maximaOnly then IdentifyExtrema(s).1 else IdentifyExtrema(s).0
  }

  /** `f` applied to every element, built front to back as the loops of
      `combined_signal` build their lists. */
  function Map<A, B>(xs: seq<A>, f: A -> B): (r: seq<B>)
    ensures |r| == |xs|
    decreases |xs|
  {
    if xs == [] then [] else Map(xs[..|xs| - 1], f) + [f(xs[|xs| - 1])]
  }

  /** Element t of the mapped list is f of element t. */
  lemma {:induction false} MapAt<A, B>(xs: seq<A>, f: A -> B, t: int)
    requires 0 <= t < |xs|
    ensures Map(xs, f)[t] == f(xs[t])
    decreases |xs|
  {
    var n := |xs| - 1;
    if t < n {
      MapAt(xs[..n], f, t);
      assert xs[..n][t] == xs[t];
    }
  }

  /** Mapping a list extended by one element extends the mapped list by f of it. */
  lemma MapSnoc<A, B>(xs: seq<A>, j: int, f: A -> B)
    requires 0 <= j < |xs|
    ensures Map(xs[..j + 1], f) == Map(xs[..j], f) + [f(xs[j])]
  {
    assert xs[..j + 1][..j] == xs[..j];
  }

  /** The re-smoothed copies of the signals. */
  function SmoothedSignals(signals: seq<seq<real>>, windowSize: nat): (r: seq<seq<real>>)
    requires Smoothable(signals, windowSize)
    ensures |r| == |signals|
    ensures forall t :: 0 <= t < |signals| ==> r[t] == SmoothCurve(signals[t], windowSize)
  {
    seq(|signals|, t requires 0 <= t < |signals| => SmoothCurve(signals[t], windowSize))
  }

  function ExtremaSelector(maximaOnly: bool): seq<real> -> seq<int>
  {
    s => ExtremaFor(s, maximaOnly)
  }

  function SpacingStd(std: seq<int> -> real): seq<int> -> real
  {
    e => std(Diff(e))
  }

  /** The variability of each signal: `std` of the spacings of the extrema of
      its re-smoothed copy, as the three passes compute it. */
  function Variabilities(signals: seq<seq<real>>, windowSize: nat, maximaOnly: bool,
                         std: seq<int> -> real): (v: seq<real>)
    requires Smoothable(signals, windowSize)
    ensures |v| == |signals|
  {
    Map(Map(SmoothedSignals(signals, windowSize), ExtremaSelector(maximaOnly)), SpacingStd(std))
  }

  /** Variability j is std of the spacings of the extrema of signal j,
      re-smoothed. */
  lemma VariabilitiesAt(signals: seq<seq<real>>, windowSize: nat, maximaOnly: bool,
                        std: seq<int> -> real, j: int)
    requires Smoothable(signals, windowSize) && 0 <= j < |signals|
    ensures Variabilities(signals, windowSize, maximaOnly, std)[j]
            == std(Diff(ExtremaFor(SmoothCurve(signals[j], windowSize), maximaOnly)))
  {
    var smoothed := SmoothedSignals(signals, windowSize);
    var extrema := Map(smoothed, ExtremaSelector(maximaOnly));
    MapAt(extrema, SpacingStd(std), j);
    MapAt(smoothed, ExtremaSelector(maximaOnly), j);
  }

  predicate AllPositive(v: seq<real>)
  {
    forall j :: 0 <= j < |v| ==> v[j] > 0.0
  }

  /** `[(var / sum_variability) ** -1 for var in variability]`. A zero
      variability would divide by zero, hence the precondition. */
  function Weights(v: seq<real>): (w: seq<real>)
    requires AllPositive(v)
    ensures |w| == |v|
    ensures AllPositive(w)
  {
    if |v| == 0 then []
    else
      SumPositive(v, 0);
      seq(|v|, j requires 0 <= j < |v| => 1.0 / (v[j] / Sum(v)))
  }

  function Reciprocals(w: seq<real>): (r: seq<real>)
    requires AllPositive(w)
    ensures |r| == |w|
  {
    seq(|w|, j requires 0 <= j < |w| => 1.0 / w[j])
  }

  /** The weights are shares of the total variability turned upside down:
      their reciprocals sum to 1. */
  lemma WeightsReciprocalsSumToOne(v: seq<real>)
    requires AllPositive(v) && |v| > 0
    ensures Sum(Reciprocals(Weights(v))) == 1.0
  {
    SumPositive(v, 0);
    var total := Sum(v);
    var w := Weights(v);
    forall j | 0 <= j < |v| ensures Reciprocals(w)[j] == Div(v, total)[j] {
      ReciprocalOfReciprocal(v[j], total);
    }
    assert Reciprocals(w) == Div(v, total);
    DivBySumIsOne(v);
  }

  lemma ReciprocalOfReciprocal(x: real, total: real)
    requires x > 0.0 && total > 0.0
    ensures x / total > 0.0 && 1.0 / (x / total) > 0.0
    ensures 1.0 / (1.0 / (x / total)) == x / total
  {
  }

  /** A more regular signal (lower variability) gets the larger weight. */
  lemma WeightsInverseOrder(v: seq<real>, i: int, j: int)
    requires AllPositive(v)
    requires 0 <= i < |v| && 0 <= j < |v|
    ensures v[i] < v[j] <==> Weights(v)[i] > Weights(v)[j]
  {
    SumPositive(v, 0);
    var total := Sum(v);
    QuotientKeepsOrder(v[i], v[j], total);
    InverseReverses(v[i] / total, v[j] / total);
  }

  lemma InverseReverses(a: real, b: real)
    requires a > 0.0 && b > 0.0
    ensures a < b <==> 1.0 / a > 1.0 / b
  {
    if a < b {
      assert 1.0 / a - 1.0 / b == (b - a) / (a * b);
    } else {
      assert 1.0 / b - 1.0 / a == (a - b) / (a * b);
    }
  }

  /** Variabilities 2 and 8 (sum 10) give weights 10/2 = 5 and 10/8 = 1.25. */
  lemma WeightsExample()
    ensures Weights([2.0, 8.0]) == [5.0, 1.25]
  {
    var v := [2.0, 8.0];
    assert Sum(v) == 10.0 by {
      assert v[..1] == [2.0];
      assert [2.0][..0] == [];
    }
  }

  /** Independent per-sample reference for the fused signal:
      the sum over j < k of weights[j] * signals[j][i]. */
  function WeightedSumAt(weights: seq<real>, signals: seq<seq<real>>, i: nat, k: nat): real
    requires k <= |weights| && k <= |signals|
    requires forall j :: 0 <= j < k ==> i < |signals[j]|
  {
    if k == 0 then 0.0
    else WeightedSumAt(weights, signals, i, k - 1) + weights[k - 1] * signals[k - 1][i]
  }

  /** `acc += c * s` on numpy arrays of equal length. */
  function AddScaled(acc: seq<real>, c: real, s: seq<real>): (r: seq<real>)
    requires |s| == |acc|
    ensures |r| == |acc|
  {
    seq(|acc|, i requires 0 <= i < |acc| => acc[i] + c * s[i])
  }

  predicate SameLength(signals: seq<seq<real>>)
    requires |signals| > 0
  {
    forall j :: 0 <= j < |signals| ==> |signals[j]| == |signals[0]|
  }

  /** The smoothing pass of `combined_signal`: every signal re-smoothed. */
  method SmoothAll(signalList: seq<seq<real>>, windowSize: nat) returns (smoothedSignals: seq<seq<real>>)
    requires Smoothable(signalList, windowSize)
    ensures |smoothedSignals| == |signalList|
    ensures forall t :: 0 <= t < |signalList| ==>
      smoothedSignals[t] == SmoothCurve(signalList[t], windowSize)
  {
    smoothedSignals := [];
    for j := 0 to |signalList|
      invariant |smoothedSignals| == j
      invariant forall t :: 0 <= t < j ==> smoothedSignals[t] == SmoothCurve(signalList[t], windowSize)
    {
      smoothedSignals := smoothedSignals + [SmoothCurve(signalList[j], windowSize)];
    }
  }

  /** The extrema pass: for each smoothed signal keep the maxima alone in
      maxima-only mode, otherwise the sorted maxima and minima. */
  method ExtremaAll(smoothedSignals: seq<seq<real>>, maximaOnly: bool) returns (extremaIndices: seq<seq<int>>)
    ensures extremaIndices == Map(smoothedSignals, ExtremaSelector(maximaOnly))
    ensures |extremaIndices| == |smoothedSignals|
    ensures forall t :: 0 <= t < |smoothedSignals| ==>
      extremaIndices[t] == ExtremaFor(smoothedSignals[t], maximaOnly)
  {
    extremaIndices := [];
    for j := 0 to |smoothedSignals|
      invariant extremaIndices == Map(smoothedSignals[..j], ExtremaSelector(maximaOnly))
    {
      MapSnoc(smoothedSignals, j, ExtremaSelector(maximaOnly));
      if maximaOnly {
        extremaIndices := extremaIndices + [IdentifyExtrema(smoothedSignals[j]).1];
      } else {
        extremaIndices := extremaIndices + [IdentifyExtrema(smoothedSignals[j]).0];
      }
    }
    assert smoothedSignals[..|smoothedSignals|] == smoothedSignals;
    forall t | 0 <= t < |smoothedSignals|
      ensures extremaIndices[t] == ExtremaFor(smoothedSignals[t], maximaOnly)
    {
      MapAt(smoothedSignals, ExtremaSelector(maximaOnly), t);
    }
  }

  /** The variability pass: `np.std(np.diff(extrema))` for each index list. */
  method SpacingVariability(extremaIndices: seq<seq<int>>, std: seq<int> -> real) returns (variability: seq<real>)
    ensures variability == Map(extremaIndices, SpacingStd(std))
    ensures |variability| == |extremaIndices|
    ensures forall t :: 0 <= t < |extremaIndices| ==> variability[t] == std(Diff(extremaIndices[t]))
  {
    variability := [];
    for j := 0 to |extremaIndices|
      invariant variability == Map(extremaIndices[..j], SpacingStd(std))
    {
      MapSnoc(extremaIndices, j, SpacingStd(std));
      variability := variability + [std(Diff(extremaIndices[j]))];
    }
    assert extremaIndices[..|extremaIndices|] == extremaIndices;
    forall t | 0 <= t < |extremaIndices|
      ensures variability[t] == std(Diff(extremaIndices[t]))
    {
      MapAt(extremaIndices, SpacingStd(std), t);
    }
  }

  /** The first half of `combined_signal`: smooth every signal, find the
      extrema of each smoothed copy, and take the variability of their
      spacing. */
  method ExtremaVariability(signalList: seq<seq<real>>, windowSize: nat, maximaOnly: bool,
                            std: seq<int> -> real) returns (variability: seq<real>)
    requires Smoothable(signalList, windowSize)
    ensures variability == Variabilities(signalList, windowSize, maximaOnly, std)
  {
    var smoothedSignals := SmoothAll(signalList, windowSize);
    assert smoothedSignals == SmoothedSignals(signalList, windowSize);
    var extremaIndices := ExtremaAll(smoothedSignals, maximaOnly);
    variability := SpacingVariability(extremaIndices, std);
  }

  /** The accumulation loop of `combined_signal`: a zero signal to which
      each weighted input signal is added in turn. */
  method WeightedSum(signalList: seq<seq<real>>, weights: seq<real>) returns (combined: seq<real>)
    requires |signalList| > 0 && SameLength(signalList) && |weights| == |signalList|
    ensures |combined| == |signalList[0]|
    ensures forall i :: 0 <= i < |combined| ==>
      combined[i] == WeightedSumAt(weights, signalList, i, |signalList|)
  {
    var n := |signalList[0]|;
    combined := seq(n, _ => 0.0);
    for j := 0 to |signalList|
      invariant |combined| == n
      invariant forall i :: 0 <= i < n ==> combined[i] == WeightedSumAt(weights, signalList, i, j)
    {
      combined := AddScaled(combined, weights[j], signalList[j]);
    }
  }

  /** `combined_signal`: weight each signal by the inverse of its share of
      the total variability and add up the weighted INPUT signals (the
      re-smoothed copies only feed the weights). */
  method CombinedSignal(signalList: seq<seq<real>>, windowSize: nat, maximaOnly: bool,
                        std: seq<int> -> real) returns (combined: seq<real>)
    requires |signalList| > 0 && SameLength(signalList)
    requires Smoothable(signalList, windowSize)
    requires AllPositive(Variabilities(signalList, windowSize, maximaOnly, std))
    ensures |combined| == |signalList[0]|
    ensures var weights := Weights(Variabilities(signalList, windowSize, maximaOnly, std));
      forall i :: 0 <= i < |combined| ==>
        combined[i] == WeightedSumAt(weights, signalList, i, |signalList|)
  {
    var variability := ExtremaVariability(signalList, windowSize, maximaOnly, std);
    var weights := Weights(variability);
    combined := WeightedSum(signalList, weights);
  }

  /** The fused value for two signals weighted 5 and 1.25 is 5*s1[i] + 1.25*s2[i]. */
  lemma FusedPairExample(s1: seq<real>, s2: seq<real>, i: nat)
    requires i < |s1| && i < |s2|
    ensures WeightedSumAt(Weights([2.0, 8.0]), [s1, s2], i, 2) == 5.0 * s1[i] + 1.25 * s2[i]
  {
    WeightsExample();
    var w := Weights([2.0, 8.0]);
    assert w[0] == 5.0 && w[1] == 1.25;
    assert WeightedSumAt(w, [s1, s2], i, 1) == 5.0 * s1[i];
  }

  // ---------------------------------------------------------------------
  // Scale reconciliation between the fused max-family and extrema-family curves

  /** The scale block as written: factor = mean(max) / mean(extrema); below 1
      the extrema curve is multiplied by it, otherwise the max curve is. */
  function ReconcileScale(sMax: seq<real>, sExtrema: seq<real>): (r: (seq<real>, seq<real>))
    requires |sMax| > 0 && |sExtrema| > 0 && Mean(sExtrema) != 0.0
    ensures |r.0| == |sMax| && |r.1| == |sExtrema|
    ensures var factor := Mean(sMax) / Mean(sExtrema);
      if factor < 1.0 then r.0 == sMax && r.1 == Scale(sExtrema, factor) && Mean(r.1) == Mean(r.0)
      else r.1 == sExtrema && r.0 == Scale(sMax, factor) && Mean(r.0) == factor * Mean(sMax)
  {
    var factor := Mean(sMax) / Mean(sExtrema);
    if factor < 1.0 then
      MeanScale(sExtrema, factor);
      (sMax, Scale(sExtrema, factor))
    else
      MeanScale(sMax, factor);
      (Scale(sMax, factor), sExtrema)
  }

  /** In the second branch the two means end up equal only when they were
      already equal (factor exactly 1). */
  lemma ReconcileElseBranchMeans(sMax: seq<real>, sExtrema: seq<real>)
    requires |sMax| > 0 && |sExtrema| > 0 && Mean(sExtrema) != 0.0
    requires Mean(sMax) / Mean(sExtrema) >= 1.0
    ensures var r := ReconcileScale(sMax, sExtrema);
      Mean(r.0) == Mean(r.1) <==> Mean(sMax) == Mean(sExtrema)
  {
    var m, e := Mean(sMax), Mean(sExtrema);
    var f := m / e;
    assert m == f * e;
    var r := ReconcileScale(sMax, sExtrema);
    assert Mean(r.0) == f * m == f * f * e;
    if f > 1.0 {
      SquareAboveOne(f);
      assert f * f * e - e == (f * f - 1.0) * e;
    }
  }

  lemma SquareAboveOne(f: real)
    requires f > 1.0
    ensures f * f > 1.0
  {
    assert f * f > f * 1.0;
  }

  /** Means 4 (max family) and 8 (extrema family): factor 0.5 < 1, so only
      the extrema curve is scaled, by 0.5. */
  lemma ReconcileHalvesExtrema()
    ensures ReconcileScale([4.0], [8.0]) == ([4.0], [4.0])
  {
    assert Mean([4.0]) == 4.0 && Mean([8.0]) == 8.0 by {
      assert [4.0][..0] == [] && [8.0][..0] == [];
    }
    assert Scale([8.0], 0.5) == [4.0];
  }

  /** Means 8 (max family) and 4 (extrema family): factor 2, the max curve is
      doubled to mean 16 and the means drift further apart. */
  lemma ReconcileWidensGap()
    ensures ReconcileScale([8.0], [4.0]) == ([16.0], [4.0])
  {
    assert Mean([8.0]) == 8.0 && Mean([4.0]) == 4.0 by {
      assert [4.0][..0] == [] && [8.0][..0] == [];
    }
    assert Scale([8.0], 2.0) == [16.0];
  }

  /** The reconciliation with the second branch brought in line with the
      first: exactly one curve is rescaled, the other is left untouched, and
      afterwards both curves have the same mean. */
  function ReconcileScaleMatched(sMax: seq<real>, sExtrema: seq<real>): (r: (seq<real>, seq<real>))
    requires |sMax| > 0 && |sExtrema| > 0 && Mean(sExtrema) != 0.0
    ensures |r.0| == |sMax| && |r.1| == |sExtrema|
    ensures r.0 == sMax || r.1 == sExtrema
    ensures Mean(r.0) == Mean(r.1)
  {
    var factor := Mean(sMax) / Mean(sExtrema);
    if factor < 1.0 then
      MeanScale(sExtrema, factor);
      (sMax, Scale(sExtrema, factor))
    else
      MeanScale(sMax, 1.0 / factor);
      (Scale(sMax, 1.0 / factor), sExtrema)
  }
}
