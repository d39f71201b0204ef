/** analyze_true_utilization.py, calculate_statistics: the time-weighted
    averages of the utilisation time series. The rows are sorted by
    timestamp, the gaps between consecutive timestamps weight each row's
    value, and the weighted sum is divided by the total gap. */
module TimeWeighted {
  import opened Common

  /** Timestamps here are `total_seconds()` values, so they are reals. */
  function Gaps(times: seq<real>): (g: seq<real>)
    ensures |g| == if |times| <= 1 then 0 else |times| - 1
  {
    if |times| <= 1 then [] else Gaps(times[..|times| - 1]) + [times[|times| - 1] - times[|times| - 2]]
  }

  /** `(value * time_delta).sum()` over the rows after the first. */
  function WeightedSum(times: seq<real>, values: seq<real>): real
    requires |times| == |values|
  {
    if |times| <= 1 then 0.0
    else
      WeightedSum(times[..|times| - 1], values[..|values| - 1])
      + values[|values| - 1] * (times[|times| - 1] - times[|times| - 2])
  }

  /** The time-weighted average; `None` where the script reports nothing. */
  function TimeWeightedAverage(times: seq<real>, values: seq<real>): Option<real>
    requires |times| == |values|
  {
    if |times| <= 1 then None
    else
      var total := SumReal(Gaps(times));
      if total > 0.0 then Some(WeightedSum(times, values) / total) else None
  }

  /** The time covered from the first to the last point. */
  function Span(times: seq<real>): real
    requires |times| >= 1
  {
    times[|times| - 1] - times[0]
  }

  /** The summed gaps telescope to the covered span. */
  lemma {:induction false} GapsTelescope(times: seq<real>)
    requires |times| >= 1
    ensures SumReal(Gaps(times)) == Span(times)
  {
    var n := |times|;
    if n > 1 {
      var init := times[..n - 1];
      GapsTelescope(init);
      GapsLast(times);
      assert init[n - 2] == times[n - 2] && init[0] == times[0];
    }
  }

  /** The last point adds its gap to the summed gaps. */
  lemma GapsLast(times: seq<real>)
    requires |times| > 1
    ensures SumReal(Gaps(times)) == SumReal(Gaps(times[..|times| - 1])) + (times[|times| - 1] - times[|times| - 2])
  {
    var g := Gaps(times);
    assert g[..|g| - 1] == Gaps(times[..|times| - 1]);
  }

  /** The average is reported exactly when there are two points or more and
      the last point is later than the first. */
  lemma TimeWeightedDefined(times: seq<real>, values: seq<real>)
    requires |times| == |values|
    ensures TimeWeightedAverage(times, values).Some? <==> |times| > 1 && times[|times| - 1] > times[0]
  {
    if |times| > 1 {
      GapsTelescope(times);
    }
  }

  /** Between the smallest and the largest value times the span. */
  lemma WeightedSumBounds(times: seq<real>, values: seq<real>, lo: real, hi: real)
    requires |times| == |values| && |times| >= 1
    requires forall a, b :: 0 <= a < b < |times| ==> times[a] <= times[b]
    requires forall i :: 0 <= i < |values| ==> lo <= values[i] <= hi
    ensures lo * Span(times) <= WeightedSum(times, values) <= hi * Span(times)
  {
    WeightedSumAbove(times, values, lo, hi);
    WeightedSumBelow(times, values, lo, hi);
  }

  lemma {:induction false} WeightedSumAbove(times: seq<real>, values: seq<real>, lo: real, hi: real)
    requires |times| == |values| && |times| >= 1
    requires forall a, b :: 0 <= a < b < |times| ==> times[a] <= times[b]
    requires forall i :: 0 <= i < |values| ==> lo <= values[i] <= hi
    ensures lo * Span(times) <= WeightedSum(times, values)
  {
    var n := |times|;
    if n > 1 {
      var init, vinit := times[..n - 1], values[..n - 1];
      WeightedSumAbove(init, vinit, lo, hi);
      assert times[n - 2] <= times[n - 1];
      assert init[0] == times[0] && init[n - 2] == times[n - 2];
      AboveStep(lo, values[n - 1], times[n - 1] - times[n - 2], WeightedSum(init, vinit), Span(init));
    }
  }

  lemma {:induction false} WeightedSumBelow(times: seq<real>, values: seq<real>, lo: real, hi: real)
    requires |times| == |values| && |times| >= 1
    requires forall a, b :: 0 <= a < b < |times| ==> times[a] <= times[b]
    requires forall i :: 0 <= i < |values| ==> lo <= values[i] <= hi
    ensures WeightedSum(times, values) <= hi * Span(times)
  {
    var n := |times|;
    if n > 1 {
      var init, vinit := times[..n - 1], values[..n - 1];
      WeightedSumBelow(init, vinit, lo, hi);
      assert times[n - 2] <= times[n - 1];
      assert init[0] == times[0] && init[n - 2] == times[n - 2];
      BelowStep(hi, values[n - 1], times[n - 1] - times[n - 2], WeightedSum(init, vinit), Span(init));
    }
  }

  /** One more weighted gap keeps the sum above `lo` times the span. */
  lemma AboveStep(lo: real, v: real, d: real, s: real, span: real)
    requires lo <= v && d >= 0.0 && lo * span <= s
    ensures lo * (span + d) <= s + v * d
  {
    assert lo * d <= v * d;
  }

  /** One more weighted gap keeps the sum below `hi` times the span. */
  lemma BelowStep(hi: real, v: real, d: real, s: real, span: real)
    requires v <= hi && d >= 0.0 && s <= hi * span
    ensures s + v * d <= hi * (span + d)
  {
    assert v * d <= hi * d;
  }

  /** For points in time order, the average lies between the smallest and the
      largest utilisation; in particular percentages stay within [0, 100]. */
  lemma TimeWeightedAverageBounds(times: seq<real>, values: seq<real>, lo: real, hi: real)
    requires |times| == |values|
    requires forall a, b :: 0 <= a < b < |times| ==> times[a] <= times[b]
    requires forall i :: 0 <= i < |values| ==> lo <= values[i] <= hi
    requires TimeWeightedAverage(times, values).Some?
    ensures lo <= TimeWeightedAverage(times, values).value <= hi
  {
    GapsTelescope(times);
    WeightedSumBounds(times, values, lo, hi);
    DivBetween(WeightedSum(times, values), Span(times), lo, hi, TimeWeightedAverage(times, values).value);
  }

  lemma DivBetween(w: real, t: real, lo: real, hi: real, q: real)
    requires t > 0.0 && lo * t <= w <= hi * t && q == w / t
    ensures lo <= q <= hi
  {
    assert q * t == w;
  }
}
