/** analyze_submission_abandonment.py: an hourly time series of submission
    rate, queue length, mean queue time and running jobs, the lag with the
    most negative queue/submission correlation, and the look-ups after
    extreme-queue hours. Correlations and quantiles are inputs. */
module Abandonment {
  import opened Common

  /** Times in seconds; a missing time (NaT) is `None` and fails every
      comparison. */
  datatype Job = Job(submit: Option<int>, start: Option<int>, end: Option<int>)

  const Hour: int := 3600

  // ---------------------------------------------------------------------
  // Ticks

  /** `pd.date_range(first, last, freq='1h')`: hourly from `first`, both
      ends included. */
  function HourTicks(first: int, last: int): (ts: seq<int>)
    requires first <= last
    ensures |ts| > 0 && ts[0] == first
    ensures forall k :: 0 <= k < |ts| ==> ts[k] == first + Hour * k && ts[k] <= last
    ensures last < first + Hour * |ts|
  {
    var n := (last - first) / Hour + 1;
    seq(n, k requires 0 <= k < n => first + Hour * k)
  }

  /** `df['submit_time'].min()` and `.max()`: NaT is skipped, and a
      column with no submit time left gives NaT (`None`). */
  function FirstSubmit(jobs: seq<Job>): (m: Option<int>)
    ensures m.None? <==> forall k :: 0 <= k < |jobs| ==> jobs[k].submit.None?
    ensures m.Some? ==> forall k :: 0 <= k < |jobs| && jobs[k].submit.Some? ==> m.value <= jobs[k].submit.value
    ensures m.Some? ==> exists k :: 0 <= k < |jobs| && jobs[k].submit == m
  {
    if jobs == [] then None
    else
      var rest := FirstSubmit(jobs[..|jobs| - 1]);
      var s := jobs[|jobs| - 1].submit;
      if s.None? then rest
      else if rest.None? || s.value < rest.value then s
      else rest
  }

  function LastSubmit(jobs: seq<Job>): (m: Option<int>)
    ensures m.None? <==> forall k :: 0 <= k < |jobs| ==> jobs[k].submit.None?
    ensures m.Some? ==> forall k :: 0 <= k < |jobs| && jobs[k].submit.Some? ==> jobs[k].submit.value <= m.value
    ensures m.Some? ==> exists k :: 0 <= k < |jobs| && jobs[k].submit == m
  {
    if jobs == [] then None
    else
      var rest := LastSubmit(jobs[..|jobs| - 1]);
      var s := jobs[|jobs| - 1].submit;
      if s.None? then rest
      else if rest.None? || s.value > rest.value then s
      else rest
  }

  /** `time_points`: hourly from the first to the last submission.
      `pd.date_range` refuses a NaT end, so jobs without any submit time
      stop the script with ValueError. Otherwise the first point is a
      submission and every submission falls before the hour after the
      last point. */
  function TimePoints(jobs: seq<Job>): (r: Result<seq<int>>)
    ensures r.Err? <==> forall k :: 0 <= k < |jobs| ==> jobs[k].submit.None?
    ensures r.Err? ==> r.message == "ValueError"
    ensures r.Ok? ==> |r.value| > 0 && exists k :: 0 <= k < |jobs| && jobs[k].submit == Some(r.value[0])
    ensures r.Ok? ==> forall k :: 0 <= k < |jobs| && jobs[k].submit.Some? ==>
      r.value[0] <= jobs[k].submit.value < r.value[|r.value| - 1] + Hour
  {
    var first := FirstSubmit(jobs);
    var last := LastSubmit(jobs);
    if first.None? then Err("ValueError")
    else Ok(HourTicks(first.value, last.value))
  }

  // ---------------------------------------------------------------------
  // The three job sets at a tick

  /** Submitted in the hour before `t`: t - 1h <= submit < t. */
  predicate SubmittedBefore(j: Job, t: int)
  {
    j.submit.Some? && t - Hour <= j.submit.value < t
  }

  /** Waiting at `t`: submit <= t < start. */
  predicate Queued(j: Job, t: int)
  {
    j.submit.Some? && j.start.Some? && j.submit.value <= t < j.start.value
  }

  /** Running at `t`: start <= t < end. */
  predicate RunningAt(j: Job, t: int)
  {
    j.start.Some? && j.end.Some? && ActiveAt(j.start.value, j.end.value, t)
  }

  function CountWhere(jobs: seq<Job>, t: int, p: (Job, int) -> bool): (c: nat)
    ensures c <= |jobs|
  {
    if jobs == [] then 0 else CountWhere(jobs[..|jobs| - 1], t, p) + (if p(jobs[|jobs| - 1], t) then 1 else 0)
  }

  /** Hours waited by a queued job. */
  function QueueHours(j: Job): real
    requires j.submit.Some? && j.start.Some?
  {
    (j.start.value - j.submit.value) as real / Hour as real
  }

  function QueuedHoursSum(jobs: seq<Job>, t: int): real
  {
    if jobs == [] then 0.0
    else
      var j := jobs[|jobs| - 1];
      QueuedHoursSum(jobs[..|jobs| - 1], t) + (if Queued(j, t) then QueueHours(j) else 0.0)
  }

  /** Mean queue time of the waiting jobs, 0 when none wait. */
  function AvgQueueHours(jobs: seq<Job>, t: int): real
  {
    var n := CountWhere(jobs, t, Queued);
    if n > 0 then QueuedHoursSum(jobs, t) / n as real else 0.0
  }

  datatype Point = Point(time: int, submissionRate: nat, queueLength: nat, avgQueueHours: real, running: nat)

  function PointAt(jobs: seq<Job>, t: int): Point
  {
    Point(t, CountWhere(jobs, t, SubmittedBefore), CountWhere(jobs, t, Queued),
          AvgQueueHours(jobs, t), CountWhere(jobs, t, RunningAt))
  }

  function SeriesOf(jobs: seq<Job>, ticks: seq<int>): (ps: seq<Point>)
    ensures |ps| == |ticks|
    ensures forall k :: 0 <= k < |ticks| ==> ps[k] == PointAt(jobs, ticks[k])
  {
    seq(|ticks|, k requires 0 <= k < |ticks| => PointAt(jobs, ticks[k]))
  }

  /** The sampling loop over `time_points`. */
  method SampleSeries(jobs: seq<Job>, ticks: seq<int>) returns (points: seq<Point>)
    ensures points == SeriesOf(jobs, ticks)
  {
    points := [];
    for i := 0 to |ticks|
      invariant points == SeriesOf(jobs, ticks[..i])
    {
      var t := ticks[i];
      var rate := CountWhere(jobs, t, SubmittedBefore);
      var queueLength := CountWhere(jobs, t, Queued);
      var avgWait := 0.0;
      if queueLength > 0 {
        avgWait := QueuedHoursSum(jobs, t) / queueLength as real;
      }
      var running := CountWhere(jobs, t, RunningAt);
      points := points + [Point(t, rate, queueLength, avgWait, running)];
    }
    assert ticks[..|ticks|] == ticks;
  }

  /** Each queued job has waited a positive time, so the mean queue time is
      positive exactly when the queue is not empty. */
  lemma {:induction false} QueuedHoursPositive(jobs: seq<Job>, t: int)
    ensures QueuedHoursSum(jobs, t) >= 0.0
    ensures QueuedHoursSum(jobs, t) > 0.0 <==> CountWhere(jobs, t, Queued) > 0
  {
    if jobs != [] {
      QueuedHoursPositive(jobs[..|jobs| - 1], t);
    }
  }

  lemma AvgQueueHoursPositive(jobs: seq<Job>, t: int)
    ensures AvgQueueHours(jobs, t) > 0.0 <==> CountWhere(jobs, t, Queued) > 0
    ensures AvgQueueHours(jobs, t) >= 0.0
  {
    QueuedHoursPositive(jobs, t);
  }

  /** A job never waits and runs at the same tick, so the queue and the
      running jobs together are at most all jobs. */
  lemma {:induction false} QueuedAndRunningDisjoint(jobs: seq<Job>, t: int)
    ensures CountWhere(jobs, t, Queued) + CountWhere(jobs, t, RunningAt) <= |jobs|
  {
    if jobs != [] {
      QueuedAndRunningDisjoint(jobs[..|jobs| - 1], t);
    }
  }

  /** The submission windows of distinct hourly ticks do not overlap: a job
      is counted in the rate of at most one tick. */
  lemma SubmissionWindowsDisjoint(j: Job, first: int, last: int, a: nat, b: nat)
    requires first <= last
    requires a < b < |HourTicks(first, last)|
    ensures !(SubmittedBefore(j, HourTicks(first, last)[a]) && SubmittedBefore(j, HourTicks(first, last)[b]))
  {
  }

  // ---------------------------------------------------------------------
  // Optimal lag

  const Lags: seq<nat> := [0, 1, 2, 3, 4, 6, 8, 12, 24]

  /** What `np.argmin` picks over correlations that may be NaN (`None`):
      the first NaN if there is one, else the first smallest value. */
  predicate IsArgMin(cs: seq<Option<real>>, k: nat)
  {
    && k < |cs|
    && ((exists i :: 0 <= i < |cs| && cs[i].None?) ==>
          cs[k].None? && forall i :: 0 <= i < k ==> cs[i].Some?)
    && ((forall i :: 0 <= i < |cs| ==> cs[i].Some?) ==>
          (forall i :: 0 <= i < |cs| ==> cs[k].value <= cs[i].value)
          && (forall i :: 0 <= i < k ==> cs[i].value > cs[k].value))
  }

  /** At most one index is picked. */
  lemma ArgMinUnique(cs: seq<Option<real>>, k: nat, m: nat)
    requires IsArgMin(cs, k) && IsArgMin(cs, m)
    ensures k == m
  {
    if exists i :: 0 <= i < |cs| && cs[i].None? {
      assert cs[k].None? && cs[m].None?;
    } else {
      assert cs[k].value <= cs[m].value && cs[m].value <= cs[k].value;
    }
  }

  /** `np.argmin` itself. */
  function ArgMin(cs: seq<Option<real>>): (k: nat)
    requires |cs| > 0
    ensures IsArgMin(cs, k)
  {
    if |cs| == 1 then 0
    else
      var k := ArgMin(cs[..|cs| - 1]);
      var last := cs[|cs| - 1];
      assert forall i :: 0 <= i < |cs| - 1 ==> cs[..|cs| - 1][i] == cs[i];
      if cs[k].None? then k
      else if last.None? then |cs| - 1
      else if last.value < cs[k].value then |cs| - 1
      else k
  }

  datatype Significance = Strong | Moderate | Weak | NotSignificant

  /** The per-lag label: |r| > 0.3, > 0.2, > 0.1; NaN gets none. */
  function SignificanceOf(corr: Option<real>): (s: Significance)
    ensures corr.None? ==> s == NotSignificant
    ensures s == Strong <==> corr.Some? && (corr.value > 0.3 || corr.value < -0.3)
  {
    if corr.None? then NotSignificant
    else
      var a := if corr.value < 0.0 then -corr.value else corr.value;
      if a > 0.3 then Strong else if a > 0.2 then Moderate else if a > 0.1 then Weak else NotSignificant
  }

  datatype Evidence = StrongEvidence | WeakEvidence | NoEvidence

  /** The closing verdict on the optimal correlation; NaN is no evidence. */
  function ConclusionOf(optimalCorr: Option<real>): (e: Evidence)
    ensures e == StrongEvidence <==> optimalCorr.Some? && optimalCorr.value < -0.2
    ensures e == WeakEvidence <==> optimalCorr.Some? && -0.2 <= optimalCorr.value < -0.1
  {
    if optimalCorr.Some? && optimalCorr.value < -0.2 then StrongEvidence
    else if optimalCorr.Some? && optimalCorr.value < -0.1 then WeakEvidence
    else NoEvidence
  }

  /** The lag and correlation picked from one correlation per lag. */
  function OptimalLag(correlations: seq<Option<real>>): (r: (nat, Option<real>))
    requires |correlations| == |Lags|
    ensures exists k: nat :: IsArgMin(correlations, k) && r == (Lags[k], correlations[k])
  {
    var k := ArgMin(correlations);
    (Lags[k], correlations[k])
  }

  /** With every correlation defined, no lag has a smaller correlation than
      the optimal one, and a strong verdict means some lag is below -0.2. */
  lemma OptimalLagIsMinimal(correlations: seq<Option<real>>)
    requires |correlations| == |Lags|
    requires forall i :: 0 <= i < |correlations| ==> correlations[i].Some?
    ensures var (lag, corr) := OptimalLag(correlations);
      && corr.Some?
      && (forall i :: 0 <= i < |correlations| ==> corr.value <= correlations[i].value)
      && (ConclusionOf(corr) == StrongEvidence <==> exists i :: 0 <= i < |correlations| && correlations[i].value < -0.2)
  {
  }

  // ---------------------------------------------------------------------
  // After extreme queue hours

  /** Indices of the hours whose queue length reaches the threshold. */
  function ExtremeHours(points: seq<Point>, threshold: real): (r: seq<nat>)
    ensures forall k :: 0 <= k < |r| ==> r[k] < |points| && points[r[k]].queueLength as real >= threshold
  {
    if points == [] then []
    else
      var rest := ExtremeHours(points[..|points| - 1], threshold);
      if points[|points| - 1].queueLength as real >= threshold then rest + [|points| - 1] else rest
  }

  /** `indices + lag` kept only below the series length. */
  function LaggedIndices(indices: seq<nat>, lag: nat, n: nat): (r: seq<nat>)
    ensures forall k :: 0 <= k < |r| ==> r[k] < n && r[k] >= lag
  {
    if indices == [] then []
    else
      var rest := LaggedIndices(indices[..|indices| - 1], lag, n);
      var i := indices[|indices| - 1];
      if i + lag < n then rest + [i + lag] else rest
  }

  /** Every look-up comes from an extreme hour `lag` hours earlier. */
  lemma {:induction false} LaggedIndicesSound(indices: seq<nat>, lag: nat, n: nat, k: nat)
    requires k < |LaggedIndices(indices, lag, n)|
    ensures LaggedIndices(indices, lag, n)[k] - lag in indices
  {
    var init, last := indices[..|indices| - 1], indices[|indices| - 1];
    var rest := LaggedIndices(init, lag, n);
    assert indices == init + [last];
    if k < |rest| {
      LaggedIndicesSound(init, lag, n, k);
    }
  }

  /** Every extreme hour whose successor `lag` hours later is inside the
      series is looked up. */
  lemma {:induction false} LaggedIndicesComplete(indices: seq<nat>, lag: nat, n: nat, j: nat)
    requires j < |indices| && indices[j] + lag < n
    ensures indices[j] + lag in LaggedIndices(indices, lag, n)
  {
    var init := indices[..|indices| - 1];
    if j < |init| {
      assert init[j] == indices[j];
      LaggedIndicesComplete(init, lag, n, j);
    }
  }

  function MeanRate(points: seq<Point>, indices: seq<nat>): real
    requires forall k :: 0 <= k < |indices| ==> indices[k] < |points|
    requires |indices| > 0
  {
    RateSum(points, indices) / |indices| as real
  }

  function RateSum(points: seq<Point>, indices: seq<nat>): real
    requires forall k :: 0 <= k < |indices| ==> indices[k] < |points|
  {
    if indices == [] then 0.0
    else RateSum(points, indices[..|indices| - 1]) + points[indices[|indices| - 1]].submissionRate as real
  }

  /** The mean submission rate `lag` hours after the extreme hours, when
      any such hour lies inside the series. */
  function RateAfterExtremes(points: seq<Point>, threshold: real, lag: nat): Option<real>
  {
    var idx := LaggedIndices(ExtremeHours(points, threshold), lag, |points|);
    if |idx| > 0 then Some(MeanRate(points, idx)) else None
  }

  /** The look-up is defined exactly when some extreme hour has a
      successor `lag` hours later inside the series. */
  lemma RateAfterExtremesDefined(points: seq<Point>, threshold: real, lag: nat)
    ensures RateAfterExtremes(points, threshold, lag).Some? <==>
      exists i :: 0 <= i < |points| - lag && points[i].queueLength as real >= threshold
  {
    if exists i :: 0 <= i < |points| - lag && points[i].queueLength as real >= threshold {
      var i :| 0 <= i < |points| - lag && points[i].queueLength as real >= threshold;
      LaggedHit(points, threshold, lag, i);
    }
    if |LaggedIndices(ExtremeHours(points, threshold), lag, |points|)| > 0 {
      var i := LaggedSource(points, threshold, lag);
    }
  }

  /** An extreme hour with a successor inside the series is looked up. */
  lemma LaggedHit(points: seq<Point>, threshold: real, lag: nat, i: nat)
    requires i + lag < |points| && points[i].queueLength as real >= threshold
    ensures |LaggedIndices(ExtremeHours(points, threshold), lag, |points|)| > 0
  {
    var ex := ExtremeHours(points, threshold);
    ExtremeHoursComplete(points, threshold, i);
    var j :| 0 <= j < |ex| && ex[j] == i;
    LaggedIndicesComplete(ex, lag, |points|, j);
  }

  /** A look-up comes from an extreme hour `lag` hours earlier. */
  lemma LaggedSource(points: seq<Point>, threshold: real, lag: nat) returns (i: nat)
    requires |LaggedIndices(ExtremeHours(points, threshold), lag, |points|)| > 0
    ensures i + lag < |points| && points[i].queueLength as real >= threshold
  {
    var ex := ExtremeHours(points, threshold);
    var idx := LaggedIndices(ex, lag, |points|);
    LaggedIndicesSound(ex, lag, |points|, 0);
    i := idx[0] - lag;
    var k :| 0 <= k < |ex| && ex[k] == i;
  }

  lemma {:induction false} ExtremeHoursComplete(points: seq<Point>, threshold: real, i: nat)
    requires i < |points| && points[i].queueLength as real >= threshold
    ensures i in ExtremeHours(points, threshold)
  {
    var init := points[..|points| - 1];
    if i < |points| - 1 {
      assert init[i] == points[i];
      ExtremeHoursComplete(init, threshold, i);
    }
  }
}
