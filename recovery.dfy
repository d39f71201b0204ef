/** analyze_cross_user_impacts_with_recovery.py: after an abandonment
    trigger, other users' activity is sampled every 30 minutes until each of
    the submission rate, the active-user count and the median wait is back
    within 20% of its level before the impact, or twelve hours have passed. */
module Recovery {
  import opened Common
  import opened CrossUserImpacts

  /** The levels measured in the hour before the impact. */
  datatype Baseline = Baseline(rate: real, users: nat, wait: real)

  /** One recovery search: all jobs, the impacting user, the impact time,
      the latest submit time of all jobs, the baseline and the median used
      for waits. */
  datatype Search = Search(jobs: seq<Job>, user: nat, impact: int, lastSubmit: int, base: Baseline, median: seq<int> -> real)

  const Interval: int := 1800
  const MaxRecoverySeconds: int := 12 * 3600

  /** The search stops at twelve hours or at the last submission, whichever
      comes first. */
  function EndTime(s: Search): (t: int)
    ensures t <= s.impact + MaxRecoverySeconds && t <= s.lastSubmit
    ensures t == s.impact + MaxRecoverySeconds || t == s.lastSubmit
  {
    if s.impact + MaxRecoverySeconds <= s.lastSubmit then s.impact + MaxRecoverySeconds else s.lastSubmit
  }

  /** `df['submit_time'].max()`: the latest submit time of all jobs. */
  function LatestSubmit(jobs: seq<Job>): (t: int)
    requires jobs != []
    ensures forall k :: 0 <= k < |jobs| ==> jobs[k].submit <= t
    ensures exists k :: 0 <= k < |jobs| && t == jobs[k].submit
  {
    if |jobs| == 1 then jobs[0].submit
    else
      var rest := LatestSubmit(jobs[..|jobs| - 1]);
      var last := jobs[|jobs| - 1].submit;
      if last > rest then last else rest
  }

  /** Start of the `k`-th sample window. */
  function Start(s: Search, k: nat): int
  {
    s.impact + Interval * k
  }

  /** Hours since the impact at the `k`-th sample. */
  function Elapsed(k: nat): real
  {
    (Interval * k) as real / 3600.0
  }

  /** Other users' submissions in the hour from the `k`-th sample on. */
  function WindowJobs(s: Search, k: nat): seq<Job>
  {
    Others(s.jobs, s.user, Start(s, k), Start(s, k) + 3600)
  }

  datatype Metric = Rate | ActiveUsers | WaitTime

  /** Window `k` has enough data and shows metric `m` within 20% of the
      baseline: rate and users at least 80% of it, wait at most 120%. */
  predicate Meets(s: Search, m: Metric, k: nat)
  {
    var w := WindowJobs(s, k);
    && |w| >= MinWindowJobs
    && match m
       case Rate => |w| as real / 1.0 >= s.base.rate * 0.80
       case ActiveUsers => |Users(w)| as real >= s.base.users as real * 0.80
       case WaitTime => s.median(Waits(w)) / 60.0 <= s.base.wait * 1.20
  }

  /** The first of windows 0 .. k − 1 where `m` recovered. */
  function FirstMet(s: Search, m: Metric, k: nat): Option<nat>
  {
    if k == 0 then None
    else
      var earlier := FirstMet(s, m, k - 1);
      if earlier.Some? then earlier
      else if Meets(s, m, k - 1) then Some(k - 1)
      else None
  }

  lemma {:induction false} FirstMetMeaning(s: Search, m: Metric, k: nat)
    ensures FirstMet(s, m, k).Some? ==>
      var j := FirstMet(s, m, k).value;
      j < k && Meets(s, m, j) && forall i :: 0 <= i < j ==> !Meets(s, m, i)
    ensures FirstMet(s, m, k).None? ==> forall i :: 0 <= i < k ==> !Meets(s, m, i)
  {
    if k > 0 {
      FirstMetMeaning(s, m, k - 1);
    }
  }

  /** The per-metric columns the source adds to each event. */
  datatype RecoveryTimes = RecoveryTimes(
    rateHours: Option<real>, usersHours: Option<real>, waitHours: Option<real>, fullHours: Option<real>,
    rateRecovered: bool, usersRecovered: bool, waitRecovered: bool, fullyRecovered: bool)

  const NoRecovery := RecoveryTimes(None, None, None, None, false, false, false, false)

  function HoursOf(j: Option<nat>): Option<real>
  {
    match j
    case Some(k) => Some(Elapsed(k))
    case None => None
  }

  /** The columns after windows 0 .. k − 1, before full recovery. */
  function Partial(s: Search, k: nat): RecoveryTimes
  {
    var r := FirstMet(s, Rate, k);
    var u := FirstMet(s, ActiveUsers, k);
    var w := FirstMet(s, WaitTime, k);
    RecoveryTimes(HoursOf(r), HoursOf(u), HoursOf(w), None, r.Some?, u.Some?, w.Some?, false)
  }

  predicate AllMet(s: Search, k: nat)
  {
    FirstMet(s, Rate, k).Some? && FirstMet(s, ActiveUsers, k).Some? && FirstMet(s, WaitTime, k).Some?
  }

  /** The columns once all three recovered within windows 0 .. k − 1: full
      recovery is the latest of the three. */
  function Full(s: Search, k: nat): RecoveryTimes
    requires AllMet(s, k)
  {
    var p := Partial(s, k);
    p.(fullHours := Some(MaxReal(p.rateHours.value, MaxReal(p.usersHours.value, p.waitHours.value))), fullyRecovered := true)
  }

  /** The outcome of the search from window `k` on. */
  function RecoverFrom(s: Search, k: nat): RecoveryTimes
    requires !AllMet(s, k)
    decreases EndTime(s) - Start(s, k)
  {
    if Start(s, k) >= EndTime(s) then Partial(s, k)
    else if AllMet(s, k + 1) then Full(s, k + 1)
    else RecoverFrom(s, k + 1)
  }

  /** One pass of the sampling loop at window `k`: each metric not yet
      recovered is stamped with the elapsed hours if the window has enough
      jobs and shows it back within 20%. */
  method SampleWindow(s: Search, k: nat, rec: RecoveryTimes) returns (next: RecoveryTimes, enough: bool)
    requires rec == Partial(s, k)
    ensures next == Partial(s, k + 1)
    ensures enough <==> |WindowJobs(s, k)| >= MinWindowJobs
  {
    var current := s.impact + Interval * k;
    var w := Others(s.jobs, s.user, current, current + 3600);
    assert w == WindowJobs(s, k);
    next := rec;
    enough := |w| >= MinWindowJobs;
    if enough {
      var rate := |w| as real / 1.0;
      var users := |Users(w)|;
      var wait := s.median(Waits(w)) / 60.0;
      var elapsed := (current - s.impact) as real / 3600.0;
      assert elapsed == Elapsed(k);
      if !next.rateRecovered && rate >= s.base.rate * 0.80 {
        next := next.(rateHours := Some(elapsed), rateRecovered := true);
      }
      if !next.usersRecovered && users as real >= s.base.users as real * 0.80 {
        next := next.(usersHours := Some(elapsed), usersRecovered := true);
      }
      if !next.waitRecovered && wait <= s.base.wait * 1.20 {
        next := next.(waitHours := Some(elapsed), waitRecovered := true);
      }
    }
  }

  /** `calculate_recovery_time`: the 30-minute sampling loop. */
  method CalculateRecoveryTime(s: Search) returns (rec: RecoveryTimes)
    ensures rec == RecoverFrom(s, 0)
  {
    rec := NoRecovery;
    var k: nat := 0;
    var current := s.impact;
    var endTime := EndTime(s);
    while current < endTime
      invariant current == Start(s, k)
      invariant !AllMet(s, k)
      invariant rec == Partial(s, k)
      invariant RecoverFrom(s, k) == RecoverFrom(s, 0)
      decreases endTime - current
    {
      var enough;
      rec, enough := SampleWindow(s, k, rec);
      if enough && rec.rateRecovered && rec.usersRecovered && rec.waitRecovered {
        assert AllMet(s, k + 1);
        if rec.fullHours.None? {
          rec := rec.(fullHours := Some(MaxReal(rec.rateHours.value, MaxReal(rec.usersHours.value, rec.waitHours.value))),
                      fullyRecovered := true);
        }
        return;
      }
      k := k + 1;
      current := current + Interval;
    }
  }

  /** Where the search stopped: after `n` windows, each of which started
      before the end time. */
  lemma {:induction false} RecoverFromStops(s: Search, k: nat) returns (n: nat)
    requires !AllMet(s, k)
    ensures k <= n
    ensures n == k || Start(s, n - 1) < EndTime(s)
    ensures AllMet(s, n) ==> RecoverFrom(s, k) == Full(s, n)
    ensures !AllMet(s, n) ==> RecoverFrom(s, k) == Partial(s, n) && Start(s, n) >= EndTime(s)
    decreases EndTime(s) - Start(s, k)
  {
    if Start(s, k) >= EndTime(s) {
      n := k;
    } else if AllMet(s, k + 1) {
      n := k + 1;
    } else {
      n := RecoverFromStops(s, k + 1);
    }
  }

  /** The recovered flags and the hours go together; full recovery is
      reported exactly when all three metrics recovered, at the latest of
      the three. */
  lemma RecoveryConsistent(s: Search)
    ensures var r := RecoverFrom(s, 0);
      && (r.rateRecovered <==> r.rateHours.Some?)
      && (r.usersRecovered <==> r.usersHours.Some?)
      && (r.waitRecovered <==> r.waitHours.Some?)
      && (r.fullyRecovered <==> r.fullHours.Some?)
      && (r.fullyRecovered <==> r.rateRecovered && r.usersRecovered && r.waitRecovered)
      && (r.fullyRecovered ==> r.fullHours.value == MaxReal(r.rateHours.value, MaxReal(r.usersHours.value, r.waitHours.value)))
  {
    var n := RecoverFromStops(s, 0);
  }

  /** Every reported recovery hour is that of the first qualifying window,
      a multiple of half an hour, below twelve hours. */
  lemma RecoveryHoursAreFirst(s: Search, m: Metric)
    ensures var r := RecoverFrom(s, 0);
      var h := match m case Rate => r.rateHours case ActiveUsers => r.usersHours case WaitTime => r.waitHours;
      h.Some? ==> exists j: nat ::
        && h.value == Elapsed(j) && Start(s, j) < EndTime(s)
        && Meets(s, m, j) && (forall i :: 0 <= i < j ==> !Meets(s, m, i))
        && h.value < 12.0
  {
    var n := RecoverFromStops(s, 0);
    FirstMetMeaning(s, m, n);
    var f := FirstMet(s, m, n);
    if f.Some? {
      var j := f.value;
      assert Start(s, j) <= Start(s, n - 1);
      assert Interval * j < MaxRecoverySeconds;
      assert j < 24;
      assert Elapsed(j) < 12.0;
    }
  }

  /** No window before the end time shows `m` recovered. */
  ghost predicate NeverMet(s: Search, m: Metric)
  {
    forall j: nat :: Start(s, j) < EndTime(s) ==> !Meets(s, m, j)
  }

  /** A search that ends without full recovery leaves some metric that no
      window before the end time brought back. */
  lemma NotRecoveredMeansNoWindow(s: Search)
    requires !RecoverFrom(s, 0).fullyRecovered
    ensures exists m: Metric :: NeverMet(s, m)
  {
    var n := RecoverFromStops(s, 0);
    assert !AllMet(s, n);
    var m: Metric := if FirstMet(s, Rate, n).None? then Rate
      else if FirstMet(s, ActiveUsers, n).None? then ActiveUsers
      else WaitTime;
    FirstMetMeaning(s, m, n);
    forall j: nat | Start(s, j) < EndTime(s)
      ensures !Meets(s, m, j)
    {
      assert j < n;
    }
    assert NeverMet(s, m);
  }

  // ---------------------------------------------------------------------
  // The events with recovery columns

  datatype RecoveryEvent = RecoveryEvent(event: Event, recovery: RecoveryTimes)

  /** The event of one high-impact job, with the recovery search run only
      for abandonment triggers and started from the before-window levels. */
  function RecoveryEventFor(jobs: seq<Job>, lastSubmit: int, j: Job, median: seq<int> -> real): Option<RecoveryEvent>
  {
    match EventFor(jobs, j, median)
    case None => None
    case Some(e) =>
      if e.trigger then
        Some(RecoveryEvent(e, RecoverFrom(Search(jobs, j.user, j.start, lastSubmit, Baseline(e.rateBefore, e.usersBefore, e.waitBefore), median), 0)))
      else Some(RecoveryEvent(e, NoRecovery))
  }

  /** An event that is not a trigger reports no recovery at all. */
  lemma NonTriggerNoRecovery(jobs: seq<Job>, lastSubmit: int, j: Job, median: seq<int> -> real)
    requires RecoveryEventFor(jobs, lastSubmit, j, median).Some?
    ensures var r := RecoveryEventFor(jobs, lastSubmit, j, median).value;
      && Some(r.event) == EventFor(jobs, j, median)
      && (!r.event.trigger ==> r.recovery == NoRecovery)
      && (r.recovery.fullyRecovered ==> r.event.trigger)
  {
  }

  function RecoveryEventsOf(jobs: seq<Job>, lastSubmit: int, sample: seq<Job>, median: seq<int> -> real): (r: seq<RecoveryEvent>)
    ensures |r| <= |sample|
    ensures forall k :: 0 <= k < |r| ==> exists i :: 0 <= i < |sample| && RecoveryEventFor(jobs, lastSubmit, sample[i], median) == Some(r[k])
  {
    if sample == [] then []
    else
      var rest := RecoveryEventsOf(jobs, lastSubmit, sample[..|sample| - 1], median);
      match RecoveryEventFor(jobs, lastSubmit, sample[|sample| - 1], median)
      case None => rest
      case Some(e) => rest + [e]
  }

  /** One more sampled job appends its event when it has one, and leaves
      the list unchanged when it is skipped. */
  lemma RecoveryEventsOfStep(jobs: seq<Job>, lastSubmit: int, sample: seq<Job>, i: nat, median: seq<int> -> real)
    requires i < |sample|
    ensures RecoveryEventFor(jobs, lastSubmit, sample[i], median).None? ==>
      RecoveryEventsOf(jobs, lastSubmit, sample[..i + 1], median) == RecoveryEventsOf(jobs, lastSubmit, sample[..i], median)
    ensures RecoveryEventFor(jobs, lastSubmit, sample[i], median).Some? ==>
      RecoveryEventsOf(jobs, lastSubmit, sample[..i + 1], median)
        == RecoveryEventsOf(jobs, lastSubmit, sample[..i], median) + [RecoveryEventFor(jobs, lastSubmit, sample[i], median).value]
  {
    assert sample[..i + 1][..i] == sample[..i];
  }

  /** A sampled job whose event is found contributes that event. */
  lemma {:induction false} RecoveryEventsOfComplete(jobs: seq<Job>, lastSubmit: int, sample: seq<Job>, i: nat, median: seq<int> -> real)
    requires i < |sample| && RecoveryEventFor(jobs, lastSubmit, sample[i], median).Some?
    ensures RecoveryEventFor(jobs, lastSubmit, sample[i], median).value in RecoveryEventsOf(jobs, lastSubmit, sample, median)
  {
    if i < |sample| - 1 {
      RecoveryEventsOfComplete(jobs, lastSubmit, sample[..|sample| - 1], i, median);
    }
  }

  /** `analyze_impact_events_with_recovery`: only the top 100 jobs, each
      searched up to the latest submit time of all jobs; the ranked jobs
      are drawn from the jobs. */
  method AnalyzeImpactEventsWithRecovery(jobs: seq<Job>, ranked: seq<Job>, median: seq<int> -> real)
    returns (events: seq<RecoveryEvent>)
    requires forall k :: 0 <= k < |ranked| ==> ranked[k] in jobs
    ensures jobs != [] && ranked != [] ==> events == RecoveryEventsOf(jobs, LatestSubmit(jobs), Sample(ranked, 100), median)
    ensures ranked == [] ==> events == []
    ensures |events| <= 100
  {
    events := [];
    if ranked == [] {
      return;
    }
    assert ranked[0] in jobs;
    var lastSubmit := LatestSubmit(jobs);
    var sample := Sample(ranked, 100);
    for i := 0 to |sample|
      invariant events == RecoveryEventsOf(jobs, lastSubmit, sample[..i], median)
    {
      RecoveryEventsOfStep(jobs, lastSubmit, sample, i, median);
      var e := RecoveryEventFor(jobs, lastSubmit, sample[i], median);
      if e.Some? {
        events := events + [e.value];
      }
    }
    assert sample[..|sample|] == sample;
  }
}
