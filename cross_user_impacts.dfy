/** analyze_cross_user_impacts.py: which jobs count as high-impact, how
    other users' submissions before and after such a job are compared, when
    the comparison is read as an abandonment trigger, and the rules that
    grade and group those events. */
module CrossUserImpacts {
  import opened Common

  /** A job row: timestamps in seconds, `user` an opaque id. */
  datatype Job = Job(id: nat, user: nat, submit: int, start: int, end: int, cpus: nat)

  function Runtime(j: Job): int
  {
    j.end - j.start
  }

  function Wait(j: Job): int
  {
    j.start - j.submit
  }

  /** Jobs are kept when they ran for a positive time and did not start
      before they were submitted. */
  predicate Valid(j: Job)
  {
    Runtime(j) > 0 && Wait(j) >= 0
  }

  function CpuHours(j: Job): real
  {
    (j.cpus * Runtime(j)) as real / 3600.0
  }

  lemma ValidJobFacts(j: Job)
    requires Valid(j)
    ensures CpuHours(j) >= 0.0
    ensures j.cpus > 0 ==> CpuHours(j) > 0.0
  {
    assert j.cpus * Runtime(j) >= 0;
    if j.cpus > 0 {
      assert j.cpus * Runtime(j) >= Runtime(j);
    }
  }

  // ---------------------------------------------------------------------
  // High-impact jobs and their score

  /** The CPU bar: the 90th percentile, raised to a tenth of the cluster
      when the cluster's CPU total is known. */
  function HighCpuThreshold(p90Cpus: real, totalCpus: Option<nat>): (t: real)
    ensures t >= p90Cpus
    ensures totalCpus.Some? ==> t >= totalCpus.value as real * 0.10
    ensures t == p90Cpus || (totalCpus.Some? && t == totalCpus.value as real * 0.10)
  {
    match totalCpus
    case Some(total) => MaxReal(p90Cpus, total as real * 0.10)
    case None => p90Cpus
  }

  /** The three percentile tests; any one of them makes a job high-impact. */
  predicate HighImpact(j: Job, p90Cpus: real, p95Runtime: real, p90CpuHours: real, totalCpus: Option<nat>)
  {
    || j.cpus as real >= HighCpuThreshold(p90Cpus, totalCpus)
    || Runtime(j) as real >= p95Runtime
    || CpuHours(j) >= p90CpuHours
  }

  /** Knowing the cluster size can only raise the CPU bar, so it never adds
      a high-impact job. */
  lemma ConfigOnlyNarrows(j: Job, p90Cpus: real, p95Runtime: real, p90CpuHours: real, total: nat)
    ensures HighImpact(j, p90Cpus, p95Runtime, p90CpuHours, Some(total)) ==> HighImpact(j, p90Cpus, p95Runtime, p90CpuHours, None)
  {
  }

  /** `x / max * 100` clipped to [0, 100]; `None` is the NaN of 0 / 0,
      the only case when the column maximum is 0. */
  function ComponentScore(x: real, max: real): (r: Option<real>)
    requires 0.0 <= x <= max
    ensures r.None? <==> max == 0.0
    ensures r.Some? ==> 0.0 <= r.value <= 100.0 && r.value * max == x * 100.0
  {
    if max > 0.0 then
      var raw := x / max * 100.0;
      assert raw * max == x * 100.0;
      assert raw <= 100.0 by {
        assert x / max <= 1.0;
      }
      Some(Clip(raw, 0.0, 100.0))
    else None
  }

  /** The weighted impact score. */
  function ImpactScore(cpuScore: real, runtimeScore: real, cpuHoursScore: real): real
  {
    cpuScore * 0.3 + runtimeScore * 0.3 + cpuHoursScore * 0.4
  }

  /** The weights add up to one, so the score stays within [0, 100] and
      never exceeds the largest component. */
  lemma ImpactScoreBounds(a: real, b: real, c: real)
    requires 0.0 <= a <= 100.0 && 0.0 <= b <= 100.0 && 0.0 <= c <= 100.0
    ensures 0.0 <= ImpactScore(a, b, c) <= 100.0
    ensures ImpactScore(a, b, c) <= MaxReal(a, MaxReal(b, c))
    ensures a == b == c ==> ImpactScore(a, b, c) == a
  {
  }

  // ---------------------------------------------------------------------
  // Before and after windows

  const WindowBefore: int := 3600
  const WindowAfter: int := 7200
  const MinWindowJobs: nat := 5

  /** Jobs of users other than `user` submitted in [lo, hi). */
  function Others(jobs: seq<Job>, user: nat, lo: int, hi: int): (r: seq<Job>)
    ensures |r| <= |jobs|
    ensures forall k :: 0 <= k < |r| ==> r[k].user != user && lo <= r[k].submit < hi && r[k] in jobs
  {
    if jobs == [] then []
    else
      var rest := Others(jobs[..|jobs| - 1], user, lo, hi);
      var j := jobs[|jobs| - 1];
      assert forall x :: x in jobs[..|jobs| - 1] ==> x in jobs;
      if j.user != user && lo <= j.submit < hi then rest + [j] else rest
  }

  /** A job of another user submitted in the window is counted. */
  lemma {:induction false} OthersComplete(jobs: seq<Job>, user: nat, lo: int, hi: int, k: nat)
    requires k < |jobs| && jobs[k].user != user && lo <= jobs[k].submit < hi
    ensures jobs[k] in Others(jobs, user, lo, hi)
  {
    if k < |jobs| - 1 {
      OthersComplete(jobs[..|jobs| - 1], user, lo, hi, k);
    }
  }

  /** Every job of another user submitted in [lo, hi), as often as the input
      holds it, and no other: the window's row count is exact. */
  lemma {:induction false} OthersMultiset(jobs: seq<Job>, user: nat, lo: int, hi: int)
    ensures forall x :: multiset(Others(jobs, user, lo, hi))[x] == if x.user != user && lo <= x.submit < hi then multiset(jobs)[x] else 0
  {
    if jobs != [] {
      OthersMultiset(jobs[..|jobs| - 1], user, lo, hi);
      MultisetOfLast(jobs);
    }
  }

  /** The before and after windows never share a job: [t − 1h, t) and
      [t, t + 2h) are disjoint. */
  lemma WindowsDisjoint(jobs: seq<Job>, user: nat, t: int, j: Job)
    ensures !(j in Others(jobs, user, t - WindowBefore, t) && j in Others(jobs, user, t, t + WindowAfter))
  {
  }

  /** `nunique()` of the users. */
  function Users(s: seq<Job>): set<nat>
  {
    set k | 0 <= k < |s| :: s[k].user
  }

  lemma UsersBound(s: seq<Job>)
    ensures |Users(s)| <= |s|
    ensures |s| > 0 ==> |Users(s)| >= 1
  {
    if s != [] {
      assert s[0].user in Users(s);
      UsersBoundRec(s);
    }
  }

  lemma {:induction false} UsersBoundRec(s: seq<Job>)
    ensures |Users(s)| <= |s|
  {
    if s != [] {
      var init := s[..|s| - 1];
      UsersBoundRec(init);
      assert Users(s) == Users(init) + {s[|s| - 1].user} by {
        forall u | u in Users(s) ensures u in Users(init) + {s[|s| - 1].user} {
          var k :| 0 <= k < |s| && s[k].user == u;
          if k < |s| - 1 {
            assert init[k].user == u;
          }
        }
      }
    }
  }

  function Waits(s: seq<Job>): (w: seq<int>)
    ensures |w| == |s|
  {
    seq(|s|, k requires 0 <= k < |s| => Wait(s[k]))
  }

  /** Percentage change from `before` to `after`; 0 when there is no
      baseline. */
  function PctChange(before: real, after: real): (r: real)
    ensures before > 0.0 ==> r * before == (after - before) * 100.0
    ensures before <= 0.0 ==> r == 0.0
  {
    if before > 0.0 then (after - before) / before * 100.0 else 0.0
  }

  /** A drop of more than 25% in the submission rate or of more than 20% in
      the number of active users. */
  predicate AbandonmentTrigger(submitRateChange: real, usersChange: real)
  {
    submitRateChange < -25.0 || usersChange < -20.0
  }

  datatype Event = Event(
    job: Job,
    rateBefore: real, rateAfter: real, rateChange: real,
    waitBefore: real, waitAfter: real, waitChange: real,
    usersBefore: nat, usersAfter: nat, usersChange: real,
    trigger: bool)

  /** The comparison of two windows for job `j`; `median` stands for
      pandas' median. */
  function Compare(j: Job, before: seq<Job>, after: seq<Job>, median: seq<int> -> real): Event
  {
    var rateBefore := |before| as real / 1.0;
    var rateAfter := |after| as real / 2.0;
    var waitBefore := median(Waits(before)) / 60.0;
    var waitAfter := median(Waits(after)) / 60.0;
    var usersBefore := |Users(before)|;
    var usersAfter := |Users(after)|;
    var rateChange := PctChange(rateBefore, rateAfter);
    var usersChange := PctChange(usersBefore as real, usersAfter as real);
    Event(j, rateBefore, rateAfter, rateChange, waitBefore, waitAfter, PctChange(waitBefore, waitAfter),
      usersBefore, usersAfter, usersChange, AbandonmentTrigger(rateChange, usersChange))
  }

  /** The before/after comparison for one high-impact job starting at its
      start time; `None` when either window has fewer than five jobs of
      other users. */
  function EventFor(jobs: seq<Job>, j: Job, median: seq<int> -> real): Option<Event>
  {
    var t := j.start;
    var before := Others(jobs, j.user, t - WindowBefore, t);
    var after := Others(jobs, j.user, t, t + WindowAfter);
    if |before| < MinWindowJobs || |after| < MinWindowJobs then None
    else Some(Compare(j, before, after, median))
  }

  /** With a positive baseline the change can only reach −100% when the
      new value is 0. */
  lemma ChangeAboveMinusHundred(before: real, after: real)
    requires before > 0.0 && after > 0.0
    ensures PctChange(before, after) > -100.0
  {
    var c := PctChange(before, after);
    assert (c + 100.0) * before == after * 100.0;
  }

  lemma CompareFacts(j: Job, before: seq<Job>, after: seq<Job>, median: seq<int> -> real)
    requires |before| >= MinWindowJobs && |after| >= MinWindowJobs
    ensures var e := Compare(j, before, after, median);
      && e.job == j
      && e.rateBefore >= 5.0 && e.rateAfter >= 2.5
      && e.rateChange > -100.0
      && e.usersBefore >= 1 && e.usersAfter >= 1
      && (e.trigger <==> e.rateChange < -25.0 || e.usersChange < -20.0)
  {
    UsersBound(before);
    UsersBound(after);
    ChangeAboveMinusHundred(|before| as real / 1.0, |after| as real / 2.0);
  }

  /** What every recorded event satisfies: at least five jobs of other
      users in each window, so the rates are at least 5 and 2.5 per hour and
      the submission-rate change is above −100%; the trigger is the rule
      above. */
  lemma EventFacts(jobs: seq<Job>, j: Job, median: seq<int> -> real)
    requires EventFor(jobs, j, median).Some?
    ensures var e := EventFor(jobs, j, median).value;
      && e.job == j
      && e.rateBefore >= 5.0 && e.rateAfter >= 2.5
      && e.rateChange > -100.0
      && e.usersBefore >= 1 && e.usersAfter >= 1
      && (e.trigger <==> e.rateChange < -25.0 || e.usersChange < -20.0)
  {
    var t := j.start;
    CompareFacts(j, Others(jobs, j.user, t - WindowBefore, t), Others(jobs, j.user, t, t + WindowAfter), median);
  }

  /** The high-impact jobs examined: the first `min(limit, n)` of the jobs
      ranked by descending impact score. */
  function Sample(ranked: seq<Job>, limit: nat): (s: seq<Job>)
    ensures |s| <= limit && |s| <= |ranked| && s == ranked[..|s|]
    ensures |s| == limit || |s| == |ranked|
  {
    if |ranked| <= limit then ranked else ranked[..limit]
  }

  /** The events of some sampled jobs, skipped jobs left out. */
  function EventsOf(jobs: seq<Job>, sample: seq<Job>, median: seq<int> -> real): (r: seq<Event>)
    ensures |r| <= |sample|
    ensures forall k :: 0 <= k < |r| ==> exists i :: 0 <= i < |sample| && EventFor(jobs, sample[i], median) == Some(r[k])
  {
    if sample == [] then []
    else
      var rest := EventsOf(jobs, sample[..|sample| - 1], median);
      match EventFor(jobs, sample[|sample| - 1], median)
      case None => rest
      case Some(e) => rest + [e]
  }

  /** `analyze_impact_events`: the loop over the top 1000 high-impact jobs. */
  method AnalyzeImpactEvents(jobs: seq<Job>, ranked: seq<Job>, median: seq<int> -> real) returns (events: seq<Event>)
    ensures events == EventsOf(jobs, Sample(ranked, 1000), median)
    ensures |events| <= 1000
  {
    var sample := Sample(ranked, 1000);
    events := [];
    for i := 0 to |sample|
      invariant events == EventsOf(jobs, sample[..i], median)
    {
      EventsOfStep(jobs, sample, i, median);
      var e := EventFor(jobs, sample[i], median);
      if e.Some? {
        events := events + [e.value];
      }
    }
    assert sample[..|sample|] == sample;
  }

  /** A sampled job whose event is found contributes that event. */
  lemma {:induction false} EventsOfComplete(jobs: seq<Job>, sample: seq<Job>, i: nat, median: seq<int> -> real)
    requires i < |sample| && EventFor(jobs, sample[i], median).Some?
    ensures EventFor(jobs, sample[i], median).value in EventsOf(jobs, sample, median)
  {
    if i < |sample| - 1 {
      EventsOfComplete(jobs, sample[..|sample| - 1], i, median);
    }
  }

  /** One more sampled job adds its event, if it has one. */
  lemma EventsOfStep(jobs: seq<Job>, sample: seq<Job>, i: nat, median: seq<int> -> real)
    requires i < |sample|
    ensures EventFor(jobs, sample[i], median).None? ==> EventsOf(jobs, sample[..i + 1], median) == EventsOf(jobs, sample[..i], median)
    ensures EventFor(jobs, sample[i], median).Some? ==>
      EventsOf(jobs, sample[..i + 1], median) == EventsOf(jobs, sample[..i], median) + [EventFor(jobs, sample[i], median).value]
  {
    assert sample[..i + 1][..i] == sample[..i];
  }

  // ---------------------------------------------------------------------
  // Severity and time of day of the triggers

  datatype Severity = Severe | High | Moderate | Mild

  /** `pd.cut` with bins −100, −50, −40, −30, 0: right-closed intervals, a
      value outside (−100, 0] getting no label. */
  function SeverityOf(change: real): (r: Option<Severity>)
    ensures r.Some? <==> -100.0 < change <= 0.0
    ensures r == Some(Severe) <==> -100.0 < change <= -50.0
    ensures r == Some(Mild) <==> -30.0 < change <= 0.0
  {
    if -100.0 < change <= -50.0 then Some(Severe)
    else if -50.0 < change <= -40.0 then Some(High)
    else if -40.0 < change <= -30.0 then Some(Moderate)
    else if -30.0 < change <= 0.0 then Some(Mild)
    else None
  }

  /** Every recorded event whose submission rate did not rise gets a
      severity, since its change is above −100%; a trigger set off only by
      the users' drop, with the rate rising, gets none. */
  lemma SeverityOfEvents(jobs: seq<Job>, j: Job, median: seq<int> -> real)
    requires EventFor(jobs, j, median).Some?
    ensures var e := EventFor(jobs, j, median).value;
      && (e.rateChange <= 0.0 ==> SeverityOf(e.rateChange).Some?)
      && (e.rateChange > 0.0 ==> SeverityOf(e.rateChange).None?)
      && (e.rateChange < -25.0 ==> e.trigger && SeverityOf(e.rateChange).Some?)
  {
    EventFacts(jobs, j, median);
  }

  datatype TimeOfDay = Night | Morning | Afternoon | Evening

  /** `pd.cut` with bins 0, 6, 12, 18, 24 and `include_lowest`: [0, 6],
      (6, 12], (12, 18], (18, 24]. */
  function TimeOfDayOf(hour: int): (r: Option<TimeOfDay>)
    ensures r.Some? <==> 0 <= hour <= 24
  {
    if 0 <= hour <= 6 then Some(Night)
    else if 6 < hour <= 12 then Some(Morning)
    else if 12 < hour <= 18 then Some(Afternoon)
    else if 18 < hour <= 24 then Some(Evening)
    else None
  }

  /** The boundary hours belong to the earlier block: 6 is night and 12
      morning. */
  lemma TimeOfDayBoundaries()
    ensures TimeOfDayOf(0) == Some(Night) && TimeOfDayOf(6) == Some(Night) && TimeOfDayOf(7) == Some(Morning)
    ensures TimeOfDayOf(12) == Some(Morning) && TimeOfDayOf(18) == Some(Afternoon) && TimeOfDayOf(23) == Some(Evening)
  {
  }

  /** The four-hour blocks of the temporal table, each [start, end). */
  const HourBlocks: seq<(int, int)> := [(0, 4), (4, 8), (8, 12), (12, 16), (16, 20), (20, 24)]

  /** Every hour of the day falls in exactly one block. */
  lemma HourBlocksPartitionDay(hour: int)
    requires 0 <= hour < 24
    ensures exists b :: 0 <= b < |HourBlocks| && HourBlocks[b].0 <= hour < HourBlocks[b].1
    ensures forall b, c :: 0 <= b < c < |HourBlocks| ==>
      !(HourBlocks[b].0 <= hour < HourBlocks[b].1 && HourBlocks[c].0 <= hour < HourBlocks[c].1)
  {
    var b := hour / 4;
    assert HourBlocks[b] == (4 * b, 4 * b + 4);
  }

  /** Share of a group of events that are triggers. */
  function TriggerRate(triggers: nat, events: nat): (r: real)
    requires 0 < events && triggers <= events
    ensures 0.0 <= r <= 100.0
    ensures r == 100.0 <==> triggers == events
  {
    var r := triggers as real / events as real * 100.0;
    assert r * events as real == triggers as real * 100.0;
    r
  }

  // ---------------------------------------------------------------------
  // Weekday and hour-block tables

  /** The two clocks the tables read off an event's submit time. */
  datatype Clock = Hour | Weekday

  /** The hour of day, or the weekday (Monday 0), of a timestamp in
      seconds since 1970-01-01 00:00, a Thursday; the timestamps carry no
      time zone, so `dt.hour` and `dt.day_name()` are these floors. */
  function Reading(c: Clock, t: int): (v: int)
    ensures c == Hour ==> 0 <= v < 24
    ensures c == Weekday ==> 0 <= v < 7
  {
    match c
    case Hour => (t / 3600) % 24
    case Weekday => (t / 86400 + 3) % 7
  }

  /** The events whose impact job was submitted while clock `c` read
      within [lo, hi). */
  function Within(events: seq<Event>, c: Clock, lo: int, hi: int): (r: seq<Event>)
    ensures |r| <= |events|
    ensures forall k :: 0 <= k < |r| ==> lo <= Reading(c, r[k].job.submit) < hi
  {
    if events == [] then []
    else
      var rest := Within(events[..|events| - 1], c, lo, hi);
      var e := events[|events| - 1];
      if lo <= Reading(c, e.job.submit) < hi then rest + [e] else rest
  }

  /** Every event of that range, as often as the list holds it, and no
      other. */
  lemma {:induction false} WithinMultiset(events: seq<Event>, c: Clock, lo: int, hi: int)
    ensures forall x :: multiset(Within(events, c, lo, hi))[x] == if lo <= Reading(c, x.job.submit) < hi then multiset(events)[x] else 0
  {
    if events != [] {
      WithinMultiset(events[..|events| - 1], c, lo, hi);
      MultisetOfLast(events);
    }
  }

  /** The abandonment triggers among some events. */
  function Triggers(events: seq<Event>): (n: nat)
    ensures n <= |events|
  {
    if events == [] then 0
    else Triggers(events[..|events| - 1]) + (if events[|events| - 1].trigger then 1 else 0)
  }

  lemma TriggersSnoc(events: seq<Event>, e: Event)
    ensures Triggers(events + [e]) == Triggers(events) + (if e.trigger then 1 else 0)
  {
    assert (events + [e])[..|events|] == events;
  }

  /** Splitting a clock range at `mid` splits its events and its
      triggers. */
  lemma {:induction false} WithinSplit(events: seq<Event>, c: Clock, lo: int, mid: int, hi: int)
    requires lo <= mid <= hi
    ensures |Within(events, c, lo, hi)| == |Within(events, c, lo, mid)| + |Within(events, c, mid, hi)|
    ensures Triggers(Within(events, c, lo, hi)) == Triggers(Within(events, c, lo, mid)) + Triggers(Within(events, c, mid, hi))
  {
    if events != [] {
      var init := events[..|events| - 1];
      var e := events[|events| - 1];
      var v := Reading(c, e.job.submit);
      WithinSplit(init, c, lo, mid, hi);
      if lo <= v < mid {
        TriggersSnoc(Within(init, c, lo, hi), e);
        TriggersSnoc(Within(init, c, lo, mid), e);
      } else if mid <= v < hi {
        TriggersSnoc(Within(init, c, lo, hi), e);
        TriggersSnoc(Within(init, c, mid, hi), e);
      }
    }
  }

  /** The clock's whole range holds every event. */
  lemma {:induction false} WithinWholeRange(events: seq<Event>, c: Clock)
    ensures Within(events, c, 0, if c == Hour then 24 else 7) == events
  {
    if events != [] {
      WithinWholeRange(events[..|events| - 1], c);
      assert events[..|events| - 1] + [events[|events| - 1]] == events;
    }
  }

  /** A row of the weekday table: the day's event count and its
      abandonment-trigger count. */
  function DayCounts(events: seq<Event>, d: nat): (c: (nat, nat))
    requires d < 7
    ensures c.1 <= c.0 <= |events|
  {
    var es := Within(events, Weekday, d, d + 1);
    (|es|, Triggers(es))
  }

  /** The seven weekdays together count every event once and every
      trigger once. */
  lemma DayCountsAddUp(events: seq<Event>)
    ensures DayCounts(events, 0).0 + DayCounts(events, 1).0 + DayCounts(events, 2).0 + DayCounts(events, 3).0
      + DayCounts(events, 4).0 + DayCounts(events, 5).0 + DayCounts(events, 6).0 == |events|
    ensures DayCounts(events, 0).1 + DayCounts(events, 1).1 + DayCounts(events, 2).1 + DayCounts(events, 3).1
      + DayCounts(events, 4).1 + DayCounts(events, 5).1 + DayCounts(events, 6).1 == Triggers(events)
  {
    WithinSplit(events, Weekday, 0, 1, 7);
    WithinSplit(events, Weekday, 1, 2, 7);
    WithinSplit(events, Weekday, 2, 3, 7);
    WithinSplit(events, Weekday, 3, 4, 7);
    WithinSplit(events, Weekday, 4, 5, 7);
    WithinSplit(events, Weekday, 5, 6, 7);
    WithinWholeRange(events, Weekday);
  }

  /** A row of the hour-block table: the block's event count and its
      abandonment-trigger count. */
  function BlockCounts(events: seq<Event>, b: nat): (c: (nat, nat))
    requires b < |HourBlocks|
    ensures c.1 <= c.0 <= |events|
  {
    var es := Within(events, Hour, HourBlocks[b].0, HourBlocks[b].1);
    (|es|, Triggers(es))
  }

  /** The six blocks together count every event once and every trigger
      once. */
  lemma BlockCountsAddUp(events: seq<Event>)
    ensures BlockCounts(events, 0).0 + BlockCounts(events, 1).0 + BlockCounts(events, 2).0
      + BlockCounts(events, 3).0 + BlockCounts(events, 4).0 + BlockCounts(events, 5).0 == |events|
    ensures BlockCounts(events, 0).1 + BlockCounts(events, 1).1 + BlockCounts(events, 2).1
      + BlockCounts(events, 3).1 + BlockCounts(events, 4).1 + BlockCounts(events, 5).1 == Triggers(events)
  {
    WithinSplit(events, Hour, 0, 4, 24);
    WithinSplit(events, Hour, 4, 8, 24);
    WithinSplit(events, Hour, 8, 12, 24);
    WithinSplit(events, Hour, 12, 16, 24);
    WithinSplit(events, Hour, 16, 20, 24);
    WithinWholeRange(events, Hour);
  }

  // ---------------------------------------------------------------------
  // Recurring patterns per user

  /** The aggregates of one user's events that the pattern rule reads:
      the event count, the size of the most common weekday, the whole days
      between the first and last event, and the triggers. */
  datatype UserEvents = UserEvents(user: nat, count: nat, topDayCount: nat, spanDays: int, triggers: nat)

  /** The events of one user. */
  function ByUser(events: seq<Event>, user: nat): (r: seq<Event>)
    ensures |r| <= |events|
    ensures forall k :: 0 <= k < |r| ==> r[k].job.user == user && r[k] in events
  {
    if events == [] then []
    else
      var rest := ByUser(events[..|events| - 1], user);
      var e := events[|events| - 1];
      if e.job.user == user then rest + [e] else rest
  }

  lemma {:induction false} ByUserMultiset(events: seq<Event>, user: nat)
    ensures forall x :: multiset(ByUser(events, user))[x] == if x.job.user == user then multiset(events)[x] else 0
  {
    if events != [] {
      ByUserMultiset(events[..|events| - 1], user);
      MultisetOfLast(events);
    }
  }

  /** The largest event count among weekdays 0 .. d - 1. */
  function TopDay(events: seq<Event>, d: nat): (n: nat)
    requires d <= 7
    ensures n <= |events|
    ensures forall e :: 0 <= e < d ==> DayCounts(events, e).0 <= n
    ensures d > 0 ==> exists e :: 0 <= e < d && DayCounts(events, e).0 == n
  {
    if d == 0 then 0
    else
      var best := TopDay(events, d - 1);
      var here := DayCounts(events, d - 1).0;
      if here > best then here else best
  }

  /** The earliest and the latest impact time (the job's start). */
  function FirstImpact(events: seq<Event>): (t: int)
    requires events != []
    ensures forall k :: 0 <= k < |events| ==> t <= events[k].job.start
    ensures exists k :: 0 <= k < |events| && t == events[k].job.start
  {
    if |events| == 1 then events[0].job.start
    else
      var rest := FirstImpact(events[..|events| - 1]);
      var last := events[|events| - 1].job.start;
      if last < rest then last else rest
  }

  function LastImpact(events: seq<Event>): (t: int)
    requires events != []
    ensures forall k :: 0 <= k < |events| ==> events[k].job.start <= t
    ensures exists k :: 0 <= k < |events| && t == events[k].job.start
  {
    if |events| == 1 then events[0].job.start
    else
      var rest := LastImpact(events[..|events| - 1]);
      var last := events[|events| - 1].job.start;
      if last > rest then last else rest
  }

  /** The aggregates of one user's events: the count, the size of the most
      common weekday (`value_counts().iloc[0]`), the whole days of
      `(max - min).days` between the first and the last impact, and the
      triggers. */
  function UserEventsOf(events: seq<Event>, user: nat): (u: UserEvents)
    ensures u.user == user && u.count == |ByUser(events, user)|
    ensures u.triggers == Triggers(ByUser(events, user)) && u.triggers <= u.count
    ensures u.topDayCount <= u.count
    ensures forall d :: 0 <= d < 7 ==> DayCounts(ByUser(events, user), d).0 <= u.topDayCount
    ensures 0 <= u.spanDays
  {
    var es := ByUser(events, user);
    UserEvents(user, |es|, TopDay(es, 7), if es == [] then 0 else (LastImpact(es) - FirstImpact(es)) / 86400, Triggers(es))
  }

  /** A user with events has a most common weekday holding at least one
      of them, and at least a seventh of them. */
  lemma UserEventsTopDay(events: seq<Event>, user: nat)
    ensures UserEventsOf(events, user).count <= 7 * UserEventsOf(events, user).topDayCount
  {
    DayCountsAddUp(ByUser(events, user));
  }

  datatype Pattern = Pattern(user: nat, count: nat, frequencyPerWeek: real, dayConcentration: real, triggerRate: real, regular: bool)

  /** Events per week over the span; 0 when the events fall within one day. */
  function FrequencyPerWeek(count: nat, spanDays: int): real
  {
    if spanDays > 0 then count as real / (spanDays as real / 7.0) else 0.0
  }

  /** A user's pattern; a pattern is regular when most events fall on one
      weekday and there is more than one every two weeks. */
  function PatternOf(u: UserEvents): (p: Pattern)
    requires u.count >= 3 && u.topDayCount <= u.count && u.triggers <= u.count
    ensures p.regular <==> p.dayConcentration > 50.0 && p.frequencyPerWeek > 0.5
    ensures p.regular ==> u.spanDays > 0
    ensures 0.0 <= p.triggerRate <= 100.0
  {
    var freq := FrequencyPerWeek(u.count, u.spanDays);
    var conc := u.topDayCount as real / u.count as real * 100.0;
    Pattern(u.user, u.count, freq, conc, TriggerRate(u.triggers, u.count), conc > 50.0 && freq > 0.5)
  }

  /** `identify_user_impact_patterns`: users with fewer than three events
      are skipped. */
  method UserPatterns(users: seq<UserEvents>) returns (patterns: seq<Pattern>)
    requires forall k :: 0 <= k < |users| ==> users[k].topDayCount <= users[k].count && users[k].triggers <= users[k].count
    ensures |patterns| <= |users|
    ensures forall p :: p in patterns ==> exists k :: 0 <= k < |users| && users[k].count >= 3 && p == PatternOf(users[k])
    ensures forall k :: 0 <= k < |users| && users[k].count >= 3 ==> PatternOf(users[k]) in patterns
  {
    patterns := [];
    for i := 0 to |users|
      invariant |patterns| <= i
      invariant forall p :: p in patterns ==> exists k :: 0 <= k < i && users[k].count >= 3 && p == PatternOf(users[k])
      invariant forall k :: 0 <= k < i && users[k].count >= 3 ==> PatternOf(users[k]) in patterns
    {
      if users[i].count >= 3 {
        patterns := patterns + [PatternOf(users[i])];
      }
    }
  }
}
