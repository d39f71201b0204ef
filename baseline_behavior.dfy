/** analyze_baseline_behavior.py: the normal submission pattern of the
    system, of each user and of each group: per-day rates over the
    observed span, inter-arrival burstiness, spread of CPU requests,
    concentration on one hour or weekday, and the per-hour and per-weekday
    tables. The hour of day and weekday of each submission are taken as
    given integers. */
module BaselineBehavior {
  import opened Common

  datatype Job = Job(user: nat, group: nat, submit: int, start: int, end: int, cpus: nat, hour: int, dayOfWeek: int)

  /** A job is kept when it ran for a positive time and did not start before
      it was submitted. */
  predicate Valid(j: Job)
  {
    j.end - j.start > 0 && j.start - j.submit >= 0
  }

  function KeepValid(jobs: seq<Job>): (r: seq<Job>)
    ensures |r| <= |jobs|
    ensures forall k :: 0 <= k < |r| ==> Valid(r[k]) && r[k] in jobs
  {
    if jobs == [] then []
    else
      var rest := KeepValid(jobs[..|jobs| - 1]);
      assert forall x :: x in jobs[..|jobs| - 1] ==> x in jobs;
      if Valid(jobs[|jobs| - 1]) then rest + [jobs[|jobs| - 1]] else rest
  }

  /** Every valid job is kept. */
  lemma {:induction false} KeepValidComplete(jobs: seq<Job>, i: nat)
    requires i < |jobs| && Valid(jobs[i])
    ensures jobs[i] in KeepValid(jobs)
  {
    if i < |jobs| - 1 {
      KeepValidComplete(jobs[..|jobs| - 1], i);
    }
  }

  /** Every valid job, as often as the input holds it, and no other. */
  lemma {:induction false} KeepValidMultiset(jobs: seq<Job>)
    ensures forall x :: multiset(KeepValid(jobs))[x] == if Valid(x) then multiset(jobs)[x] else 0
  {
    if jobs != [] {
      KeepValidMultiset(jobs[..|jobs| - 1]);
      MultisetOfLast(jobs);
    }
  }

  // ---------------------------------------------------------------------
  // Submission order

  predicate SortedInts(s: seq<int>)
  {
    forall i, j :: 0 <= i < j < |s| ==> s[i] <= s[j]
  }

  function Insert(x: int, s: seq<int>): (r: seq<int>)
    requires SortedInts(s)
    ensures SortedInts(r) && multiset(r) == multiset(s) + multiset{x} && |r| == |s| + 1
  {
    if s == [] then [x]
    else if x <= s[0] then [x] + s
    else
      var rest := Insert(x, s[1..]);
      assert s == [s[0]] + s[1..];
      AtLeastAll(rest, s[1..], x, s[0]);
      SortedCons(s[0], rest);
      [s[0]] + rest
  }

  /** Every element of `r`, drawn from `t` and `x`, is at least `lo`. */
  lemma AtLeastAll(r: seq<int>, t: seq<int>, x: int, lo: int)
    requires multiset(r) == multiset(t) + multiset{x}
    requires lo <= x && forall k :: 0 <= k < |t| ==> lo <= t[k]
    ensures forall k :: 0 <= k < |r| ==> lo <= r[k]
  {
    forall k | 0 <= k < |r|
      ensures lo <= r[k]
    {
      assert r[k] in multiset(r);
      if r[k] != x {
        assert r[k] in multiset(t);
        assert r[k] in t;
      }
    }
  }

  lemma SortedCons(a: int, t: seq<int>)
    requires SortedInts(t) && forall k :: 0 <= k < |t| ==> a <= t[k]
    ensures SortedInts([a] + t)
  {
  }

  /** `sort_values('submit_time')` on the submit times. */
  function SortInts(s: seq<int>): (r: seq<int>)
    ensures SortedInts(r) && multiset(r) == multiset(s) && |r| == |s|
  {
    if s == [] then []
    else
      assert s == s[..|s| - 1] + [s[|s| - 1]];
      Insert(s[|s| - 1], SortInts(s[..|s| - 1]))
  }

  /** Hours between consecutive submissions (`diff()` without its leading
      NaN). */
  function InterArrivals(sorted: seq<int>): (r: seq<real>)
    ensures |sorted| > 0 ==> |r| == |sorted| - 1
    ensures |sorted| == 0 ==> r == []
  {
    if |sorted| == 0 then []
    else seq(|sorted| - 1, i requires 0 <= i < |sorted| - 1 => (sorted[i + 1] - sorted[i]) as real / 3600.0)
  }

  lemma InterArrivalsNonNegative(sorted: seq<int>)
    requires SortedInts(sorted)
    ensures forall k :: 0 <= k < |InterArrivals(sorted)| ==> InterArrivals(sorted)[k] >= 0.0
  {
    forall k | 0 <= k < |InterArrivals(sorted)|
      ensures InterArrivals(sorted)[k] >= 0.0
    {
      assert sorted[k] <= sorted[k + 1];
    }
  }

  /** The gaps add up to the whole span, so their mean is the span divided
      by one less than the number of submissions. */
  lemma GapStep(a: int, b: int, c: int)
    ensures (b - a) as real / 3600.0 + (c - b) as real / 3600.0 == (c - a) as real / 3600.0
  {
  }

  lemma {:induction false} InterArrivalsTelescope(sorted: seq<int>)
    requires |sorted| > 0
    ensures SumReal(InterArrivals(sorted)) == (sorted[|sorted| - 1] - sorted[0]) as real / 3600.0
  {
    if |sorted| > 1 {
      var n := |sorted|;
      var init := sorted[..n - 1];
      InterArrivalsTelescope(init);
      var ia := InterArrivals(sorted);
      assert ia[..|ia| - 1] == InterArrivals(init);
      assert ia[|ia| - 1] == (sorted[n - 1] - sorted[n - 2]) as real / 3600.0;
      assert init[0] == sorted[0] && init[n - 2] == sorted[n - 2];
      GapStep(sorted[0], sorted[n - 2], sorted[n - 1]);
    }
  }

  function Mean(xs: seq<real>): real
  {
    if |xs| == 0 then 0.0 else SumReal(xs) / |xs| as real
  }

  // ---------------------------------------------------------------------
  // The per-entity formulas

  /** Whole days between the first and last submission. */
  function SpanDays(sorted: seq<int>): (d: int)
    requires |sorted| > 0 && SortedInts(sorted)
    ensures d >= 0
  {
    (sorted[|sorted| - 1] - sorted[0]) / 86400
  }

  /** A span of zero days counts as one day for the per-entity rate. */
  function ClampSpan(days: int): (r: int)
    ensures days == 0 ==> r == 1
    ensures days != 0 ==> r == days
  {
    if days == 0 then 1 else days
  }

  function PerDay(count: nat, days: int): real
    requires days >= 0
  {
    count as real / ClampSpan(days) as real
  }

  /** The per-entity rate never exceeds the job count and is the plain
      average over a positive span. */
  lemma PerDayBounds(count: nat, days: int)
    requires days >= 0
    ensures 0.0 <= PerDay(count, days) <= count as real
    ensures days == 0 ==> PerDay(count, days) == count as real
    ensures days > 0 ==> PerDay(count, days) * days as real == count as real
  {
    var d := ClampSpan(days) as real;
    var r := PerDay(count, days);
    assert r * d == count as real;
    assert d >= 1.0;
  }

  /** `(σ − μ) / (σ + μ)`, or 0 when σ + μ ≤ 0 or there are fewer than two
      gaps: pandas' sample deviation of one value is NaN, and a NaN sum
      fails the `> 0` test. */
  function Burstiness(gaps: nat, sigma: real, mu: real): real
  {
    if gaps > 1 && sigma + mu > 0.0 then (sigma - mu) / (sigma + mu) else 0.0
  }

  /** With non-negative σ and μ the index lies in [−1, 1]; it is positive
      exactly when gaps vary more than their mean and negative exactly when
      they are more regular. */
  lemma BurstinessBounds(gaps: nat, sigma: real, mu: real)
    requires sigma >= 0.0 && mu >= 0.0
    ensures -1.0 <= Burstiness(gaps, sigma, mu) <= 1.0
    ensures Burstiness(gaps, sigma, mu) > 0.0 <==> gaps > 1 && sigma > mu
    ensures Burstiness(gaps, sigma, mu) < 0.0 <==> gaps > 1 && sigma < mu
  {
    if gaps > 1 && sigma + mu > 0.0 {
      var b := Burstiness(gaps, sigma, mu);
      SignOfQuotient(sigma - mu, sigma + mu);
    }
  }

  lemma SignOfQuotient(x: real, y: real)
    requires y > 0.0 && -y <= x <= y
    ensures -1.0 <= x / y <= 1.0
    ensures x / y > 0.0 <==> x > 0.0
    ensures x / y < 0.0 <==> x < 0.0
  {
    var q := x / y;
    assert q * y == x;
    assert q > 0.0 ==> q * y > 0.0;
    assert q < 0.0 ==> q * y < 0.0;
    assert q > 1.0 ==> q * y > y;
    assert q < -1.0 ==> q * y < -y;
  }

  /** Coefficient of variation, 0 when the mean is not positive. */
  function Cv(std: real, mean: real): (r: real)
    ensures mean > 0.0 ==> r * mean == std
    ensures mean <= 0.0 ==> r == 0.0
    ensures std >= 0.0 ==> r >= 0.0
  {
    if mean > 0.0 then std / mean else 0.0
  }

  /** Share in percent of the most common value. */
  function Concentration(top: nat, n: nat): (r: real)
    requires 0 < n && top <= n
    ensures 0.0 <= r <= 100.0
    ensures r * n as real == top as real * 100.0
  {
    top as real / n as real * 100.0
  }

  predicate IsRegular(dayConcentration: real, hourConcentration: real)
  {
    dayConcentration > 30.0 || hourConcentration > 20.0
  }

  /** The largest count among the values in `candidates`. */
  function TopCountOver(keys: seq<int>, candidates: seq<int>): (c: nat)
    ensures c <= |keys|
    ensures forall i :: 0 <= i < |candidates| ==> CountOf(keys, candidates[i]) <= c
    ensures |candidates| > 0 ==> exists i :: 0 <= i < |candidates| && c == CountOf(keys, candidates[i])
  {
    if candidates == [] then 0
    else
      var rest := TopCountOver(keys, candidates[..|candidates| - 1]);
      var last := CountOf(keys, candidates[|candidates| - 1]);
      if last >= rest then last else rest
  }

  /** `value_counts().iloc[0]`: the count of the most common value. */
  function TopCount(keys: seq<int>): nat
  {
    TopCountOver(keys, keys)
  }

  lemma TopCountFacts(keys: seq<int>)
    ensures TopCount(keys) <= |keys|
    ensures forall i :: 0 <= i < |keys| ==> CountOf(keys, keys[i]) <= TopCount(keys)
    ensures |keys| > 0 ==> TopCount(keys) >= 1
  {
    if |keys| > 0 {
      CountOfPositive(keys, 0);
    }
  }

  // ---------------------------------------------------------------------
  // Per-user and per-group baselines

  function Submits(js: seq<Job>): (r: seq<int>)
    ensures |r| == |js|
  {
    seq(|js|, k requires 0 <= k < |js| => js[k].submit)
  }

  function CpusOf(js: seq<Job>): (r: seq<real>)
    ensures |r| == |js|
  {
    seq(|js|, k requires 0 <= k < |js| => js[k].cpus as real)
  }

  function HoursOf(js: seq<Job>): (r: seq<int>)
    ensures |r| == |js|
  {
    seq(|js|, k requires 0 <= k < |js| => js[k].hour)
  }

  function DaysOf(js: seq<Job>): (r: seq<int>)
    ensures |r| == |js|
  {
    seq(|js|, k requires 0 <= k < |js| => js[k].dayOfWeek)
  }

  /** The arrival columns shared by users and groups. */
  datatype Arrivals = Arrivals(perDay: real, meanInterArrival: Option<real>, burstiness: real)

  /** The arrival columns of one entity from its submit times in order;
      `std` stands for pandas' sample standard deviation. */
  function ArrivalsOf(sorted: seq<int>, std: seq<real> -> real): Arrivals
    requires |sorted| > 0 && SortedInts(sorted)
  {
    var gaps := InterArrivals(sorted);
    var mu := Mean(gaps);
    Arrivals(PerDay(|sorted|, SpanDays(sorted)), if |gaps| > 0 then Some(mu) else None, Burstiness(|gaps|, std(gaps), mu))
  }

  /** The mean gap is the span in hours spread over the gaps, and the
      burstiness is within [−1, 1] whenever the deviation is non-negative. */
  lemma ArrivalsFacts(sorted: seq<int>, std: seq<real> -> real)
    requires |sorted| > 0 && SortedInts(sorted)
    ensures var a := ArrivalsOf(sorted, std);
      && 0.0 <= a.perDay <= |sorted| as real
      && (a.meanInterArrival.Some? <==> |sorted| > 1)
      && (a.meanInterArrival.Some? ==>
            a.meanInterArrival.value * (|sorted| - 1) as real == (sorted[|sorted| - 1] - sorted[0]) as real / 3600.0)
      && (std(InterArrivals(sorted)) >= 0.0 ==> -1.0 <= a.burstiness <= 1.0)
      && (|sorted| <= 2 ==> a.burstiness == 0.0)
  {
    PerDayBounds(|sorted|, SpanDays(sorted));
    if |sorted| > 1 {
      MeanGap(sorted);
    }
    GapBurstiness(sorted, std);
  }

  lemma MeanGap(sorted: seq<int>)
    requires |sorted| > 1
    ensures Mean(InterArrivals(sorted)) * (|sorted| - 1) as real == (sorted[|sorted| - 1] - sorted[0]) as real / 3600.0
  {
    var gaps := InterArrivals(sorted);
    InterArrivalsTelescope(sorted);
    assert Mean(gaps) * |gaps| as real == SumReal(gaps);
  }

  lemma GapBurstiness(sorted: seq<int>, std: seq<real> -> real)
    requires SortedInts(sorted)
    ensures var gaps := InterArrivals(sorted);
      std(gaps) >= 0.0 ==> -1.0 <= Burstiness(|gaps|, std(gaps), Mean(gaps)) <= 1.0
  {
    var gaps := InterArrivals(sorted);
    InterArrivalsNonNegative(sorted);
    MeanNonNegative(gaps);
    if std(gaps) >= 0.0 {
      BurstinessBounds(|gaps|, std(gaps), Mean(gaps));
    }
  }

  lemma {:induction false} SumNonNegative(xs: seq<real>)
    requires forall k :: 0 <= k < |xs| ==> xs[k] >= 0.0
    ensures SumReal(xs) >= 0.0
  {
    if xs != [] {
      SumNonNegative(xs[..|xs| - 1]);
    }
  }

  lemma MeanNonNegative(xs: seq<real>)
    requires forall k :: 0 <= k < |xs| ==> xs[k] >= 0.0
    ensures Mean(xs) >= 0.0
  {
    SumNonNegative(xs);
  }

  datatype UserBaseline = UserBaseline(
    user: nat, totalJobs: nat, arrivals: Arrivals, meanCpus: real, cvCpus: real,
    hourConcentration: real, dayConcentration: real, regular: bool)

  function UserBaselineOf(user: nat, js: seq<Job>, std: seq<real> -> real): UserBaseline
    requires |js| > 0
  {
    var meanCpus := Mean(CpusOf(js));
    TopCountFacts(HoursOf(js));
    TopCountFacts(DaysOf(js));
    var hourConc := Concentration(TopCount(HoursOf(js)), |js|);
    var dayConc := Concentration(TopCount(DaysOf(js)), |js|);
    UserBaseline(user, |js|, ArrivalsOf(SortInts(Submits(js)), std), meanCpus, Cv(std(CpusOf(js)), meanCpus),
      hourConc, dayConc, IsRegular(dayConc, hourConc))
  }

  function UserJobs(jobs: seq<Job>, user: nat): (r: seq<Job>)
    ensures |r| <= |jobs|
    ensures forall k :: 0 <= k < |r| ==> r[k].user == user
  {
    if jobs == [] then []
    else
      var rest := UserJobs(jobs[..|jobs| - 1], user);
      if jobs[|jobs| - 1].user == user then rest + [jobs[|jobs| - 1]] else rest
  }

  /** The user's jobs, each as often as in the input, and no other job. */
  lemma {:induction false} UserJobsMultiset(jobs: seq<Job>, user: nat)
    ensures forall x :: multiset(UserJobs(jobs, user))[x] == if x.user == user then multiset(jobs)[x] else 0
  {
    if jobs != [] {
      UserJobsMultiset(jobs[..|jobs| - 1], user);
      MultisetOfLast(jobs);
    }
  }

  function GroupJobs(jobs: seq<Job>, group: nat): (r: seq<Job>)
    ensures |r| <= |jobs|
    ensures forall k :: 0 <= k < |r| ==> r[k].group == group
  {
    if jobs == [] then []
    else
      var rest := GroupJobs(jobs[..|jobs| - 1], group);
      if jobs[|jobs| - 1].group == group then rest + [jobs[|jobs| - 1]] else rest
  }

  /** The group's jobs, each as often as in the input, and no other job. */
  lemma {:induction false} GroupJobsMultiset(jobs: seq<Job>, group: nat)
    ensures forall x :: multiset(GroupJobs(jobs, group))[x] == if x.group == group then multiset(jobs)[x] else 0
  {
    if jobs != [] {
      GroupJobsMultiset(jobs[..|jobs| - 1], group);
      MultisetOfLast(jobs);
    }
  }

  const MinUserJobs: nat := 10

  /** The rows of users with at least ten jobs, in the given user order. */
  function UserBaselinesOf(jobs: seq<Job>, users: seq<nat>, std: seq<real> -> real): seq<UserBaseline>
  {
    if users == [] then []
    else
      var rest := UserBaselinesOf(jobs, users[..|users| - 1], std);
      var js := UserJobs(jobs, users[|users| - 1]);
      if |js| >= MinUserJobs then rest + [UserBaselineOf(users[|users| - 1], js, std)] else rest
  }

  /** `analyze_user_baselines`, over the users as `unique()` lists them. */
  method UserBaselines(jobs: seq<Job>, users: seq<nat>, std: seq<real> -> real) returns (rows: seq<UserBaseline>)
    ensures rows == UserBaselinesOf(jobs, users, std)
  {
    rows := [];
    for i := 0 to |users|
      invariant rows == UserBaselinesOf(jobs, users[..i], std)
    {
      assert users[..i + 1][..i] == users[..i];
      var js := UserJobs(jobs, users[i]);
      if |js| >= MinUserJobs {
        rows := rows + [UserBaselineOf(users[i], js, std)];
      }
    }
    assert users[..|users|] == users;
  }

  /** Every user row comes from a listed user with at least ten jobs, and
      it is regular exactly when one weekday holds more than 30% or one hour
      more than 20% of that user's jobs. */
  lemma {:induction false} UserBaselinesFacts(jobs: seq<Job>, users: seq<nat>, std: seq<real> -> real)
    ensures var rows := UserBaselinesOf(jobs, users, std);
      forall r :: r in rows ==>
        && r.user in users && r.totalJobs >= MinUserJobs && r.totalJobs == |UserJobs(jobs, r.user)|
        && 0.0 <= r.hourConcentration <= 100.0 && 0.0 <= r.dayConcentration <= 100.0
        && (r.regular <==> r.dayConcentration > 30.0 || r.hourConcentration > 20.0)
  {
    if users != [] {
      UserBaselinesFacts(jobs, users[..|users| - 1], std);
    }
  }

  /** A user with ten or more jobs always gets a row. */
  lemma {:induction false} UserBaselinesComplete(jobs: seq<Job>, users: seq<nat>, std: seq<real> -> real, i: nat)
    requires i < |users| && |UserJobs(jobs, users[i])| >= MinUserJobs
    ensures exists r :: r in UserBaselinesOf(jobs, users, std) && r.user == users[i]
  {
    var rows := UserBaselinesOf(jobs, users, std);
    if i == |users| - 1 {
      assert rows[|rows| - 1].user == users[i];
    } else {
      UserBaselinesComplete(jobs, users[..|users| - 1], std, i);
      var r :| r in UserBaselinesOf(jobs, users[..|users| - 1], std) && r.user == users[i];
      assert r in rows;
    }
  }

  datatype GroupBaseline = GroupBaseline(group: nat, totalJobs: nat, uniqueUsers: nat, arrivals: Arrivals)

  function UsersIn(js: seq<Job>): set<nat>
  {
    set k | 0 <= k < |js| :: js[k].user
  }

  function GroupBaselinesOf(jobs: seq<Job>, groups: seq<nat>, std: seq<real> -> real): seq<GroupBaseline>
    requires forall k :: 0 <= k < |groups| ==> |GroupJobs(jobs, groups[k])| > 0
  {
    seq(|groups|, k requires 0 <= k < |groups| => GroupRow(jobs, groups[k], std))
  }

  function GroupRow(jobs: seq<Job>, g: nat, std: seq<real> -> real): (r: GroupBaseline)
    requires |GroupJobs(jobs, g)| > 0
    ensures r.group == g && r.totalJobs == |GroupJobs(jobs, g)| > 0
    ensures r.totalJobs <= 2 ==> r.arrivals.burstiness == 0.0
  {
    var js := GroupJobs(jobs, g);
    GroupBaseline(g, |js|, |UsersIn(js)|, ArrivalsOf(SortInts(Submits(js)), std))
  }

  /** `analyze_group_baselines`: every group present in the data gets a
      row, whatever its size. */
  method GroupBaselines(jobs: seq<Job>, groups: seq<nat>, std: seq<real> -> real) returns (rows: seq<GroupBaseline>)
    requires forall k :: 0 <= k < |groups| ==> |GroupJobs(jobs, groups[k])| > 0
    ensures rows == GroupBaselinesOf(jobs, groups, std)
  {
    rows := [];
    for i := 0 to |groups|
      invariant rows == GroupBaselinesOf(jobs, groups[..i], std)
    {
      GroupBaselinesStep(jobs, groups, i, std);
      rows := rows + [GroupRow(jobs, groups[i], std)];
    }
    assert groups[..|groups|] == groups;
  }

  lemma GroupBaselinesStep(jobs: seq<Job>, groups: seq<nat>, i: nat, std: seq<real> -> real)
    requires i < |groups| && forall k :: 0 <= k < |groups| ==> |GroupJobs(jobs, groups[k])| > 0
    ensures GroupBaselinesOf(jobs, groups[..i + 1], std) == GroupBaselinesOf(jobs, groups[..i], std) + [GroupRow(jobs, groups[i], std)]
  {
    var a := GroupBaselinesOf(jobs, groups[..i + 1], std);
    var b := GroupBaselinesOf(jobs, groups[..i], std) + [GroupRow(jobs, groups[i], std)];
    assert |a| == |b|;
    forall k | 0 <= k < |a|
      ensures a[k] == b[k]
    {
      assert a[k] == GroupRow(jobs, groups[k], std);
      if k < i {
        assert b[k] == GroupBaselinesOf(jobs, groups[..i], std)[k] == GroupRow(jobs, groups[k], std);
      }
    }
  }

  /** One row per listed group, in order, each for a non-empty group. */
  lemma GroupBaselinesFacts(jobs: seq<Job>, groups: seq<nat>, std: seq<real> -> real)
    requires forall k :: 0 <= k < |groups| ==> |GroupJobs(jobs, groups[k])| > 0
    ensures var rows := GroupBaselinesOf(jobs, groups, std);
      && |rows| == |groups|
      && forall k :: 0 <= k < |rows| ==> rows[k].group == groups[k] && rows[k].totalJobs > 0
  {
  }

  // ---------------------------------------------------------------------
  // System-wide tables and rates

  /** `analyze_system_baseline_hourly`: one row per hour of day that has
      submissions, with its total. */
  method HourlyTotals(jobs: seq<Job>) returns (rows: seq<(int, nat)>)
    ensures rows == BucketRows(HoursOf(jobs), 0, 24)
    ensures forall a :: 0 <= a < |rows| ==> 0 <= rows[a].0 < 24 && rows[a].1 > 0
  {
    rows := NonEmptyBuckets(HoursOf(jobs), 0, 24);
    BucketRowsFacts(HoursOf(jobs), 0, 24);
  }

  /** `analyze_system_baseline_daily`: one row per weekday that has
      submissions. */
  method DailyTotals(jobs: seq<Job>) returns (rows: seq<(int, nat)>)
    ensures rows == BucketRows(DaysOf(jobs), 0, 7)
    ensures forall a :: 0 <= a < |rows| ==> 0 <= rows[a].0 < 7 && rows[a].1 > 0
  {
    rows := NonEmptyBuckets(DaysOf(jobs), 0, 7);
    BucketRowsFacts(DaysOf(jobs), 0, 7);
  }

  /** System jobs per day: the span is not clamped here, so a span of zero
      days gives a rate of 0. */
  function SystemJobsPerDay(count: nat, days: int): real
  {
    if days > 0 then count as real / days as real else 0.0
  }

  function SystemJobsPerHour(count: nat, days: int): real
  {
    if days > 0 then count as real / (days * 24) as real else 0.0
  }

  /** The hourly rate is the daily one over 24 hours, and for a span of
      zero days both are 0 while the clamped per-entity rate is the whole
      count. */
  lemma SystemRates(count: nat, days: int)
    requires days >= 0
    ensures SystemJobsPerHour(count, days) * 24.0 == SystemJobsPerDay(count, days)
    ensures days > 0 ==> SystemJobsPerDay(count, days) == PerDay(count, days)
    ensures days == 0 ==> SystemJobsPerDay(count, days) == 0.0 && PerDay(count, days) == count as real
  {
    if days > 0 {
      var h := SystemJobsPerHour(count, days);
      assert h * (days * 24) as real == count as real;
      var d := SystemJobsPerDay(count, days);
      assert d * days as real == count as real;
      assert (h * 24.0) * days as real == count as real;
      Common.MulCancel(h * 24.0, d, days as real);
    }
  }
}
