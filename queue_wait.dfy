/** analyze_queue_wait_times.py: queue wait (submit to start) per job, its
    distribution over wait-time and job-size bins, the strict per-user
    threshold counts, and the per-hour, per-weekday, per-week-of-month and
    per-month tables. Hour, weekday, day of month and month of each
    submission are given integers. */
module QueueWait {
  import opened Common

  datatype Column = SubmitTime | StartTime | Cpus | User | Group

  datatype Job = Job(
    user: Option<nat>, group: Option<nat>, submit: Option<int>, start: Option<int>, cpus: Option<real>,
    hour: int, dayOfWeek: int, day: int, month: int)

  /** A job with its wait in seconds and its CPUs after `fillna(1)`. */
  datatype Waited = Waited(job: Job, waitSeconds: int, cpus: Option<real>)

  function WaitMinutes(w: Waited): real
  {
    w.waitSeconds as real / 60.0
  }

  /** A job whose submit and start times are both present, with a wait that
      is not negative. */
  predicate HasWait(j: Job)
  {
    j.submit.Some? && j.start.Some? && j.start.value - j.submit.value >= 0
  }

  /** The row a waiting job gives: its wait in seconds and its CPUs. */
  function WaitOf(j: Job, cols: set<Column>): Waited
    requires HasWait(j)
  {
    var cpus := if Cpus in cols then (if j.cpus.Some? then j.cpus else Some(1.0)) else None;
    Waited(j, j.start.value - j.submit.value, cpus)
  }

  function KeepWaits(jobs: seq<Job>, cols: set<Column>): (r: seq<Waited>)
    ensures forall k :: 0 <= k < |r| ==> r[k].waitSeconds >= 0
    ensures forall k :: 0 <= k < |r| ==>
      r[k].job in jobs && HasWait(r[k].job) && r[k].waitSeconds == r[k].job.start.value - r[k].job.submit.value
    ensures |r| <= |jobs|
  {
    if jobs == [] then []
    else
      var rest := KeepWaits(jobs[..|jobs| - 1], cols);
      var j := jobs[|jobs| - 1];
      assert forall x :: x in jobs[..|jobs| - 1] ==> x in jobs;
      if HasWait(j) then rest + [WaitOf(j, cols)] else rest
  }

  /** The jobs that have a wait, in input order. */
  function Waiting(jobs: seq<Job>): (r: seq<Job>)
    ensures forall k :: 0 <= k < |r| ==> HasWait(r[k])
  {
    if jobs == [] then []
    else
      var rest := Waiting(jobs[..|jobs| - 1]);
      if HasWait(jobs[|jobs| - 1]) then rest + [jobs[|jobs| - 1]] else rest
  }

  /** Every job that has a wait, as often as the input holds it, and no
      other. */
  lemma {:induction false} WaitingMultiset(jobs: seq<Job>)
    ensures forall x :: multiset(Waiting(jobs))[x] == if HasWait(x) then multiset(jobs)[x] else 0
  {
    if jobs != [] {
      WaitingMultiset(jobs[..|jobs| - 1]);
      MultisetOfLast(jobs);
    }
  }

  /** The kept rows are the waiting jobs in input order, one row per job,
      each carrying its own wait. */
  lemma {:induction false} KeepWaitsOfWaiting(jobs: seq<Job>, cols: set<Column>)
    ensures |KeepWaits(jobs, cols)| == |Waiting(jobs)|
    ensures forall k :: 0 <= k < |KeepWaits(jobs, cols)| ==> KeepWaits(jobs, cols)[k] == WaitOf(Waiting(jobs)[k], cols)
  {
    if jobs != [] {
      KeepWaitsOfWaiting(jobs[..|jobs| - 1], cols);
    }
  }

  /** `load_job_data`: without both time columns the script exits; otherwise
      jobs with a missing time or a negative wait are dropped. */
  function LoadJobData(jobs: seq<Job>, cols: set<Column>): (r: Result<seq<Waited>>)
    ensures r.Err? <==> SubmitTime !in cols || StartTime !in cols
    ensures r.Ok? ==> forall k :: 0 <= k < |r.value| ==> r.value[k].waitSeconds >= 0
  {
    if SubmitTime in cols && StartTime in cols then Ok(KeepWaits(jobs, cols))
    else Err("Missing submit_time or start_time columns")
  }

  /** Every job with both times and a non-negative wait is kept, with that
      wait. */
  lemma {:induction false} KeepWaitsComplete(jobs: seq<Job>, cols: set<Column>, i: nat)
    requires i < |jobs| && jobs[i].submit.Some? && jobs[i].start.Some? && jobs[i].start.value >= jobs[i].submit.value
    ensures exists k :: (0 <= k < |KeepWaits(jobs, cols)| && KeepWaits(jobs, cols)[k].job == jobs[i]
      && KeepWaits(jobs, cols)[k].waitSeconds == jobs[i].start.value - jobs[i].submit.value)
  {
    var rest := KeepWaits(jobs[..|jobs| - 1], cols);
    if i < |jobs| - 1 {
      KeepWaitsComplete(jobs[..|jobs| - 1], cols, i);
      var k :| 0 <= k < |rest| && rest[k].job == jobs[..|jobs| - 1][i]
        && rest[k].waitSeconds == jobs[i].start.value - jobs[i].submit.value;
      assert KeepWaits(jobs, cols)[k] == rest[k];
    } else {
      assert KeepWaits(jobs, cols)[|rest|].job == jobs[i];
    }
  }

  // ---------------------------------------------------------------------
  // pd.cut

  predicate Increasing(edges: seq<real>)
  {
    forall a, b :: 0 <= a < b < |edges| ==> edges[a] < edges[b]
  }

  /** `pd.cut(x, bins=edges + [inf])`: bin `i` is (edges[i], edges[i+1]],
      the last one open above, and a value at or below the first edge is in
      no bin. */
  function Cut(x: real, edges: seq<real>): (r: Option<nat>)
    requires |edges| > 0 && Increasing(edges)
    ensures r.Some? <==> x > edges[0]
    ensures r.Some? ==> r.value < |edges| && edges[r.value] < x
    ensures r.Some? && r.value + 1 < |edges| ==> x <= edges[r.value + 1]
  {
    if x > edges[|edges| - 1] then Some(|edges| - 1)
    else if |edges| == 1 then None
    else Cut(x, edges[..|edges| - 1])
  }

  /** The bin of a value is the only one whose bounds hold it. */
  lemma CutUnique(x: real, edges: seq<real>, i: nat)
    requires |edges| > 0 && Increasing(edges) && i < |edges|
    requires edges[i] < x && (i + 1 < |edges| ==> x <= edges[i + 1])
    ensures Cut(x, edges) == Some(i)
  {
  }

  /** Minutes: (0, 1] '<1min', (1, 5] '1-5min', …, (1440, ∞) '>24hr'. */
  const WaitEdges: seq<real> := [0.0, 1.0, 5.0, 15.0, 30.0, 60.0, 120.0, 240.0, 480.0, 1440.0]

  const WaitLabels: seq<string> := ["<1min", "1-5min", "5-15min", "15-30min", "30-60min", "1-2hr", "2-4hr", "4-8hr", "8-24hr", ">24hr"]

  /** The wait bin as the script computes it. */
  function WaitBinAsWritten(minutes: real): Option<nat>
  {
    Cut(minutes, WaitEdges)
  }

  /** The wait bin with the lowest edge included, so that '<1min' holds the
      jobs that started at once. */
  function WaitBin(minutes: real): (r: Option<nat>)
    ensures r.Some? <==> minutes >= 0.0
    ensures r.Some? ==> r.value < |WaitLabels|
  {
    if minutes == 0.0 then Some(0) else Cut(minutes, WaitEdges)
  }

  /** A job that started as soon as it was submitted falls in no bin of the
      script's table. */
  lemma WaitBinAsWrittenDropsZero()
    ensures WaitBinAsWritten(0.0) == None
    ensures WaitBin(0.0) == Some(0) && WaitLabels[0] == "<1min"
  {
  }

  /** The two agree on every positive wait, and the corrected bins cover
      every kept job. Exactly 5 minutes is '1-5min'. */
  lemma WaitBinCorrection(minutes: real)
    requires minutes >= 0.0
    ensures WaitBin(minutes).Some?
    ensures minutes > 0.0 ==> WaitBin(minutes) == WaitBinAsWritten(minutes)
    ensures minutes == 5.0 ==> WaitBin(minutes) == Some(1) && WaitLabels[1] == "1-5min"
  {
    if minutes == 5.0 {
      CutUnique(5.0, WaitEdges, 1);
    }
  }

  /** The number of waits in bin `i` under `bin`. */
  function CountIn(waits: seq<real>, bin: real -> Option<nat>, i: nat): (c: nat)
    ensures c <= |waits|
  {
    if waits == [] then 0
    else CountIn(waits[..|waits| - 1], bin, i) + (if bin(waits[|waits| - 1]) == Some(i) then 1 else 0)
  }

  function Counts(waits: seq<real>, bin: real -> Option<nat>, n: nat): (r: seq<int>)
    ensures |r| == n
  {
    seq(n, i requires 0 <= i < n => CountIn(waits, bin, i))
  }

  /** The distribution loop: one count per label. */
  method WaitDistribution(waits: seq<real>) returns (counts: seq<int>)
    ensures counts == Counts(waits, WaitBin, |WaitLabels|)
  {
    counts := [];
    for i := 0 to |WaitLabels|
      invariant counts == Counts(waits, WaitBin, i)
    {
      var c := CountIn(waits, WaitBin, i);
      counts := counts + [c];
    }
  }

  /** With the lowest edge included the table accounts for every job:
      the counts add up to the number of jobs. */
  lemma {:induction false} DistributionIsComplete(waits: seq<real>)
    requires forall k :: 0 <= k < |waits| ==> waits[k] >= 0.0
    ensures Sum(Counts(waits, WaitBin, |WaitLabels|)) == |waits|
  {
    if waits != [] {
      var init := waits[..|waits| - 1];
      var w := waits[|waits| - 1];
      DistributionIsComplete(init);
      var b := WaitBin(w).value;
      var n := |WaitLabels|;
      var step := Indicator(n, b);
      forall i | 0 <= i < n
        ensures Counts(waits, WaitBin, n)[i] == Counts(init, WaitBin, n)[i] + step[i]
      {
        assert CountIn(waits, WaitBin, i) == CountIn(init, WaitBin, i) + (if WaitBin(w) == Some(i) then 1 else 0);
      }
      assert Counts(waits, WaitBin, n) == PointwiseAdd(Counts(init, WaitBin, n), step);
      SumPointwiseAdd(Counts(init, WaitBin, n), step);
      SumIndicator(n, b);
    } else {
      assert Counts(waits, WaitBin, |WaitLabels|) == seq(|WaitLabels|, _ => 0);
      SumZeros(|WaitLabels|);
    }
  }

  /** As written, a zero wait adds to no label, so the labels account for
      fewer jobs than the table has. */
  lemma DistributionAsWrittenMissesZero(waits: seq<real>)
    ensures Sum(Counts(waits + [0.0], WaitBinAsWritten, |WaitLabels|)) == Sum(Counts(waits, WaitBinAsWritten, |WaitLabels|))
  {
    var n := |WaitLabels|;
    assert (waits + [0.0])[..|waits|] == waits;
    assert Counts(waits + [0.0], WaitBinAsWritten, n) == Counts(waits, WaitBinAsWritten, n);
  }

  function PointwiseAdd(a: seq<int>, b: seq<int>): (r: seq<int>)
    requires |a| == |b|
    ensures |r| == |a|
  {
    seq(|a|, i requires 0 <= i < |a| => a[i] + b[i])
  }

  lemma {:induction false} SumPointwiseAdd(a: seq<int>, b: seq<int>)
    requires |a| == |b|
    ensures Sum(PointwiseAdd(a, b)) == Sum(a) + Sum(b)
  {
    if a != [] {
      var k := |a| - 1;
      assert PointwiseAdd(a, b)[..k] == PointwiseAdd(a[..k], b[..k]);
      SumPointwiseAdd(a[..k], b[..k]);
    }
  }

  /** One at index `b`, zero elsewhere. */
  function Indicator(n: nat, b: nat): (r: seq<int>)
    ensures |r| == n
  {
    seq(n, i requires 0 <= i < n => if i == b then 1 else 0)
  }

  lemma {:induction false} SumIndicator(n: nat, b: nat)
    requires b < n
    ensures Sum(Indicator(n, b)) == 1
  {
    var s := Indicator(n, b);
    if b == n - 1 {
      assert s[..n - 1] == seq(n - 1, _ => 0);
      SumZeros(n - 1);
    } else {
      assert s[..n - 1] == Indicator(n - 1, b);
      SumIndicator(n - 1, b);
    }
  }

  lemma {:induction false} SumZeros(n: nat)
    ensures Sum(seq(n, _ => 0)) == 0
  {
    if n > 0 {
      assert seq(n, _ => 0)[..n - 1] == seq(n - 1, _ => 0);
      SumZeros(n - 1);
    }
  }

  /** CPUs: (0, 1] '1', (1, 4] '2-4', …, (128, 256] '129-256', (256, ∞) '256+'. */
  const CpuEdges: seq<real> := [0.0, 1.0, 4.0, 8.0, 16.0, 32.0, 64.0, 128.0, 256.0]

  const CpuLabels: seq<string> := ["1", "2-4", "5-8", "9-16", "17-32", "33-64", "65-128", "129-256", "256+"]

  function CpuBin(cpus: real): Option<nat>
  {
    Cut(cpus, CpuEdges)
  }

  /** 256 CPUs is '129-256' and '256+' starts above it; a job with 0 CPUs
      has no size bin. */
  lemma CpuBinEdges()
    ensures CpuBin(256.0) == Some(7) && CpuLabels[7] == "129-256"
    ensures CpuBin(257.0) == Some(8) && CpuLabels[8] == "256+"
    ensures CpuBin(1.0) == Some(0) && CpuBin(4.0) == Some(1)
    ensures CpuBin(0.0) == None
  {
    CpuBinOf(256.0, 7);
    CpuBinOf(257.0, 8);
    CpuBinOf(1.0, 0);
    CpuBinOf(4.0, 1);
  }

  lemma CpuBinOf(x: real, i: nat)
    requires i < |CpuEdges| && CpuEdges[i] < x && (i + 1 < |CpuEdges| ==> x <= CpuEdges[i + 1])
    ensures CpuBin(x) == Some(i)
  {
    CutUnique(x, CpuEdges, i);
  }

  // ---------------------------------------------------------------------
  // Week of month and the calendar tables

  function WeekOfMonth(day: int): int
  {
    (day - 1) / 7 + 1
  }

  /** Days 1–7 are week 1 and days 29–31 week 5, so the loop over weeks
      1 to 5 sees every day. */
  lemma WeekOfMonthRange(day: int)
    requires 1 <= day <= 31
    ensures 1 <= WeekOfMonth(day) <= 5
    ensures WeekOfMonth(day) == 1 <==> day <= 7
    ensures WeekOfMonth(day) == 5 <==> day >= 29
    ensures 7 * (WeekOfMonth(day) - 1) < day <= 7 * WeekOfMonth(day)
  {
  }

  function Hours(ws: seq<Waited>): (r: seq<int>)
    ensures |r| == |ws|
  {
    seq(|ws|, k requires 0 <= k < |ws| => ws[k].job.hour)
  }

  function DaysOfWeek(ws: seq<Waited>): (r: seq<int>)
    ensures |r| == |ws|
  {
    seq(|ws|, k requires 0 <= k < |ws| => ws[k].job.dayOfWeek)
  }

  function WeeksOfMonth(ws: seq<Waited>): (r: seq<int>)
    ensures |r| == |ws|
  {
    seq(|ws|, k requires 0 <= k < |ws| => WeekOfMonth(ws[k].job.day))
  }

  function Months(ws: seq<Waited>): (r: seq<int>)
    ensures |r| == |ws|
  {
    seq(|ws|, k requires 0 <= k < |ws| => ws[k].job.month)
  }

  /** The four calendar tables: hours 0–23, weekdays 0–6, weeks 1–5 and
      months 1–12, each holding only keys with jobs, in key order. */
  method CalendarTables(ws: seq<Waited>) returns (hourly: seq<(int, nat)>, daily: seq<(int, nat)>, weekly: seq<(int, nat)>, monthly: seq<(int, nat)>)
    ensures hourly == BucketRows(Hours(ws), 0, 24)
    ensures daily == BucketRows(DaysOfWeek(ws), 0, 7)
    ensures weekly == BucketRows(WeeksOfMonth(ws), 1, 6)
    ensures monthly == BucketRows(Months(ws), 1, 13)
  {
    hourly := NonEmptyBuckets(Hours(ws), 0, 24);
    daily := NonEmptyBuckets(DaysOfWeek(ws), 0, 7);
    weekly := NonEmptyBuckets(WeeksOfMonth(ws), 1, 6);
    monthly := NonEmptyBuckets(Months(ws), 1, 13);
  }

  /** The month table has a row for every month that has jobs, and only for
      those, in calendar order. */
  lemma MonthlyTableFacts(ws: seq<Waited>)
    ensures var rows := BucketRows(Months(ws), 1, 13);
      && (forall a, b :: 0 <= a < b < |rows| ==> rows[a].0 < rows[b].0)
      && (forall a :: 0 <= a < |rows| ==> 1 <= rows[a].0 <= 12 && rows[a].1 > 0)
      && (forall k :: 0 <= k < |ws| && 1 <= ws[k].job.month <= 12 ==> exists a :: 0 <= a < |rows| && rows[a].0 == ws[k].job.month)
  {
    BucketRowsFacts(Months(ws), 1, 13);
    forall k | 0 <= k < |ws| && 1 <= ws[k].job.month <= 12 {
      CountOfPositive(Months(ws), k);
    }
  }

  // ---------------------------------------------------------------------
  // Per-user and per-group tables

  /** Strict threshold counts: under 5 minutes, over an hour, over a day. */
  function CountWhere(ws: seq<Waited>, p: real -> bool): (c: nat)
    ensures c <= |ws|
  {
    if ws == [] then 0
    else CountWhere(ws[..|ws| - 1], p) + (if p(WaitMinutes(ws[|ws| - 1])) then 1 else 0)
  }

  predicate UnderFive(m: real) { m < 5.0 }
  predicate OverHour(m: real) { m > 60.0 }
  predicate OverDay(m: real) { m > 1440.0 }

  /** A wait over a day is also over an hour, and no wait is both under five
      minutes and over an hour; exactly 5 and exactly 60 minutes count in
      none of the three. */
  lemma {:induction false} ThresholdCountsOrdered(ws: seq<Waited>)
    ensures CountWhere(ws, OverDay) <= CountWhere(ws, OverHour)
    ensures CountWhere(ws, UnderFive) + CountWhere(ws, OverHour) <= |ws|
    ensures !UnderFive(5.0) && !OverHour(60.0) && !OverDay(1440.0)
  {
    if ws != [] {
      ThresholdCountsOrdered(ws[..|ws| - 1]);
    }
  }

  function CpuHoursWaited(ws: seq<Waited>): real
  {
    if ws == [] then 0.0
    else
      var w := ws[|ws| - 1];
      CpuHoursWaited(ws[..|ws| - 1]) + (if w.cpus.Some? then w.waitSeconds as real / 3600.0 * w.cpus.value else 0.0)
  }

  lemma {:induction false} CpuHoursWaitedNonNegative(ws: seq<Waited>)
    requires forall k :: 0 <= k < |ws| ==> ws[k].waitSeconds >= 0 && (ws[k].cpus.Some? ==> ws[k].cpus.value >= 0.0)
    ensures CpuHoursWaited(ws) >= 0.0
  {
    if ws != [] {
      CpuHoursWaitedNonNegative(ws[..|ws| - 1]);
      var w := ws[|ws| - 1];
      if w.cpus.Some? {
        assert w.waitSeconds >= 0;
        assert w.waitSeconds as real / 3600.0 * w.cpus.value >= 0.0;
      }
    }
  }

  datatype UserRow = UserRow(user: nat, totalJobs: nat, underFive: nat, overHour: nat, overDay: nat, cpuHoursWaited: Option<real>)

  function UserJobs(ws: seq<Waited>, user: nat): (r: seq<Waited>)
    ensures |r| <= |ws|
    ensures forall k :: 0 <= k < |r| ==> r[k].job.user == Some(user) && r[k] in ws
  {
    if ws == [] then []
    else
      var rest := UserJobs(ws[..|ws| - 1], user);
      assert forall x :: x in ws[..|ws| - 1] ==> x in ws;
      if ws[|ws| - 1].job.user == Some(user) then rest + [ws[|ws| - 1]] else rest
  }

  /** The user's jobs, each as often as in the input, and no other job. */
  lemma {:induction false} UserJobsMultiset(ws: seq<Waited>, user: nat)
    ensures forall x :: multiset(UserJobs(ws, user))[x] == if x.job.user == Some(user) then multiset(ws)[x] else 0
  {
    if ws != [] {
      UserJobsMultiset(ws[..|ws| - 1], user);
      MultisetOfLast(ws);
    }
  }

  function UserRowOf(ws: seq<Waited>, user: nat, cols: set<Column>): UserRow
  {
    var js := UserJobs(ws, user);
    UserRow(user, |js|, CountWhere(js, UnderFive), CountWhere(js, OverHour), CountWhere(js, OverDay),
      if Cpus in cols then Some(CpuHoursWaited(js)) else None)
  }

  function UserRowsOf(ws: seq<Waited>, users: seq<Option<nat>>, cols: set<Column>): seq<UserRow>
  {
    if users == [] then []
    else
      var rest := UserRowsOf(ws, users[..|users| - 1], cols);
      match users[|users| - 1]
      case None => rest
      case Some(u) => rest + [UserRowOf(ws, u, cols)]
  }

  /** `analyze_per_user` over the users `unique()` lists, skipping a
      missing user. */
  method AnalyzePerUser(ws: seq<Waited>, users: seq<Option<nat>>, cols: set<Column>) returns (rows: seq<UserRow>)
    ensures rows == UserRowsOf(ws, users, cols)
  {
    rows := [];
    for i := 0 to |users|
      invariant rows == UserRowsOf(ws, users[..i], cols)
    {
      assert users[..i + 1][..i] == users[..i];
      if users[i].Some? {
        rows := rows + [UserRowOf(ws, users[i].value, cols)];
      }
    }
    assert users[..|users|] == users;
  }

  /** Each user row counts only that user's jobs, and its threshold counts
      are ordered as above. */
  lemma {:induction false} UserRowsFacts(ws: seq<Waited>, users: seq<Option<nat>>, cols: set<Column>)
    ensures forall r :: r in UserRowsOf(ws, users, cols) ==>
      && Some(r.user) in users
      && r.totalJobs == |UserJobs(ws, r.user)|
      && r.overDay <= r.overHour
      && r.underFive + r.overHour <= r.totalJobs
      && (r.cpuHoursWaited.Some? <==> Cpus in cols)
  {
    if users != [] {
      UserRowsFacts(ws, users[..|users| - 1], cols);
      if users[|users| - 1].Some? {
        ThresholdCountsOrdered(UserJobs(ws, users[|users| - 1].value));
      }
    }
  }

  datatype GroupRow = GroupRow(group: nat, totalJobs: nat, uniqueUsers: nat, cpuHoursWaited: Option<real>)

  function GroupJobs(ws: seq<Waited>, group: nat): (r: seq<Waited>)
    ensures |r| <= |ws|
    ensures forall k :: 0 <= k < |r| ==> r[k].job.group == Some(group)
  {
    if ws == [] then []
    else
      var rest := GroupJobs(ws[..|ws| - 1], group);
      if ws[|ws| - 1].job.group == Some(group) then rest + [ws[|ws| - 1]] else rest
  }

  /** The group's jobs, each as often as in the input, and no other job. */
  lemma {:induction false} GroupJobsMultiset(ws: seq<Waited>, group: nat)
    ensures forall x :: multiset(GroupJobs(ws, group))[x] == if x.job.group == Some(group) then multiset(ws)[x] else 0
  {
    if ws != [] {
      GroupJobsMultiset(ws[..|ws| - 1], group);
      MultisetOfLast(ws);
    }
  }

  /** `nunique()` skips a missing user. */
  function UsersOf(ws: seq<Waited>): set<nat>
  {
    set k | 0 <= k < |ws| && ws[k].job.user.Some? :: ws[k].job.user.value
  }

  function GroupRowOf(ws: seq<Waited>, group: nat, cols: set<Column>): GroupRow
  {
    var js := GroupJobs(ws, group);
    GroupRow(group, |js|, if User in cols then |UsersOf(js)| else 0, if Cpus in cols then Some(CpuHoursWaited(js)) else None)
  }

  function GroupRowsOf(ws: seq<Waited>, groups: seq<Option<nat>>, cols: set<Column>): seq<GroupRow>
  {
    if groups == [] then []
    else
      var rest := GroupRowsOf(ws, groups[..|groups| - 1], cols);
      match groups[|groups| - 1]
      case None => rest
      case Some(g) => rest + [GroupRowOf(ws, g, cols)]
  }

  /** `analyze_per_group`. */
  method AnalyzePerGroup(ws: seq<Waited>, groups: seq<Option<nat>>, cols: set<Column>) returns (rows: seq<GroupRow>)
    ensures rows == GroupRowsOf(ws, groups, cols)
  {
    rows := [];
    for i := 0 to |groups|
      invariant rows == GroupRowsOf(ws, groups[..i], cols)
    {
      assert groups[..i + 1][..i] == groups[..i];
      if groups[i].Some? {
        rows := rows + [GroupRowOf(ws, groups[i].value, cols)];
      }
    }
    assert groups[..|groups|] == groups;
  }
}
