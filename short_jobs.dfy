/** analyze_short_jobs_and_arrays.py: the runtime-threshold table, the
    greedy detection of job arrays and workflow chains over each user's jobs
    in submit order, and the scheduler-overhead estimates. */
module ShortJobs {
  import opened Common

  /** A job row: timestamps in seconds. */
  datatype Job = Job(submit: int, start: int, end: int, cpus: nat, memReq: nat)

  function Runtime(j: Job): int
  {
    j.end - j.start
  }

  /** Only jobs with a positive run time are analysed. */
  predicate Analysed(j: Job)
  {
    Runtime(j) > 0
  }

  function KeepAnalysed(jobs: seq<Job>): (r: seq<Job>)
    ensures |r| <= |jobs|
    ensures forall k :: 0 <= k < |r| ==> Analysed(r[k]) && r[k] in jobs
    ensures forall k :: 0 <= k < |jobs| && Analysed(jobs[k]) ==> jobs[k] in r
  {
    if jobs == [] then []
    else
      var rest := KeepAnalysed(jobs[..|jobs| - 1]);
      var j := jobs[|jobs| - 1];
      assert forall x :: x in jobs[..|jobs| - 1] ==> x in jobs;
      if Analysed(j) then rest + [j] else rest
  }

  /** The analysed jobs, each as often as in the input, and nothing else. */
  lemma {:induction false} KeepAnalysedMultiset(jobs: seq<Job>)
    ensures forall x :: multiset(KeepAnalysed(jobs))[x] == if Analysed(x) then multiset(jobs)[x] else 0
  {
    if jobs != [] {
      KeepAnalysedMultiset(jobs[..|jobs| - 1]);
      MultisetOfLast(jobs);
    }
  }

  /** CPU-seconds of the jobs, as `(cpus * runtime_seconds).sum()`. */
  function CpuSeconds(jobs: seq<Job>): int
  {
    if jobs == [] then 0 else CpuSeconds(jobs[..|jobs| - 1]) + jobs[|jobs| - 1].cpus * Runtime(jobs[|jobs| - 1])
  }

  function CpuHours(jobs: seq<Job>): real
  {
    CpuSeconds(jobs) as real / 3600.0
  }

  lemma {:induction false} CpuSecondsNonNegative(jobs: seq<Job>)
    requires forall k :: 0 <= k < |jobs| ==> Analysed(jobs[k])
    ensures CpuSeconds(jobs) >= 0
  {
    if jobs != [] {
      CpuSecondsNonNegative(jobs[..|jobs| - 1]);
    }
  }

  // ---------------------------------------------------------------------
  // Threshold table

  const Thresholds: seq<int> := [30, 60, 300, 900, 3600]

  /** The jobs with `runtime_seconds <= limit`. */
  function AtMost(jobs: seq<Job>, limit: int): (r: seq<Job>)
    ensures |r| <= |jobs|
    ensures forall k :: 0 <= k < |r| ==> Runtime(r[k]) <= limit
  {
    if jobs == [] then []
    else
      var rest := AtMost(jobs[..|jobs| - 1], limit);
      if Runtime(jobs[|jobs| - 1]) <= limit then rest + [jobs[|jobs| - 1]] else rest
  }

  /** The jobs at or under the limit, each as often as in the input, and
      nothing else. */
  lemma {:induction false} AtMostMultiset(jobs: seq<Job>, limit: int)
    ensures forall x :: multiset(AtMost(jobs, limit))[x] == if Runtime(x) <= limit then multiset(jobs)[x] else 0
  {
    if jobs != [] {
      AtMostMultiset(jobs[..|jobs| - 1], limit);
      MultisetOfLast(jobs);
    }
  }

  /** A higher threshold selects at least the jobs a lower one does. */
  lemma {:induction false} AtMostMonotone(jobs: seq<Job>, a: int, b: int)
    requires a <= b
    ensures |AtMost(jobs, a)| <= |AtMost(jobs, b)|
  {
    if jobs != [] {
      AtMostMonotone(jobs[..|jobs| - 1], a, b);
    }
  }

  /** The counts of the table never decrease from 30 s up to one hour. */
  lemma ThresholdCountsMonotone(jobs: seq<Job>)
    ensures forall k :: 0 <= k < |Thresholds| - 1 ==> |AtMost(jobs, Thresholds[k])| <= |AtMost(jobs, Thresholds[k + 1])|
  {
    forall k | 0 <= k < |Thresholds| - 1
      ensures |AtMost(jobs, Thresholds[k])| <= |AtMost(jobs, Thresholds[k + 1])|
    {
      AtMostMonotone(jobs, Thresholds[k], Thresholds[k + 1]);
    }
  }

  /** Estimated scheduler time: three seconds per job, in hours. */
  function OverheadHours(count: nat): real
  {
    (count * 3) as real / 3600.0
  }

  /** Overhead as a percentage of the useful CPU-hours; 0 when there are
      none. */
  function OverheadRatio(overheadHours: real, cpuHours: real): (r: real)
    requires overheadHours >= 0.0
    ensures cpuHours <= 0.0 ==> r == 0.0
    ensures cpuHours > 0.0 ==> r * cpuHours == overheadHours * 100.0
    ensures cpuHours > 0.0 ==> r >= 0.0
  {
    if cpuHours > 0.0 then (overheadHours / cpuHours) * 100.0 else 0.0
  }

  datatype ThresholdRow = ThresholdRow(threshold: int, count: nat, pctJobs: real, cpuHours: real, overheadHours: real, overheadRatio: real)

  function RowFor(jobs: seq<Job>, threshold: int): (r: ThresholdRow)
    requires |AtMost(jobs, threshold)| > 0
    ensures r.threshold == threshold && r.count == |AtMost(jobs, threshold)|
    ensures r.overheadHours * 1200.0 == r.count as real
  {
    var s := AtMost(jobs, threshold);
    ThresholdRow(threshold, |s|, (|s| as real / |jobs| as real) * 100.0, CpuHours(s),
      OverheadHours(|s|), OverheadRatio(OverheadHours(|s|), CpuHours(s)))
  }

  /** The rows for thresholds `ts`: one per threshold that selects a job,
      in order. */
  function SummaryRows(jobs: seq<Job>, ts: seq<int>): seq<ThresholdRow>
  {
    if ts == [] then []
    else
      var t := ts[|ts| - 1];
      SummaryRows(jobs, ts[..|ts| - 1]) + (if |AtMost(jobs, t)| > 0 then [RowFor(jobs, t)] else [])
  }

  /** The threshold loop. */
  method ShortJobsSummary(jobs: seq<Job>) returns (rows: seq<ThresholdRow>)
    ensures rows == SummaryRows(jobs, Thresholds)
  {
    rows := [];
    for k := 0 to |Thresholds|
      invariant rows == SummaryRows(jobs, Thresholds[..k])
    {
      var t := Thresholds[k];
      assert Thresholds[..k + 1][..k] == Thresholds[..k];
      if |AtMost(jobs, t)| > 0 {
        rows := rows + [RowFor(jobs, t)];
      }
    }
    assert Thresholds[..|Thresholds|] == Thresholds;
  }

  /** Each row belongs to a threshold that selects a job and is computed
      from exactly the jobs at or under it; each such threshold has a row. */
  lemma {:induction false} SummaryRowsFacts(jobs: seq<Job>, ts: seq<int>)
    ensures |SummaryRows(jobs, ts)| <= |ts|
    ensures forall r :: r in SummaryRows(jobs, ts) ==>
      r.threshold in ts && |AtMost(jobs, r.threshold)| > 0 && r == RowFor(jobs, r.threshold)
    ensures forall t :: t in ts && |AtMost(jobs, t)| > 0 ==> exists r :: r in SummaryRows(jobs, ts) && r.threshold == t
  {
    if ts != [] {
      var init := ts[..|ts| - 1];
      var t := ts[|ts| - 1];
      SummaryRowsFacts(jobs, init);
      assert ts == init + [t];
      if |AtMost(jobs, t)| > 0 {
        assert RowFor(jobs, t) in SummaryRows(jobs, ts);
      }
    }
  }

  /** Once a threshold has a row, every larger one has a row too: the rows
      are a tail of the table. */
  lemma RowsFormATail(jobs: seq<Job>, k: nat, m: nat)
    requires k <= m < |Thresholds| && |AtMost(jobs, Thresholds[k])| > 0
    ensures |AtMost(jobs, Thresholds[m])| > 0
  {
    AtMostMonotone(jobs, Thresholds[k], Thresholds[m]);
  }

  // ---------------------------------------------------------------------
  // Greedy segmentation into arrays and workflow chains

  /** Which kind of run is being looked for. */
  datatype Rule = ArrayRule | WorkflowRule

  /** `0.8 <= ratio <= 1.2`, the ratio taken as 1 when the anchor's value
      is 0. */
  predicate Similar(anchor: nat, x: nat)
  {
    var ratio := if anchor > 0 then x as real / anchor as real else 1.0;
    0.8 <= ratio <= 1.2
  }

  /** Against a positive anchor, similarity is a band of ±20%; against a
      zero anchor, anything is similar. */
  lemma SimilarMeaning(anchor: nat, x: nat)
    ensures anchor > 0 ==> (Similar(anchor, x) <==> 0.8 * anchor as real <= x as real <= 1.2 * anchor as real)
    ensures anchor == 0 ==> Similar(anchor, x)
  {
    if anchor > 0 {
      var a := anchor as real;
      var q := x as real / a;
      assert q * a == x as real;
      assert 0.8 <= q <==> 0.8 * a <= q * a;
      assert q <= 1.2 <==> q * a <= 1.2 * a;
    }
  }

  /** Whether job `j` continues the run anchored at `anchor`: for an array,
      submitted at most 10 s after its predecessor with CPUs and memory
      similar to the anchor's; for a workflow, submitted 0 to 300 s after
      its predecessor ended. */
  predicate Link(rule: Rule, jobs: seq<Job>, anchor: nat, j: nat)
    requires anchor < j < |jobs|
  {
    match rule
    case ArrayRule =>
      && jobs[j].submit - jobs[j - 1].submit <= 10
      && Similar(jobs[anchor].cpus, jobs[j].cpus)
      && Similar(jobs[anchor].memReq, jobs[j].memReq)
    case WorkflowRule =>
      0 <= jobs[j].submit - jobs[j - 1].end <= 300
  }

  /** The first index from `j` on that does not continue the run. */
  function RunEndFrom(rule: Rule, jobs: seq<Job>, anchor: nat, j: nat): (e: nat)
    requires anchor < j <= |jobs|
    ensures j <= e <= |jobs|
    decreases |jobs| - j
  {
    if j == |jobs| || !Link(rule, jobs, anchor, j) then j else RunEndFrom(rule, jobs, anchor, j + 1)
  }

  /** Where the run starting at `i` ends (exclusive). */
  function RunEnd(rule: Rule, jobs: seq<Job>, i: nat): nat
    requires i < |jobs|
  {
    RunEndFrom(rule, jobs, i, i + 1)
  }

  /** A run holds exactly the jobs that link without a gap, and stops at
      the first one that does not. */
  lemma {:induction false} RunEndFromMeaning(rule: Rule, jobs: seq<Job>, anchor: nat, j: nat)
    requires anchor < j <= |jobs|
    requires forall k :: anchor < k < j ==> Link(rule, jobs, anchor, k)
    ensures forall k :: anchor < k < RunEndFrom(rule, jobs, anchor, j) ==> Link(rule, jobs, anchor, k)
    ensures RunEndFrom(rule, jobs, anchor, j) == |jobs| || !Link(rule, jobs, anchor, RunEndFrom(rule, jobs, anchor, j))
    decreases |jobs| - j
  {
    if j < |jobs| && Link(rule, jobs, anchor, j) {
      RunEndFromMeaning(rule, jobs, anchor, j + 1);
    }
  }

  /** Runs are reported when they hold at least three jobs. */
  const MinRun: nat := 3

  /** The runs found from index `i` on, as half-open index ranges: a
      reported run resumes the scan at its end, otherwise the scan moves
      one job on. */
  function Segments(rule: Rule, jobs: seq<Job>, i: nat): seq<(nat, nat)>
    requires i <= |jobs|
    decreases |jobs| - i
  {
    if i == |jobs| then []
    else
      var e := RunEnd(rule, jobs, i);
      if e - i >= MinRun then [(i, e)] + Segments(rule, jobs, e) else Segments(rule, jobs, i + 1)
  }

  /** The scan over one user's jobs: the outer loop anchors at `i`, the
      inner loop extends the run while jobs link. */
  method SegmentUser(rule: Rule, jobs: seq<Job>) returns (runs: seq<(nat, nat)>)
    ensures runs == Segments(rule, jobs, 0)
  {
    runs := [];
    var i := 0;
    while i < |jobs|
      invariant 0 <= i <= |jobs|
      invariant runs + Segments(rule, jobs, i) == Segments(rule, jobs, 0)
      decreases |jobs| - i
    {
      var j := ExtendRun(rule, jobs, i);
      if j - i >= MinRun {
        assert Segments(rule, jobs, i) == [(i, j)] + Segments(rule, jobs, j);
        assert (runs + [(i, j)]) + Segments(rule, jobs, j) == runs + ([(i, j)] + Segments(rule, jobs, j));
        runs := runs + [(i, j)];
        i := j;
      } else {
        assert Segments(rule, jobs, i) == Segments(rule, jobs, i + 1);
        i := i + 1;
      }
    }
  }

  /** The inner loop: from the job after the anchor, move on while the
      next job links. */
  method ExtendRun(rule: Rule, jobs: seq<Job>, i: nat) returns (j: nat)
    requires i < |jobs|
    ensures j == RunEnd(rule, jobs, i)
  {
    j := i + 1;
    while j < |jobs|
      invariant i < j <= |jobs|
      invariant RunEndFrom(rule, jobs, i, j) == RunEnd(rule, jobs, i)
      decreases |jobs| - j
    {
      if !Link(rule, jobs, i, j) {
        break;
      }
      j := j + 1;
    }
  }

  /** A well-formed list of runs over `n` jobs from index `lo` on: each at
      least three jobs long, in order, pairwise disjoint. */
  ghost predicate DisjointRuns(runs: seq<(nat, nat)>, lo: nat, n: nat)
  {
    && (forall a :: 0 <= a < |runs| ==> lo <= runs[a].0 && runs[a].0 + MinRun <= runs[a].1 <= n)
    && (forall a, b :: 0 <= a < b < |runs| ==> runs[a].1 <= runs[b].0)
  }

  /** A run placed before disjoint runs that start after it keeps them
      disjoint. */
  lemma DisjointCons(run: (nat, nat), rest: seq<(nat, nat)>, lo: nat, n: nat)
    requires lo <= run.0 && run.0 + MinRun <= run.1 <= n
    requires DisjointRuns(rest, run.1, n)
    ensures DisjointRuns([run] + rest, lo, n)
  {
    var all := [run] + rest;
    forall a | 0 < a < |all|
      ensures all[a] == rest[a - 1]
    {
    }
  }

  /** Every reported run is a maximal chain of linked jobs of at least
      three. */
  lemma {:induction false} SegmentsAreMaximalRuns(rule: Rule, jobs: seq<Job>, i: nat)
    requires i <= |jobs|
    ensures forall r :: r in Segments(rule, jobs, i) ==>
      i <= r.0 && r.0 + MinRun <= r.1 <= |jobs| && r.1 == RunEnd(rule, jobs, r.0)
      && (forall k :: r.0 < k < r.1 ==> Link(rule, jobs, r.0, k))
      && (r.1 == |jobs| || !Link(rule, jobs, r.0, r.1))
    decreases |jobs| - i
  {
    if i < |jobs| {
      var e := RunEnd(rule, jobs, i);
      RunEndFromMeaning(rule, jobs, i, i + 1);
      if e - i >= MinRun {
        SegmentsAreMaximalRuns(rule, jobs, e);
      } else {
        SegmentsAreMaximalRuns(rule, jobs, i + 1);
      }
    }
  }

  /** The runs are disjoint, contiguous ranges in submit order. */
  lemma {:induction false} SegmentsAreDisjoint(rule: Rule, jobs: seq<Job>, i: nat)
    requires i <= |jobs|
    ensures DisjointRuns(Segments(rule, jobs, i), i, |jobs|)
    decreases |jobs| - i
  {
    if i < |jobs| {
      var e := RunEnd(rule, jobs, i);
      if e - i >= MinRun {
        SegmentsAreDisjoint(rule, jobs, e);
        assert Segments(rule, jobs, i) == [(i, e)] + Segments(rule, jobs, e);
        DisjointCons((i, e), Segments(rule, jobs, e), i, |jobs|);
      } else {
        SegmentsAreDisjoint(rule, jobs, i + 1);
      }
    }
  }

  /** Arrays are looked for only for users with 2 or more jobs, workflows
      only for users with 3 or more. */
  function MinJobs(rule: Rule): nat
  {
    match rule
    case ArrayRule => 2
    case WorkflowRule => 3
  }

  /** What one user contributes. */
  function UserSegments(rule: Rule, jobs: seq<Job>): seq<(nat, nat)>
  {
    if |jobs| < MinJobs(rule) then [] else Segments(rule, jobs, 0)
  }

  /** A run needs three jobs, so skipping users with fewer jobs than the
      minimum never drops a run. */
  lemma SkippingSmallUsersLosesNothing(rule: Rule, jobs: seq<Job>)
    ensures UserSegments(rule, jobs) == Segments(rule, jobs, 0)
  {
    SegmentsAreDisjoint(rule, jobs, 0);
    var s := Segments(rule, jobs, 0);
    assert |s| > 0 ==> s[0].0 + MinRun <= |jobs|;
  }

  /** A run found for user `user` (an index into the per-user job lists). */
  datatype Found = Found(user: nat, first: nat, end: nat)

  function Tag(user: nat, runs: seq<(nat, nat)>): (r: seq<Found>)
    ensures |r| == |runs|
    ensures forall k :: 0 <= k < |runs| ==> r[k] == Found(user, runs[k].0, runs[k].1)
  {
    seq(|runs|, k requires 0 <= k < |runs| => Found(user, runs[k].0, runs[k].1))
  }

  /** The runs of all users, user by user. */
  function AllSegments(rule: Rule, users: seq<seq<Job>>): seq<Found>
  {
    if users == [] then []
    else AllSegments(rule, users[..|users| - 1]) + Tag(|users| - 1, UserSegments(rule, users[|users| - 1]))
  }

  /** `detect_job_arrays` and `detect_workflow_sequences`: the loop over
      users, each given as their jobs in submit order. */
  method Detect(rule: Rule, users: seq<seq<Job>>) returns (found: seq<Found>)
    ensures found == AllSegments(rule, users)
  {
    found := [];
    for u := 0 to |users|
      invariant found == AllSegments(rule, users[..u])
    {
      assert users[..u + 1][..u] == users[..u];
      var runs: seq<(nat, nat)> := [];
      if |users[u]| >= MinJobs(rule) {
        runs := SegmentUser(rule, users[u]);
      }
      found := found + Tag(u, runs);
    }
    assert users[..|users|] == users;
  }

  /** The jobs with `runtime_seconds <= 300` in a run. */
  function ShortCount(jobs: seq<Job>): nat
  {
    |AtMost(jobs, 300)|
  }

  /** `is_short_jobs`: the mean of the short flags is above one half. */
  predicate IsShortChain(jobs: seq<Job>)
    requires |jobs| > 0
  {
    ShortCount(jobs) as real / |jobs| as real > 0.5
  }

  /** ... that is, strictly more than half the chain is short. */
  lemma IsShortChainMeaning(jobs: seq<Job>)
    requires |jobs| > 0
    ensures IsShortChain(jobs) <==> 2 * ShortCount(jobs) > |jobs|
  {
    AboveHalf(ShortCount(jobs) as real, |jobs| as real);
  }

  lemma AboveHalf(c: real, n: real)
    requires n > 0.0
    ensures c / n > 0.5 <==> 2.0 * c > n
  {
    var q := c / n;
    assert q * n == c;
    if q > 0.5 {
      assert (q - 0.5) * n > 0.0;
    }
    if 2.0 * c > n {
      assert (q - 0.5) * n > 0.0;
    }
  }

  // ---------------------------------------------------------------------
  // Scheduler overhead

  datatype Category = AllJobs | ShortJobs5Min | VeryShortJobs1Min | JobArrays | WorkflowSequences

  datatype OverheadRow = OverheadRow(category: Category, count: nat, overheadHours: real, usefulCpuHours: real, ratio: real)

  function MakeRow(c: Category, count: nat, cpuHours: real): OverheadRow
  {
    OverheadRow(c, count, OverheadHours(count), cpuHours, OverheadRatio(OverheadHours(count), cpuHours))
  }

  /** The overhead table: all jobs always, then a row for short jobs, very
      short jobs, arrays and workflow chains each when there are any. The
      arrays and chains are given as (job count, CPU-hours) per run. */
  function OverheadTable(jobs: seq<Job>, arrays: seq<(nat, real)>, chains: seq<(nat, real)>): seq<OverheadRow>
  {
    var short := AtMost(jobs, 300);
    var veryShort := AtMost(jobs, 60);
    [MakeRow(AllJobs, |jobs|, CpuHours(jobs))]
    + (if |short| > 0 then [MakeRow(ShortJobs5Min, |short|, CpuHours(short))] else [])
    + (if |veryShort| > 0 then [MakeRow(VeryShortJobs1Min, |veryShort|, CpuHours(veryShort))] else [])
    + (if |arrays| > 0 then [MakeRow(JobArrays, RunJobs(arrays), RunCpuHours(arrays))] else [])
    + (if |chains| > 0 then [MakeRow(WorkflowSequences, RunJobs(chains), RunCpuHours(chains))] else [])
  }

  /** A row has jobs unless it is the all-jobs row, and charges three
      seconds a job: 1200 jobs make one overhead hour. */
  predicate ChargesPerJob(r: OverheadRow)
  {
    (r.count > 0 || r.category == AllJobs) && r.overheadHours * 1200.0 == r.count as real
  }

  lemma MakeRowCharges(c: Category, count: nat, cpuHours: real)
    requires count > 0 || c == AllJobs
    ensures ChargesPerJob(MakeRow(c, count, cpuHours))
  {
    assert (count * 3) as real / 3600.0 * 1200.0 == count as real;
  }

  /** The first row covers every job; every other row is there only when
      its category has jobs, and every row charges three seconds a job. */
  lemma OverheadTableFacts(jobs: seq<Job>, arrays: seq<(nat, real)>, chains: seq<(nat, real)>)
    requires forall k :: 0 <= k < |arrays| ==> arrays[k].0 >= MinRun
    requires forall k :: 0 <= k < |chains| ==> chains[k].0 >= MinRun
    ensures var rows := OverheadTable(jobs, arrays, chains);
      && |rows| >= 1 && rows[0].category == AllJobs && rows[0].count == |jobs|
      && (forall r :: r in rows ==> ChargesPerJob(r))
      && ((exists r :: r in rows && r.category == JobArrays) <==> |arrays| > 0)
      && ((exists r :: r in rows && r.category == ShortJobs5Min) <==> |AtMost(jobs, 300)| > 0)
  {
    var rows := OverheadTable(jobs, arrays, chains);
    forall r | r in rows
      ensures ChargesPerJob(r)
      ensures r.category == JobArrays ==> |arrays| > 0
      ensures r.category == ShortJobs5Min ==> |AtMost(jobs, 300)| > 0
    {
      OverheadRowOrigin(jobs, arrays, chains, r);
    }
    if |arrays| > 0 {
      var short, veryShort := AtMost(jobs, 300), AtMost(jobs, 60);
      var k := 1 + (if |short| > 0 then 1 else 0) + (if |veryShort| > 0 then 1 else 0);
      assert rows[k].category == JobArrays;
    }
    if |AtMost(jobs, 300)| > 0 {
      assert rows[1].category == ShortJobs5Min;
    }
  }

  /** Where a row of the table comes from. */
  lemma OverheadRowOrigin(jobs: seq<Job>, arrays: seq<(nat, real)>, chains: seq<(nat, real)>, r: OverheadRow)
    requires forall k :: 0 <= k < |arrays| ==> arrays[k].0 >= MinRun
    requires forall k :: 0 <= k < |chains| ==> chains[k].0 >= MinRun
    requires r in OverheadTable(jobs, arrays, chains)
    ensures ChargesPerJob(r)
    ensures r.category == JobArrays ==> |arrays| > 0
    ensures r.category == ShortJobs5Min ==> |AtMost(jobs, 300)| > 0
  {
    var short := AtMost(jobs, 300);
    var veryShort := AtMost(jobs, 60);
    var a := [MakeRow(AllJobs, |jobs|, CpuHours(jobs))];
    var b := if |short| > 0 then [MakeRow(ShortJobs5Min, |short|, CpuHours(short))] else [];
    var c := if |veryShort| > 0 then [MakeRow(VeryShortJobs1Min, |veryShort|, CpuHours(veryShort))] else [];
    var d := if |arrays| > 0 then [MakeRow(JobArrays, RunJobs(arrays), RunCpuHours(arrays))] else [];
    var e := if |chains| > 0 then [MakeRow(WorkflowSequences, RunJobs(chains), RunCpuHours(chains))] else [];
    assert OverheadTable(jobs, arrays, chains) == a + b + c + d + e;
    InFiveParts(a, b, c, d, e, r);
    if r in a {
      MakeRowCharges(AllJobs, |jobs|, CpuHours(jobs));
    } else if r in b {
      MakeRowCharges(ShortJobs5Min, |short|, CpuHours(short));
    } else if r in c {
      MakeRowCharges(VeryShortJobs1Min, |veryShort|, CpuHours(veryShort));
    } else if r in d {
      MakeRowCharges(JobArrays, RunJobs(arrays), RunCpuHours(arrays));
    } else {
      MakeRowCharges(WorkflowSequences, RunJobs(chains), RunCpuHours(chains));
    }
  }

  lemma InFiveParts<T>(a: seq<T>, b: seq<T>, c: seq<T>, d: seq<T>, e: seq<T>, x: T)
    requires x in a + b + c + d + e
    ensures x in a || x in b || x in c || x in d || x in e
  {
  }

  function RunJobs(runs: seq<(nat, real)>): (n: nat)
    ensures |runs| > 0 && (forall k :: 0 <= k < |runs| ==> runs[k].0 > 0) ==> n > 0
  {
    if runs == [] then 0 else runs[0].0 + RunJobs(runs[1..])
  }

  function RunCpuHours(runs: seq<(nat, real)>): real
  {
    if runs == [] then 0.0 else runs[0].1 + RunCpuHours(runs[1..])
  }

  // ---------------------------------------------------------------------
  // The overhead table over the detected runs

  /** A found run lies inside its user's jobs and holds at least three. */
  predicate WellPlaced(users: seq<seq<Job>>, f: Found)
  {
    f.user < |users| && f.first + MinRun <= f.end <= |users[f.user]|
  }

  predicate AllPlaced(users: seq<seq<Job>>, found: seq<Found>)
  {
    forall k :: 0 <= k < |found| ==> WellPlaced(users, found[k])
  }

  /** Every run `Detect` reports lies inside its user's jobs and holds at
      least three of them. */
  lemma {:induction false} DetectedRunsArePlaced(rule: Rule, users: seq<seq<Job>>)
    ensures AllPlaced(users, AllSegments(rule, users))
  {
    if users != [] {
      var u := |users| - 1;
      var init := users[..u];
      DetectedRunsArePlaced(rule, init);
      var rest := AllSegments(rule, init);
      var runs := UserSegments(rule, users[u]);
      var tagged := Tag(u, runs);
      if |users[u]| >= MinJobs(rule) {
        SegmentsAreMaximalRuns(rule, users[u], 0);
      }
      assert AllSegments(rule, users) == rest + tagged;
      forall k | 0 <= k < |rest + tagged|
        ensures WellPlaced(users, (rest + tagged)[k])
      {
        if k < |rest| {
          assert init[rest[k].user] == users[rest[k].user];
        } else {
          assert runs[k - |rest|] in Segments(rule, users[u], 0);
        }
      }
    }
  }

  /** The per-run `array_size` (or `sequence_length`) and `total_cpu_hours`
      of the found runs: the jobs of the run and their CPU-hours. */
  function RunStats(users: seq<seq<Job>>, found: seq<Found>): (r: seq<(nat, real)>)
    requires AllPlaced(users, found)
    ensures |r| == |found|
    ensures forall k :: 0 <= k < |r| ==> r[k].0 >= MinRun
  {
    seq(|found|, k requires 0 <= k < |found| =>
      (found[k].end - found[k].first, CpuHours(users[found[k].user][found[k].first..found[k].end])))
  }

  /** The overhead table built from what `Detect` finds for arrays and for
      workflow chains: every row charges three seconds a job, and the
      arrays and chains rows are there exactly when runs were found. */
  lemma DetectedOverheadTable(jobs: seq<Job>, users: seq<seq<Job>>)
    ensures AllPlaced(users, AllSegments(ArrayRule, users)) && AllPlaced(users, AllSegments(WorkflowRule, users))
    ensures forall r :: (r in OverheadTable(jobs, RunStats(users, AllSegments(ArrayRule, users)), RunStats(users, AllSegments(WorkflowRule, users)))
      ==> ChargesPerJob(r))
    ensures (exists r :: (r in OverheadTable(jobs, RunStats(users, AllSegments(ArrayRule, users)), RunStats(users, AllSegments(WorkflowRule, users)))
      && r.category == JobArrays)) <==> |AllSegments(ArrayRule, users)| > 0
  {
    DetectedRunsArePlaced(ArrayRule, users);
    DetectedRunsArePlaced(WorkflowRule, users);
    OverheadTableFacts(jobs, RunStats(users, AllSegments(ArrayRule, users)), RunStats(users, AllSegments(WorkflowRule, users)));
  }
}
