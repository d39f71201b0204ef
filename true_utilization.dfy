/** analyze_true_utilization.py: event-based allocation tracking.

    Every job that ran contributes a start event and an end event. The events,
    sorted by time, are swept once while running CPU and memory totals are
    kept; every event yields one time-series point. The sort itself is the
    caller's (pandas `sort_values`): the sweep accepts ANY ordering of the
    events by non-decreasing time, so every tie order is covered. */
module TrueUtilization {
  import opened Common

  /** A row of the job CSV after timestamp and numeric coercion. */
  datatype RawJob = RawJob(start: Option<int>, end: Option<int>,
                           cpus: Option<nat>, memReq: Option<nat>, nodes: Option<nat>)

  /** A job that ran: both timestamps present, missing counts defaulted. */
  datatype Job = Job(start: int, end: int, cpus: nat, memReq: nat, nodes: nat)

  /** The filter of load_job_data: both timestamps present and start < end. */
  predicate Ran(r: RawJob)
  {
    r.start.Some? && r.end.Some? && r.start.value < r.end.value
  }

  /** cpus and nodes default to 1, mem_req to 0. */
  function Clean(r: RawJob): Job
    requires r.start.Some? && r.end.Some?
  {
    Job(r.start.value, r.end.value,
        if r.cpus.Some? then r.cpus.value else 1,
        if r.memReq.Some? then r.memReq.value else 0,
        if r.nodes.Some? then r.nodes.value else 1)
  }

  /** load_job_data: exactly the rows that ran are kept, with defaults filled. */
  function LoadJobs(raw: seq<RawJob>): (jobs: seq<Job>)
    ensures |jobs| <= |raw|
    ensures forall j :: j in jobs ==> j.start < j.end
    ensures forall r :: r in raw && Ran(r) ==> Clean(r) in jobs
    ensures forall j :: j in jobs ==> exists r :: r in raw && Ran(r) && j == Clean(r)
  {
    if raw == [] then []
    else
      var rest := LoadJobs(raw[..|raw| - 1]);
      var r := raw[|raw| - 1];
      assert forall x :: x in raw <==> x in raw[..|raw| - 1] || x == r;
      if Ran(r) then rest + [Clean(r)] else rest
  }

  /** The rows that ran, in input order. */
  function RanRows(raw: seq<RawJob>): (r: seq<RawJob>)
    ensures forall k :: 0 <= k < |r| ==> Ran(r[k])
  {
    if raw == [] then []
    else
      var rest := RanRows(raw[..|raw| - 1]);
      if Ran(raw[|raw| - 1]) then rest + [raw[|raw| - 1]] else rest
  }

  /** Every row that ran, as often as the input holds it, and no other. */
  lemma {:induction false} RanRowsMultiset(raw: seq<RawJob>)
    ensures forall x :: multiset(RanRows(raw))[x] == if Ran(x) then multiset(raw)[x] else 0
  {
    if raw != [] {
      RanRowsMultiset(raw[..|raw| - 1]);
      MultisetOfLast(raw);
    }
  }

  /** The loaded jobs are the rows that ran, in order, one job per row,
      each with its defaults filled in. */
  lemma {:induction false} LoadJobsCleansRanRows(raw: seq<RawJob>)
    ensures |LoadJobs(raw)| == |RanRows(raw)|
    ensures forall k :: 0 <= k < |LoadJobs(raw)| ==> LoadJobs(raw)[k] == Clean(RanRows(raw)[k])
  {
    if raw != [] {
      LoadJobsCleansRanRows(raw[..|raw| - 1]);
    }
  }

  // ---------------------------------------------------------------------
  // Cluster capacity

  /** A cluster-configuration CSV: its header and its rows. A cell missing
      from a row's map is empty or non-numeric (NaN after `to_numeric`). */
  datatype ConfigTable = ConfigTable(columns: set<string>, rows: seq<map<string, int>>)

  datatype Capacity = Capacity(totalNodes: nat, totalCpus: int, totalMemoryMb: int)

  const CpuColumns: seq<string> := ["cpus", "CPUs", "num_proc", "slots", "slots_total"]
  const MemoryColumns: seq<string> := ["memory_mb", "mem_total_mb", "Memory", "mem_total"]

  /** pandas `.sum()` of a column: NaN cells are skipped. */
  function ColumnSum(rows: seq<map<string, int>>, col: string): int
  {
    if rows == [] then 0
    else
      var last := rows[|rows| - 1];
      ColumnSum(rows[..|rows| - 1], col) + (if col in last then last[col] else 0)
  }

  /** Index of the first candidate, at or after `from`, that is a column. */
  function FirstPresentFrom(candidates: seq<string>, columns: set<string>, from: nat): (r: Option<nat>)
    requires from <= |candidates|
    ensures r.Some? ==> from <= r.value < |candidates| && candidates[r.value] in columns
    ensures r.Some? ==> forall k :: from <= k < r.value ==> candidates[k] !in columns
    ensures r.None? ==> forall k :: from <= k < |candidates| ==> candidates[k] !in columns
    decreases |candidates| - from
  {
    if from == |candidates| then None
    else if candidates[from] in columns then Some(from)
    else FirstPresentFrom(candidates, columns, from + 1)
  }

  /** The column the priority list picks: the earliest one present. */
  function FirstPresent(candidates: seq<string>, columns: set<string>): Option<nat>
  {
    FirstPresentFrom(candidates, columns, 0)
  }

  /** The total a priority list yields: the picked column's sum, or 0. */
  function PickedTotal(table: ConfigTable, candidates: seq<string>): int
  {
    match FirstPresent(candidates, table.columns)
    case None => 0
    case Some(k) => ColumnSum(table.rows, candidates[k])
  }

  /** The `for col in ...: if col in config.columns: ...; break` loop. */
  method SumFirstPresent(table: ConfigTable, candidates: seq<string>) returns (total: int)
    ensures total == PickedTotal(table, candidates)
    ensures (forall k :: 0 <= k < |candidates| ==> candidates[k] !in table.columns) ==> total == 0
  {
    total := 0;
    var i := 0;
    while i < |candidates|
      invariant 0 <= i <= |candidates|
      invariant forall k :: 0 <= k < i ==> candidates[k] !in table.columns
    {
      if candidates[i] in table.columns {
        total := ColumnSum(table.rows, candidates[i]);
        return;
      }
      i := i + 1;
    }
  }

  /** load_cluster_config: `None` stands for both a missing file and the
      `None` the function returns then. */
  method LoadClusterConfig(config: Option<ConfigTable>) returns (cap: Option<Capacity>)
    ensures cap.Some? <==> config.Some?
    ensures config.Some? ==> cap.value.totalNodes == |config.value.rows|
    ensures config.Some? ==> cap.value.totalCpus == PickedTotal(config.value, CpuColumns)
    ensures config.Some? ==> cap.value.totalMemoryMb == PickedTotal(config.value, MemoryColumns)
  {
    if config.None? {
      return None;
    }
    var table := config.value;
    var cpus := SumFirstPresent(table, CpuColumns);
    var memory := SumFirstPresent(table, MemoryColumns);
    cap := Some(Capacity(|table.rows|, cpus, memory));
  }

  /** The priority order decides: a table with both 'cpus' and 'slots' takes 'cpus'. */
  lemma PriorityOrderWins(table: ConfigTable)
    requires "cpus" in table.columns
    ensures PickedTotal(table, CpuColumns) == ColumnSum(table.rows, "cpus")
  {
    assert CpuColumns[0] == "cpus";
  }

  /** A later column is used only when every earlier one is missing. */
  lemma PickedColumnIsFirst(table: ConfigTable, candidates: seq<string>, k: nat)
    requires k < |candidates| && candidates[k] in table.columns
    requires forall i :: 0 <= i < k ==> candidates[i] !in table.columns
    ensures PickedTotal(table, candidates) == ColumnSum(table.rows, candidates[k])
  {
    var r := FirstPresent(candidates, table.columns);
    assert r.Some?;
    assert r.value == k;
  }

  // ---------------------------------------------------------------------
  // Events

  datatype Kind = Start | End

  /** One event; `job` is the row index of the job it came from. */
  datatype Event = Event(kind: Kind, job: nat, time: int, cpus: nat, memoryMb: nat, nodes: nat)

  function StartOf(jobs: seq<Job>, j: nat): Event
    requires j < |jobs|
  {
    Event(Start, j, jobs[j].start, jobs[j].cpus, jobs[j].memReq, jobs[j].nodes)
  }

  function EndOf(jobs: seq<Job>, j: nat): Event
    requires j < |jobs|
  {
    Event(End, j, jobs[j].end, jobs[j].cpus, jobs[j].memReq, jobs[j].nodes)
  }

  /** The event list of the first `n` jobs, in the order they are appended. */
  function EventsOf(jobs: seq<Job>, n: nat): seq<Event>
    requires n <= |jobs|
  {
    if n == 0 then [] else EventsOf(jobs, n - 1) + [StartOf(jobs, n - 1), EndOf(jobs, n - 1)]
  }

  /** Each job yields exactly one start and one end event, in job order. */
  lemma {:induction false} EventsOfShape(jobs: seq<Job>, n: nat)
    requires n <= |jobs|
    ensures |EventsOf(jobs, n)| == 2 * n
    ensures forall j :: 0 <= j < n ==> EventsOf(jobs, n)[2 * j] == StartOf(jobs, j)
    ensures forall j :: 0 <= j < n ==> EventsOf(jobs, n)[2 * j + 1] == EndOf(jobs, j)
  {
    if n > 0 {
      EventsOfShape(jobs, n - 1);
    }
  }

  /** Every event belongs to one of the jobs and is that job's start or end. */
  lemma {:induction false} EventsOfMember(jobs: seq<Job>, n: nat, e: Event)
    requires n <= |jobs| && e in EventsOf(jobs, n)
    ensures e.job < n
    ensures e == StartOf(jobs, e.job) || e == EndOf(jobs, e.job)
  {
    if n > 0 && e in EventsOf(jobs, n - 1) {
      EventsOfMember(jobs, n - 1, e);
    }
  }

  /** No event occurs twice. */
  lemma EventsOfOnce(jobs: seq<Job>, n: nat, e: Event)
    requires n <= |jobs|
    ensures multiset(EventsOf(jobs, n))[e] <= 1
  {
    EventsOfDistinct(jobs, n);
    DistinctOnce(EventsOf(jobs, n), e);
  }

  /** Events at different positions differ: in job, or in kind. */
  lemma EventsOfDistinct(jobs: seq<Job>, n: nat)
    requires n <= |jobs|
    ensures forall a, b :: 0 <= a < b < |EventsOf(jobs, n)| ==> EventsOf(jobs, n)[a] != EventsOf(jobs, n)[b]
  {
    EventsOfShape(jobs, n);
    var es := EventsOf(jobs, n);
    forall a, b | 0 <= a < b < |es| ensures es[a] != es[b] {
      EventAtIndex(jobs, n, a);
      EventAtIndex(jobs, n, b);
    }
  }

  lemma EventAtIndex(jobs: seq<Job>, n: nat, i: nat)
    requires n <= |jobs| && i < 2 * n
    ensures i / 2 < n
    ensures |EventsOf(jobs, n)| == 2 * n
    ensures EventsOf(jobs, n)[i].job == i / 2
    ensures EventsOf(jobs, n)[i].kind == if i % 2 == 0 then Start else End
  {
    EventsOfShape(jobs, n);
    var j := i / 2;
    if i % 2 == 0 {
      assert i == 2 * j;
    } else {
      assert i == 2 * j + 1;
    }
  }

  /** In a sequence without repeats every value occurs at most once. */
  lemma {:induction false} DistinctOnce<T>(s: seq<T>, e: T)
    requires forall a, b :: 0 <= a < b < |s| ==> s[a] != s[b]
    ensures multiset(s)[e] <= 1
  {
    if s != [] {
      var init, last := s[..|s| - 1], s[|s| - 1];
      assert s == init + [last];
      DistinctOnce(init, e);
      if e == last {
        forall a | 0 <= a < |init| ensures init[a] != e {
          assert init[a] == s[a];
        }
        assert e !in init;
      }
    }
  }

  /** The event-building loop of calculate_utilization_timeseries. */
  method BuildEvents(jobs: seq<Job>) returns (events: seq<Event>)
    ensures events == EventsOf(jobs, |jobs|)
    ensures |events| == 2 * |jobs|
    ensures forall j :: 0 <= j < |jobs| ==> events[2 * j] == StartOf(jobs, j) && events[2 * j + 1] == EndOf(jobs, j)
  {
    events := [];
    var i := 0;
    while i < |jobs|
      invariant 0 <= i <= |jobs|
      invariant events == EventsOf(jobs, i)
    {
      events := events + [StartOf(jobs, i)];
      events := events + [EndOf(jobs, i)];
      i := i + 1;
    }
    EventsOfShape(jobs, |jobs|);
  }

  // ---------------------------------------------------------------------
  // The sweep

  predicate SortedByTime(events: seq<Event>)
  {
    forall a, b :: 0 <= a < b < |events| ==> events[a].time <= events[b].time
  }

  /** `sorted` is what `events_df.sort_values('timestamp')` may return. */
  predicate IsSortedEventList(jobs: seq<Job>, sorted: seq<Event>)
  {
    SortedByTime(sorted) && multiset(sorted) == multiset(EventsOf(jobs, |jobs|))
  }

  datatype Resource = Cpus | Memory

  function JobAmount(job: Job, res: Resource): nat
  {
    if res == Cpus then job.cpus else job.memReq
  }

  function EventAmount(e: Event, res: Resource): nat
  {
    if res == Cpus then e.cpus else e.memoryMb
  }

  /** Job j has started and not yet ended after the events in `p`. */
  predicate Running(jobs: seq<Job>, p: seq<Event>, j: nat)
    requires j < |jobs|
  {
    StartOf(jobs, j) in p && EndOf(jobs, j) !in p
  }

  /** What the first `n` jobs that are running after `p` hold of a resource. */
  function RunningLoad(jobs: seq<Job>, p: seq<Event>, n: nat, res: Resource): nat
    requires n <= |jobs|
  {
    if n == 0 then 0
    else RunningLoad(jobs, p, n - 1, res) + (if Running(jobs, p, n - 1) then JobAmount(jobs[n - 1], res) else 0)
  }

  /** The unclamped running total: starts add, ends subtract. */
  function NetLoad(p: seq<Event>, res: Resource): int
  {
    if p == [] then 0
    else
      var e := p[|p| - 1];
      NetLoad(p[..|p| - 1], res) + (if e.kind == Start then EventAmount(e, res) as int else -(EventAmount(e, res) as int))
  }

  /** Appending an event of job m changes only job m's share of the load. */
  lemma {:induction false} RunningLoadStep(jobs: seq<Job>, p: seq<Event>, e: Event, n: nat, res: Resource)
    requires n <= |jobs| && e.job < |jobs|
    requires e == StartOf(jobs, e.job) || e == EndOf(jobs, e.job)
    ensures RunningLoad(jobs, p + [e], n, res)
         == RunningLoad(jobs, p, n, res)
          - (if e.job < n && Running(jobs, p, e.job) then JobAmount(jobs[e.job], res) else 0)
          + (if e.job < n && Running(jobs, p + [e], e.job) then JobAmount(jobs[e.job], res) else 0)
  {
    if n > 0 {
      RunningLoadStep(jobs, p, e, n - 1, res);
      var j := n - 1;
      if j != e.job {
        assert StartOf(jobs, j) != e && EndOf(jobs, j) != e;
        assert (StartOf(jobs, j) in p + [e]) == (StartOf(jobs, j) in p);
        assert (EndOf(jobs, j) in p + [e]) == (EndOf(jobs, j) in p);
      }
    }
  }

  /** A running job's share is part of the load. */
  lemma {:induction false} RunningLoadCovers(jobs: seq<Job>, p: seq<Event>, n: nat, m: nat, res: Resource)
    requires m < n <= |jobs| && Running(jobs, p, m)
    ensures RunningLoad(jobs, p, n, res) >= JobAmount(jobs[m], res)
  {
    if m < n - 1 {
      RunningLoadCovers(jobs, p, n - 1, m, res);
    }
  }

  /** Once every end has been seen, nothing is running. */
  lemma {:induction false} RunningLoadDrained(jobs: seq<Job>, p: seq<Event>, n: nat, res: Resource)
    requires n <= |jobs|
    requires forall j :: 0 <= j < n ==> EndOf(jobs, j) in p
    ensures RunningLoad(jobs, p, n, res) == 0
  {
    if n > 0 {
      RunningLoadDrained(jobs, p, n - 1, res);
    }
  }

  /** What a sorted event list inherits from being a permutation of the built list. */
  lemma SortedEventListFacts(jobs: seq<Job>, sorted: seq<Event>)
    requires IsSortedEventList(jobs, sorted)
    ensures |sorted| == 2 * |jobs|
    ensures forall a, b :: 0 <= a < b < |sorted| ==> sorted[a] != sorted[b]
    ensures forall i :: 0 <= i < |sorted| ==>
      sorted[i].job < |jobs| && (sorted[i] == StartOf(jobs, sorted[i].job) || sorted[i] == EndOf(jobs, sorted[i].job))
    ensures forall j :: 0 <= j < |jobs| ==> StartOf(jobs, j) in sorted && EndOf(jobs, j) in sorted
  {
    SortedLength(jobs, sorted);
    SortedDistinct(jobs, sorted);
    SortedMembers(jobs, sorted);
    SortedHasAll(jobs, sorted);
  }

  lemma SortedLength(jobs: seq<Job>, sorted: seq<Event>)
    requires multiset(sorted) == multiset(EventsOf(jobs, |jobs|))
    ensures |sorted| == 2 * |jobs|
  {
    var all := EventsOf(jobs, |jobs|);
    EventsOfShape(jobs, |jobs|);
    assert |sorted| == |multiset(sorted)| == |multiset(all)| == |all|;
  }

  lemma SortedDistinct(jobs: seq<Job>, sorted: seq<Event>)
    requires multiset(sorted) == multiset(EventsOf(jobs, |jobs|))
    ensures forall a, b :: 0 <= a < b < |sorted| ==> sorted[a] != sorted[b]
  {
    forall a, b | 0 <= a < b < |sorted| ensures sorted[a] != sorted[b] {
      if sorted[a] == sorted[b] {
        TwiceInSequence(sorted, a, b);
        EventsOfOnce(jobs, |jobs|, sorted[a]);
        assert false;
      }
    }
  }

  /** A value at two positions occurs at least twice. */
  lemma TwiceInSequence<T>(s: seq<T>, a: nat, b: nat)
    requires a < b < |s| && s[a] == s[b]
    ensures multiset(s)[s[a]] >= 2
  {
    var x := s[a];
    assert s == s[..b] + s[b..];
    assert multiset(s) == multiset(s[..b]) + multiset(s[b..]);
    assert s[..b][a] == x && s[b..][0] == x;
    assert x in multiset(s[..b]) && x in multiset(s[b..]);
  }

  lemma SortedMembers(jobs: seq<Job>, sorted: seq<Event>)
    requires multiset(sorted) == multiset(EventsOf(jobs, |jobs|))
    ensures forall i :: 0 <= i < |sorted| ==>
      sorted[i].job < |jobs| && (sorted[i] == StartOf(jobs, sorted[i].job) || sorted[i] == EndOf(jobs, sorted[i].job))
  {
    forall i | 0 <= i < |sorted|
      ensures sorted[i].job < |jobs| && (sorted[i] == StartOf(jobs, sorted[i].job) || sorted[i] == EndOf(jobs, sorted[i].job))
    {
      assert sorted[i] in multiset(sorted);
      EventsOfMember(jobs, |jobs|, sorted[i]);
    }
  }

  lemma SortedHasAll(jobs: seq<Job>, sorted: seq<Event>)
    requires multiset(sorted) == multiset(EventsOf(jobs, |jobs|))
    ensures forall j :: 0 <= j < |jobs| ==> StartOf(jobs, j) in sorted && EndOf(jobs, j) in sorted
  {
    var all := EventsOf(jobs, |jobs|);
    EventsOfShape(jobs, |jobs|);
    forall j | 0 <= j < |jobs| ensures StartOf(jobs, j) in sorted && EndOf(jobs, j) in sorted {
      assert all[2 * j] == StartOf(jobs, j) && all[2 * j + 1] == EndOf(jobs, j);
      assert StartOf(jobs, j) in multiset(all) && EndOf(jobs, j) in multiset(all);
    }
  }

  /** Processing `sorted[i]` adds a start's amount or removes an end's, and an
      end always finds its job running, so the running total stays >= its amount. */
  lemma SweepStep(jobs: seq<Job>, sorted: seq<Event>, i: nat, res: Resource)
    requires (forall j :: 0 <= j < |jobs| ==> jobs[j].start < jobs[j].end)
    requires IsSortedEventList(jobs, sorted) && i < |sorted|
    ensures sorted[i].kind == Start ==>
      RunningLoad(jobs, sorted[..i + 1], |jobs|, res) == RunningLoad(jobs, sorted[..i], |jobs|, res) + EventAmount(sorted[i], res)
    ensures sorted[i].kind == End ==>
      RunningLoad(jobs, sorted[..i], |jobs|, res) >= EventAmount(sorted[i], res) &&
      RunningLoad(jobs, sorted[..i + 1], |jobs|, res) == RunningLoad(jobs, sorted[..i], |jobs|, res) - EventAmount(sorted[i], res)
  {
    SortedEventListFacts(jobs, sorted);
    var e := sorted[i];
    var m := e.job;
    var p := sorted[..i];
    assert sorted[..i + 1] == p + [e];
    RunningLoadStep(jobs, p, e, |jobs|, res);
    if e.kind == Start {
      assert e == StartOf(jobs, m);
      assert e !in p;
      forall a | 0 <= a <= i ensures sorted[a] != EndOf(jobs, m) {
        assert sorted[a].time <= sorted[i].time;
      }
      assert EndOf(jobs, m) !in p + [e];
    } else {
      assert e == EndOf(jobs, m);
      assert e !in p;
      var b :| 0 <= b < |sorted| && sorted[b] == StartOf(jobs, m);
      assert sorted[b].time < sorted[i].time;
      assert b < i;
      assert StartOf(jobs, m) in p;
      RunningLoadCovers(jobs, p, |jobs|, m, res);
    }
  }

  /** A time-series point. */
  datatype Point = Point(time: int, kind: Kind, cpusAllocated: int, memoryAllocatedMb: int,
                         cpuUtilizationPct: real, memoryUtilizationPct: real)

  /** Percentage of a capacity; 0 when the capacity is unknown or not positive. */
  function UtilPct(used: int, capacity: int): real
  {
    if capacity > 0 then used as real / capacity as real * 100.0 else 0.0
  }

  function CpuCapacity(config: Option<Capacity>): int
  {
    if config.Some? then config.value.totalCpus else 0
  }

  function MemoryCapacity(config: Option<Capacity>): int
  {
    if config.Some? then config.value.totalMemoryMb else 0
  }

  /** The k-th point reports what is running after the first k+1 events. */
  predicate PointAt(jobs: seq<Job>, sorted: seq<Event>, config: Option<Capacity>, pt: Point, k: nat)
    requires k < |sorted| && |sorted| == 2 * |jobs|
  {
    && pt.time == sorted[k].time && pt.kind == sorted[k].kind
    && pt.cpusAllocated == RunningLoad(jobs, sorted[..k + 1], |jobs|, Cpus) == NetLoad(sorted[..k + 1], Cpus)
    && pt.memoryAllocatedMb == RunningLoad(jobs, sorted[..k + 1], |jobs|, Memory) == NetLoad(sorted[..k + 1], Memory)
    && pt.cpuUtilizationPct == UtilPct(pt.cpusAllocated, CpuCapacity(config))
    && pt.memoryUtilizationPct == UtilPct(pt.memoryAllocatedMb, MemoryCapacity(config))
  }

  /** The sweep of calculate_utilization_timeseries. One point per event; each
      point's totals are exactly the unclamped running sums, which equal the
      load of the started-but-not-ended jobs (so the clamp at 0 never changes
      anything), and the last point is back at 0. */
  method Sweep(jobs: seq<Job>, sorted: seq<Event>, config: Option<Capacity>) returns (points: seq<Point>)
    requires forall j :: 0 <= j < |jobs| ==> jobs[j].start < jobs[j].end
    requires IsSortedEventList(jobs, sorted)
    ensures |sorted| == 2 * |jobs| && |points| == |sorted|
    ensures forall k :: 0 <= k < |points| ==> PointAt(jobs, sorted, config, points[k], k)
    ensures |points| > 0 ==> points[|points| - 1].cpusAllocated == 0 && points[|points| - 1].memoryAllocatedMb == 0
  {
    SortedEventListLength(jobs, sorted);
    NothingRunningYet(jobs, |jobs|, Cpus);
    NothingRunningYet(jobs, |jobs|, Memory);
    assert sorted[..0] == [];
    var currentCpus: int := 0;
    var currentMemoryMb: int := 0;
    points := [];
    var i := 0;
    while i < |sorted|
      invariant 0 <= i <= |sorted|
      invariant |points| == i
      invariant currentCpus == RunningLoad(jobs, sorted[..i], |jobs|, Cpus) == NetLoad(sorted[..i], Cpus)
      invariant currentMemoryMb == RunningLoad(jobs, sorted[..i], |jobs|, Memory) == NetLoad(sorted[..i], Memory)
      invariant forall k :: 0 <= k < i ==> PointAt(jobs, sorted, config, points[k], k)
    {
      var pt;
      currentCpus, currentMemoryMb, pt := SweepEvent(jobs, sorted, config, i, currentCpus, currentMemoryMb);
      points := points + [pt];
      i := i + 1;
    }
    if |sorted| > 0 {
      assert sorted[..|sorted|] == sorted;
      SweepDrained(jobs, sorted, Cpus);
      SweepDrained(jobs, sorted, Memory);
    }
  }

  /** One event of the sweep: add a start, subtract an end, clamp at 0 and
      record the point. */
  method SweepEvent(jobs: seq<Job>, sorted: seq<Event>, config: Option<Capacity>, i: nat, cpus: int, memoryMb: int)
    returns (cpus': int, memoryMb': int, pt: Point)
    requires forall j :: 0 <= j < |jobs| ==> jobs[j].start < jobs[j].end
    requires IsSortedEventList(jobs, sorted) && i < |sorted| == 2 * |jobs|
    requires cpus == RunningLoad(jobs, sorted[..i], |jobs|, Cpus) == NetLoad(sorted[..i], Cpus)
    requires memoryMb == RunningLoad(jobs, sorted[..i], |jobs|, Memory) == NetLoad(sorted[..i], Memory)
    ensures cpus' == pt.cpusAllocated && memoryMb' == pt.memoryAllocatedMb
    ensures PointAt(jobs, sorted, config, pt, i)
  {
    var event := sorted[i];
    SweepStep(jobs, sorted, i, Cpus);
    SweepStep(jobs, sorted, i, Memory);
    assert sorted[..i + 1][..i] == sorted[..i];
    cpus' := cpus;
    memoryMb' := memoryMb;
    if event.kind == Start {
      cpus' := cpus' + event.cpus;
      memoryMb' := memoryMb' + event.memoryMb;
    } else {
      cpus' := cpus' - event.cpus;
      memoryMb' := memoryMb' - event.memoryMb;
    }
    cpus' := MaxInt(0, cpus');
    memoryMb' := MaxInt(0, memoryMb');
    var cpuUtil, memoryUtil := Percentages(cpus', memoryMb', config);
    pt := Point(event.time, event.kind, cpus', memoryMb', cpuUtil, memoryUtil);
  }

  /** The percentage block of the sweep: only a known, positive capacity
      gives a non-zero percentage. */
  method Percentages(cpus: int, memoryMb: int, config: Option<Capacity>) returns (cpuUtil: real, memoryUtil: real)
    ensures cpuUtil == UtilPct(cpus, CpuCapacity(config))
    ensures memoryUtil == UtilPct(memoryMb, MemoryCapacity(config))
  {
    cpuUtil := 0.0;
    memoryUtil := 0.0;
    if config.Some? {
      if config.value.totalCpus > 0 {
        cpuUtil := cpus as real / config.value.totalCpus as real * 100.0;
      }
      if config.value.totalMemoryMb > 0 {
        memoryUtil := memoryMb as real / config.value.totalMemoryMb as real * 100.0;
      }
    }
  }

  lemma SortedEventListLength(jobs: seq<Job>, sorted: seq<Event>)
    requires IsSortedEventList(jobs, sorted)
    ensures |sorted| == 2 * |jobs|
  {
    EventsOfShape(jobs, |jobs|);
    assert |sorted| == |multiset(sorted)| == |multiset(EventsOf(jobs, |jobs|))|;
  }

  /** Before the first event nothing is running. */
  lemma {:induction false} NothingRunningYet(jobs: seq<Job>, n: nat, res: Resource)
    requires n <= |jobs|
    ensures RunningLoad(jobs, [], n, res) == 0
  {
    if n > 0 {
      NothingRunningYet(jobs, n - 1, res);
    }
  }

  /** After the whole sorted list nothing is running. */
  lemma SweepDrained(jobs: seq<Job>, sorted: seq<Event>, res: Resource)
    requires IsSortedEventList(jobs, sorted)
    ensures RunningLoad(jobs, sorted, |jobs|, res) == 0
  {
    SortedEventListFacts(jobs, sorted);
    RunningLoadDrained(jobs, sorted, |jobs|, res);
  }

  /** Utilisation is a true percentage whenever the allocation fits the capacity. */
  lemma UtilPctBounds(used: int, capacity: int)
    requires 0 <= used <= capacity
    ensures 0.0 <= UtilPct(used, capacity) <= 100.0
    ensures capacity > 0 && used == capacity ==> UtilPct(used, capacity) == 100.0
  {
    if capacity > 0 {
      var q := used as real / capacity as real;
      assert q * capacity as real == used as real;
      assert 0.0 <= q <= 1.0;
    }
  }
}
