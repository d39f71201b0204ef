/** analyze_split_utilization.py: the compute and GPU partitions of the
    cluster analysed side by side. Jobs are split by whether their nodelist
    mentions 'gpu'; each partition gets a CPU utilisation against its own
    capacity, a core-utilisation and core-waste view of its single-node
    jobs, and a memory view that sets the "all memory" requests apart. */
module SplitUtilization {
  import opened Common

  /** One accounting record; times in seconds, memory in megabytes. A
      missing `mem_req` is `None`. */
  datatype Job = Job(start: int, end: int, cpusReq: nat, nodesAlloc: nat, memReq: Option<int>, nodelist: Option<string>)

  datatype NodeKind = Compute | Gpu

  const GpuCpus: nat := 128
  const NodeCpus: nat := 192
  const TotalGpuNodes: nat := 105
  const TotalComputeNodes: nat := 330
  const MaxIntThreshold: int := 9223372036854000000
  const GpuNodeMemory: nat := 512
  const ComputeNodeMemory: nat := 256

  function CpusPerNode(k: NodeKind): (c: nat)
    ensures c > 0
  {
    if k == Gpu then GpuCpus else NodeCpus
  }

  function TotalNodes(k: NodeKind): (n: nat)
    ensures n > 0
  {
    if k == Gpu then TotalGpuNodes else TotalComputeNodes
  }

  /** `total_nodes * cpus_per_node`: the partition's CPUs. */
  function Capacity(k: NodeKind): (c: nat)
    ensures c == TotalNodes(k) * CpusPerNode(k) && c > 0
  {
    if k == Gpu then TotalGpuNodes * GpuCpus else TotalComputeNodes * NodeCpus
  }

  /** Estimated memory per node, in gigabytes. */
  function MemPerNode(k: NodeKind): (m: nat)
    ensures m > 0
  {
    if k == Gpu then GpuNodeMemory else ComputeNodeMemory
  }

  function RunHours(j: Job): real
  {
    (j.end - j.start) as real / 3600.0
  }

  /** `(run_time >= 0) & (run_time < 100000)`, on whole seconds. */
  predicate Kept(j: Job)
  {
    0 <= j.end - j.start < 100000 * 3600
  }

  /** `'gpu' if 'gpu' in str(x).lower() else 'compute'`. */
  function KindOf(j: Job): NodeKind
  {
    if MentionsGpu(j.nodelist) then Gpu else Compute
  }

  /** `df[df['node_type'] == kind]`, in the original order. */
  function OfKind(jobs: seq<Job>, k: NodeKind): (r: seq<Job>)
    ensures forall j :: j in r <==> j in jobs && KindOf(j) == k
  {
    if jobs == [] then []
    else
      var init := jobs[..|jobs| - 1];
      var last := jobs[|jobs| - 1];
      assert jobs == init + [last];
      OfKind(init, k) + (if KindOf(last) == k then [last] else [])
  }

  /** Every job lands in exactly one of the two partitions. */
  lemma {:induction false} PartitionIsExact(jobs: seq<Job>)
    ensures multiset(OfKind(jobs, Compute)) + multiset(OfKind(jobs, Gpu)) == multiset(jobs)
    ensures |OfKind(jobs, Compute)| + |OfKind(jobs, Gpu)| == |jobs|
  {
    if jobs != [] {
      var init := jobs[..|jobs| - 1];
      var last := jobs[|jobs| - 1];
      PartitionIsExact(init);
      assert jobs == init + [last];
      PartitionStep(OfKind(init, Compute), OfKind(init, Gpu), init, last, OfKind(jobs, Compute), OfKind(jobs, Gpu), KindOf(last) == Compute);
    }
  }

  /** One more job goes to exactly one side. */
  lemma PartitionStep(c: seq<Job>, g: seq<Job>, init: seq<Job>, last: Job, c': seq<Job>, g': seq<Job>, toCompute: bool)
    requires multiset(c) + multiset(g) == multiset(init) && |c| + |g| == |init|
    requires toCompute ==> c' == c + [last] && g' == g
    requires !toCompute ==> c' == c && g' == g + [last]
    ensures multiset(c') + multiset(g') == multiset(init + [last])
    ensures |c'| + |g'| == |init + [last]|
  {
  }

  // ---------------------------------------------------------------------
  // CPU utilisation of a partition

  /** `(jobs_df['cpus_req'] * jobs_df['run_time']).sum()`. */
  function CpuHours(jobs: seq<Job>): real
  {
    if jobs == [] then 0.0 else CpuHours(jobs[..|jobs| - 1]) + jobs[|jobs| - 1].cpusReq as real * RunHours(jobs[|jobs| - 1])
  }

  /** The CPUs requested by all jobs together. */
  function TotalCpusReq(jobs: seq<Job>): nat
  {
    if jobs == [] then 0 else TotalCpusReq(jobs[..|jobs| - 1]) + jobs[|jobs| - 1].cpusReq
  }

  /** `jobs_df['start_time'].min()`. */
  function MinStart(jobs: seq<Job>): (m: int)
    requires jobs != []
    ensures forall i :: 0 <= i < |jobs| ==> m <= jobs[i].start
  {
    if |jobs| == 1 then jobs[0].start
    else
      var init := jobs[..|jobs| - 1];
      assert jobs == init + [jobs[|jobs| - 1]];
      var m := MinStart(init);
      if jobs[|jobs| - 1].start < m then jobs[|jobs| - 1].start else m
  }

  /** `jobs_df['end_time'].max()`. */
  function MaxEnd(jobs: seq<Job>): (m: int)
    requires jobs != []
    ensures forall i :: 0 <= i < |jobs| ==> jobs[i].end <= m
  {
    if |jobs| == 1 then jobs[0].end
    else
      var init := jobs[..|jobs| - 1];
      assert jobs == init + [jobs[|jobs| - 1]];
      var m := MaxEnd(init);
      if jobs[|jobs| - 1].end > m then jobs[|jobs| - 1].end else m
  }

  /** The earliest start and the latest end belong to actual jobs. */
  lemma {:induction false} PeriodEndsAreJobs(jobs: seq<Job>)
    requires jobs != []
    ensures exists j :: j in jobs && j.start == MinStart(jobs)
    ensures exists j :: j in jobs && j.end == MaxEnd(jobs)
  {
    if |jobs| == 1 {
      assert jobs[0] in jobs;
    } else {
      var init := jobs[..|jobs| - 1];
      var last := jobs[|jobs| - 1];
      assert jobs == init + [last];
      assert last in jobs;
      PeriodEndsAreJobs(init);
    }
  }

  /** The hours from the first start to the last end. */
  function SpanHours(jobs: seq<Job>): real
    requires jobs != []
  {
    (MaxEnd(jobs) - MinStart(jobs)) as real / 3600.0
  }

  /** `total_nodes * cpus_per_node * total_hours`. */
  function Theoretical(jobs: seq<Job>, k: NodeKind): real
    requires jobs != []
  {
    Capacity(k) as real * SpanHours(jobs)
  }

  /** The partition's CPU utilisation in percent. An empty partition is
      reported as such and gets none; a zero-length period would divide
      by zero and gets none either. */
  function Utilization(jobs: seq<Job>, k: NodeKind): (u: Option<real>)
    ensures u.Some? <==> jobs != [] && MinStart(jobs) < MaxEnd(jobs)
  {
    if jobs == [] || MaxEnd(jobs) <= MinStart(jobs) then None
    else Some(CpuHours(jobs) / Theoretical(jobs, k) * 100.0)
  }

  /** Every job lies inside the period, so the CPU-hours never exceed what
      the requested CPUs could burn over the whole period. */
  lemma {:induction false} CpuHoursWithinPeriod(jobs: seq<Job>, lo: int, hi: int, h: real)
    requires lo <= hi && h == (hi - lo) as real / 3600.0
    requires forall i :: 0 <= i < |jobs| ==> lo <= jobs[i].start <= jobs[i].end <= hi
    ensures 0.0 <= CpuHours(jobs) <= TotalCpusReq(jobs) as real * h
  {
    if jobs != [] {
      var init := jobs[..|jobs| - 1];
      var last := jobs[|jobs| - 1];
      CpuHoursWithinPeriod(init, lo, hi, h);
      HoursWithin(last.end - last.start, hi - lo);
      StepWithin(CpuHours(init), TotalCpusReq(init), last.cpusReq, RunHours(last), h);
    } else {
      assert TotalCpusReq(jobs) == 0;
    }
  }

  lemma HoursWithin(d: int, span: int)
    requires 0 <= d <= span
    ensures 0.0 <= d as real / 3600.0 <= span as real / 3600.0
  {
  }

  lemma StepWithin(a: real, t: nat, c: nat, x: real, h: real)
    requires 0.0 <= a <= t as real * h && 0.0 <= x <= h
    ensures 0.0 <= a + c as real * x <= (t + c) as real * h
  {
    ScaleWithin(c as real, x, h);
    Distribute(t as real, c as real, h);
  }

  lemma Distribute(t: real, c: real, h: real)
    ensures (t + c) * h == t * h + c * h
  {
  }

  lemma ScaleWithin(c: real, x: real, y: real)
    requires 0.0 <= c && 0.0 <= x <= y
    ensures 0.0 <= c * x <= c * y
  {
    assert c * y - c * x == c * (y - x);
  }

  /** The utilisation of kept jobs is non-negative and at most the share of
      the partition's capacity that its jobs request in total: a job cannot
      run longer than the period the utilisation is measured over. */
  lemma UtilizationAtMostRequestShare(jobs: seq<Job>, k: NodeKind)
    requires forall j :: j in jobs ==> Kept(j)
    requires Utilization(jobs, k).Some?
    ensures 0.0 <= Utilization(jobs, k).value
    ensures Utilization(jobs, k).value <= TotalCpusReq(jobs) as real / Capacity(k) as real * 100.0
  {
    UtilizationValue(jobs, k);
    CpuHoursWithinSpan(jobs);
    RatioWithin(CpuHours(jobs), TotalCpusReq(jobs) as real, Capacity(k) as real, SpanHours(jobs), Theoretical(jobs, k), Utilization(jobs, k).value);
  }

  /** A reported utilisation covers a period of positive length. */
  lemma UtilizationValue(jobs: seq<Job>, k: NodeKind)
    requires Utilization(jobs, k).Some?
    ensures jobs != [] && SpanHours(jobs) > 0.0
    ensures Utilization(jobs, k).value == CpuHours(jobs) / Theoretical(jobs, k) * 100.0
  {
  }

  /** Kept jobs burn at most their requested CPUs over the whole period. */
  lemma CpuHoursWithinSpan(jobs: seq<Job>)
    requires jobs != [] && forall j :: j in jobs ==> Kept(j)
    ensures 0.0 <= CpuHours(jobs) <= TotalCpusReq(jobs) as real * SpanHours(jobs)
  {
    InsidePeriod(jobs);
    CpuHoursWithinPeriod(jobs, MinStart(jobs), MaxEnd(jobs), SpanHours(jobs));
  }

  /** Every kept job lies between the first start and the last end. */
  lemma InsidePeriod(jobs: seq<Job>)
    requires jobs != [] && forall j :: j in jobs ==> Kept(j)
    ensures forall i :: 0 <= i < |jobs| ==> MinStart(jobs) <= jobs[i].start <= jobs[i].end <= MaxEnd(jobs)
  {
    forall i | 0 <= i < |jobs|
      ensures jobs[i].start <= jobs[i].end
    {
      assert Kept(jobs[i]) by { assert jobs[i] in jobs; }
    }
  }

  lemma RatioWithin(used: real, req: real, cap: real, h: real, th: real, u: real)
    requires 0.0 < cap && 0.0 < h && th == cap * h && 0.0 <= used <= req * h
    requires u == used / th * 100.0
    ensures 0.0 <= u <= req / cap * 100.0
  {
    var q := used / th;
    assert q * th == used;
    assert (req / cap) * th == req * h;
    assert q * th <= (req / cap) * th;
    assert q <= req / cap;
  }

  // ---------------------------------------------------------------------
  // Single-node jobs: cores used and cores wasted

  /** `cpus_req / cpus_per_node * 100`. */
  function CoreUtilization(j: Job, k: NodeKind): real
  {
    j.cpusReq as real / CpusPerNode(k) as real * 100.0
  }

  /** `cpus_per_node - cpus_req`; negative for a request above a node. */
  function CoresWasted(j: Job, k: NodeKind): int
  {
    CpusPerNode(k) - j.cpusReq
  }

  /** Used and wasted cores make up the whole node. */
  lemma UsedAndWastedMakeTheNode(j: Job, k: NodeKind)
    ensures CoreUtilization(j, k) + CoresWasted(j, k) as real / CpusPerNode(k) as real * 100.0 == 100.0
  {
    var c := CpusPerNode(k) as real;
    assert j.cpusReq as real / c + CoresWasted(j, k) as real / c == (j.cpusReq as real + CoresWasted(j, k) as real) / c;
  }

  /** `(cores_wasted * run_time).sum()`. */
  function WastedCoreHours(jobs: seq<Job>, k: NodeKind): real
  {
    if jobs == [] then 0.0
    else WastedCoreHours(jobs[..|jobs| - 1], k) + CoresWasted(jobs[|jobs| - 1], k) as real * RunHours(jobs[|jobs| - 1])
  }

  /** `run_time.sum()`. */
  function NodeHours(jobs: seq<Job>): real
  {
    if jobs == [] then 0.0 else NodeHours(jobs[..|jobs| - 1]) + RunHours(jobs[|jobs| - 1])
  }

  /** `total_cores_wasted / (total_node_hours * cpus_per_node) * 100`; no
      value when the single-node jobs have no run time at all. */
  function WastePct(single: seq<Job>, k: NodeKind): Option<real>
  {
    if NodeHours(single) == 0.0 then None
    else Some(WastedCoreHours(single, k) / (NodeHours(single) * CpusPerNode(k) as real) * 100.0)
  }

  /** Wasted core-hours are the node-hours' cores minus the CPU-hours. */
  lemma {:induction false} WastedIsCapacityMinusUsed(jobs: seq<Job>, k: NodeKind)
    ensures WastedCoreHours(jobs, k) == CpusPerNode(k) as real * NodeHours(jobs) - CpuHours(jobs)
  {
    if jobs != [] {
      var last := jobs[|jobs| - 1];
      WastedIsCapacityMinusUsed(jobs[..|jobs| - 1], k);
      assert CoresWasted(last, k) as real * RunHours(last)
          == CpusPerNode(k) as real * RunHours(last) - last.cpusReq as real * RunHours(last);
    }
  }

  /** The waste percentage is the complement of the share of the
      single-node jobs' node-hours that their CPUs used. */
  lemma WasteIsComplementOfUse(single: seq<Job>, k: NodeKind)
    requires WastePct(single, k).Some?
    ensures WastePct(single, k).value == 100.0 - CpuHours(single) / (NodeHours(single) * CpusPerNode(k) as real) * 100.0
  {
    WastedIsCapacityMinusUsed(single, k);
    var cap := NodeHours(single) * CpusPerNode(k) as real;
    assert cap != 0.0;
    assert WastedCoreHours(single, k) == cap - CpuHours(single);
    Common.ComplementRatio(CpuHours(single), cap);
  }

  // ---------------------------------------------------------------------
  // Utilisation buckets, shared by the core and the memory tables

  /** Row `b` of the table: <10, 10-25, 25-50, 50-75 and 75 and above. */
  predicate InUtilBucket(u: real, b: nat)
  {
    (b == 0 && u < 10.0)
    || (b == 1 && 10.0 <= u < 25.0)
    || (b == 2 && 25.0 <= u < 50.0)
    || (b == 3 && 50.0 <= u < 75.0)
    || (b == 4 && u >= 75.0)
  }

  /** The row a percentage is counted in. */
  function UtilBucket(u: real): (b: nat)
    ensures b < 5
  {
    if u < 10.0 then 0 else if u < 25.0 then 1 else if u < 50.0 then 2 else if u < 75.0 then 3 else 4
  }

  /** The five rows cover every percentage exactly once, so their counts add
      up to the number of jobs. */
  lemma BucketsCoverExactlyOnce(u: real, b: nat)
    ensures InUtilBucket(u, b) <==> b == UtilBucket(u)
  {
  }

  /** How many of the values fall in row `b`. */
  function CountInBucket(us: seq<real>, b: nat): nat
  {
    if us == [] then 0 else CountInBucket(us[..|us| - 1], b) + (if InUtilBucket(us[|us| - 1], b) then 1 else 0)
  }

  lemma {:induction false} BucketCountsAddUp(us: seq<real>)
    ensures CountInBucket(us, 0) + CountInBucket(us, 1) + CountInBucket(us, 2) + CountInBucket(us, 3) + CountInBucket(us, 4) == |us|
  {
    if us != [] {
      BucketCountsAddUp(us[..|us| - 1]);
      var u := us[|us| - 1];
      BucketsCoverExactlyOnce(u, 0);
      BucketsCoverExactlyOnce(u, 1);
      BucketsCoverExactlyOnce(u, 2);
      BucketsCoverExactlyOnce(u, 3);
      BucketsCoverExactlyOnce(u, 4);
    }
  }

  // ---------------------------------------------------------------------
  // Memory requests

  /** `mem_req >= MAX_INT_THRESHOLD`: the "all memory" request. */
  predicate MaxIntMem(j: Job)
  {
    j.memReq.Some? && j.memReq.value >= MaxIntThreshold
  }

  /** `mem_req < MAX_INT_THRESHOLD`: a specific request. */
  predicate NormalMem(j: Job)
  {
    j.memReq.Some? && j.memReq.value < MaxIntThreshold
  }

  /** A present request is in exactly one of the two groups; a missing one
      compares false both ways and is in neither. */
  lemma MemoryGroupsComplementary(j: Job)
    ensures j.memReq.Some? ==> (MaxIntMem(j) <==> !NormalMem(j))
    ensures j.memReq.None? ==> !MaxIntMem(j) && !NormalMem(j)
  {
  }

  /** `mem_req / 1024 / mem_per_node * 100`. */
  function MemUtilization(memReq: int, k: NodeKind): real
  {
    memReq as real / 1024.0 / MemPerNode(k) as real * 100.0
  }

  /** A request lands at or above a percentage of the node's memory exactly
      when it asks for that share of the node's megabytes. */
  lemma MemUtilizationThreshold(memReq: int, k: NodeKind, pct: real)
    ensures MemUtilization(memReq, k) >= pct <==> memReq as real >= pct / 100.0 * (MemPerNode(k) * 1024) as real
  {
    var m := (MemPerNode(k) * 1024) as real;
    assert MemUtilization(memReq, k) == memReq as real / m * 100.0;
    var t := pct / 100.0 * m;
    assert t / m * 100.0 == pct;
    MonotoneScale(memReq as real, t, 100.0 / m);
  }

  lemma MonotoneScale(x: real, y: real, f: real)
    requires f > 0.0
    ensures x * f >= y * f <==> x >= y
  {
    assert x * f - y * f == (x - y) * f;
  }

  // ---------------------------------------------------------------------
  // Monthly trend

  /** `cpu_hrs / month_theoretical * 100 if month_theoretical > 0 else 0`,
      with `days` the part of the month inside the period. */
  function MonthUtilization(cpuHours: real, k: NodeKind, days: real): real
  {
    var theoretical := Capacity(k) as real * days * 24.0;
    if theoretical > 0.0 then cpuHours / theoretical * 100.0 else 0.0
  }

  /** A month with no time inside the period reads as 0%; otherwise a month
      whose CPU-hours fill every CPU for every hour reads as 100%. */
  lemma MonthUtilizationFacts(cpuHours: real, k: NodeKind, days: real)
    ensures days <= 0.0 ==> MonthUtilization(cpuHours, k, days) == 0.0
    ensures days > 0.0 && cpuHours == Capacity(k) as real * days * 24.0
            ==> MonthUtilization(cpuHours, k, days) == 100.0
    ensures days > 0.0 && cpuHours >= 0.0 ==> MonthUtilization(cpuHours, k, days) >= 0.0
  {
    var c := Capacity(k) as real;
    var theoretical := c * days * 24.0;
    if days <= 0.0 {
      assert c * days <= 0.0;
    } else {
      assert c * days > 0.0;
      assert theoretical > 0.0;
      assert theoretical / theoretical == 1.0;
    }
  }
}
