/** analyze_packing.py: how well single-node jobs fill their nodes, whether
    the cluster looks like a throughput or a capacity cluster, and whether it
    is over- or under-provisioned. The node expansion it carries is the one
    of module Nodelist. */
module Packing {
  import opened Common

  // ---------------------------------------------------------------------
  // The cluster

  const GpuCpus: nat := 128
  const NodeCpus: nat := 192
  const TotalGpuNodes: nat := 105
  const TotalComputeNodes: nat := 330
  const MaxIntThreshold: int := 9223372036854000000

  /** `TOTAL_CPUS`: every GPU node's cores plus every compute node's cores. */
  function TotalCpus(): (c: nat)
    ensures c == GpuCpus * TotalGpuNodes + NodeCpus * TotalComputeNodes
  {
    76800
  }

  /** `TOTAL_GPU_NODES + TOTAL_COMPUTE_NODES`. */
  function TotalNodes(): (n: nat)
    ensures n == TotalGpuNodes + TotalComputeNodes
  {
    435
  }

  /** One accounting record; times are seconds since an arbitrary epoch. */
  datatype Job = Job(submit: int, start: int, end: int, cpusReq: nat, nodesAlloc: nat, memReq: Option<int>, nodelist: Option<string>)

  /** `run_time`, in hours. */
  function RunHours(j: Job): real
  {
    (j.end - j.start) as real / 3600.0
  }

  /** `(run_time >= 0) & (run_time < 100000)`, stated on whole seconds. */
  predicate Kept(j: Job)
  {
    0 <= j.end - j.start < 100000 * 3600
  }

  /** `'gpu'` or `'node'`. */
  datatype NodeType = GpuNode | ComputeNode

  /** `'gpu' if 'gpu' in str(x).lower() else 'node'`; a missing nodelist
      prints as `nan` and is a compute node. */
  function NodeTypeOf(j: Job): NodeType
  {
    if MentionsGpu(j.nodelist) then GpuNode else ComputeNode
  }

  /** `node_cpus`: the `{'gpu': GPU_CPUS, 'node': NODE_CPUS}` lookup. */
  function NodeCpusOf(t: NodeType): (c: nat)
    ensures c == GpuCpus || c == NodeCpus
    ensures c == GpuCpus <==> t == GpuNode
  {
    match t
    case GpuNode => GpuCpus
    case ComputeNode => NodeCpus
  }

  // ---------------------------------------------------------------------
  // Core utilisation of single-node jobs

  /** `cpus_req / node_cpus * 100`. */
  function CoreUtilization(j: Job): real
  {
    j.cpusReq as real / NodeCpusOf(NodeTypeOf(j)) as real * 100.0
  }

  /** The four rows of the table: <10, 10-50, 50-90 and above 90. The last
      row is `> 90`, so exactly 90 is in no row. */
  predicate InCoreBucket(u: real, b: nat)
  {
    (b == 0 && u < 10.0)
    || (b == 1 && 10.0 <= u < 50.0)
    || (b == 2 && 50.0 <= u < 90.0)
    || (b == 3 && u > 90.0)
  }

  /** The row a percentage is counted in, if any. */
  function CoreBucket(u: real): (b: Option<nat>)
    ensures b.Some? ==> b.value < 4 && InCoreBucket(u, b.value)
  {
    if u < 10.0 then Some(0)
    else if u < 50.0 then Some(1)
    else if u < 90.0 then Some(2)
    else if u > 90.0 then Some(3)
    else None
  }

  /** The rows never overlap, and exactly 90 is the one percentage that no
      row counts. */
  lemma CoreBucketsMissOnlyNinety(u: real, b: nat)
    ensures InCoreBucket(u, b) <==> CoreBucket(u) == Some(b)
    ensures CoreBucket(u).None? <==> u == 90.0
  {
  }

  /** A whole number of CPUs never fills exactly 90% of a 128- or 192-core
      node, so every single-node job lands in exactly one row. */
  lemma NinetyIsUnreachable(j: Job)
    ensures CoreUtilization(j) != 90.0
  {
    var c := NodeCpusOf(NodeTypeOf(j));
    assert 90 * c != j.cpusReq * 100 by {
      assert (90 * c) % 100 != 0;
    }
    assert CoreUtilization(j) * c as real == j.cpusReq as real * 100.0;
  }

  /** How many of the jobs fall in row `b`. */
  function CountInCoreBucket(jobs: seq<Job>, b: nat): nat
  {
    if jobs == [] then 0
    else CountInCoreBucket(jobs[..|jobs| - 1], b) + (if InCoreBucket(CoreUtilization(jobs[|jobs| - 1]), b) then 1 else 0)
  }

  /** The four rows together count every single-node job once. */
  lemma {:induction false} CoreBucketCountsAddUp(jobs: seq<Job>)
    ensures CountInCoreBucket(jobs, 0) + CountInCoreBucket(jobs, 1) + CountInCoreBucket(jobs, 2) + CountInCoreBucket(jobs, 3) == |jobs|
  {
    if jobs != [] {
      CoreBucketCountsAddUp(jobs[..|jobs| - 1]);
      var u := CoreUtilization(jobs[|jobs| - 1]);
      NinetyIsUnreachable(jobs[|jobs| - 1]);
      CoreBucketsMissOnlyNinety(u, 0);
      CoreBucketsMissOnlyNinety(u, 1);
      CoreBucketsMissOnlyNinety(u, 2);
      CoreBucketsMissOnlyNinety(u, 3);
    }
  }

  /** `cpus_req >= GPU_CPUS` on a GPU node, `cpus_req >= NODE_CPUS` on a
      compute node. */
  predicate FullNode(j: Job)
  {
    (NodeTypeOf(j) == GpuNode && j.cpusReq >= GpuCpus)
    || (NodeTypeOf(j) == ComputeNode && j.cpusReq >= NodeCpus)
  }

  /** A job allocates its whole node exactly when it asks for at least 100%
      of the node's cores. */
  lemma FullNodeIsFullUtilization(j: Job)
    ensures FullNode(j) <==> CoreUtilization(j) >= 100.0
  {
    var c := NodeCpusOf(NodeTypeOf(j)) as real;
    var u := j.cpusReq as real / c * 100.0;
    assert u * c == j.cpusReq as real * 100.0;
    if FullNode(j) {
      assert j.cpusReq as real >= c;
    } else {
      assert j.cpusReq as real < c;
    }
  }

  /** `cpus_req <= 4`, and of those `run_time < 1` hour. */
  predicate SmallJob(j: Job)
  {
    j.cpusReq <= 4
  }

  predicate SmallShortJob(j: Job)
  {
    SmallJob(j) && RunHours(j) < 1.0
  }

  /** A small job leaves most of its node idle: under 10% of a compute node,
      and at most 3.125% of a GPU node. */
  lemma SmallJobsAreInFirstRow(j: Job)
    requires SmallJob(j)
    ensures InCoreBucket(CoreUtilization(j), 0)
    ensures CoreUtilization(j) <= 3.125
  {
    var c := NodeCpusOf(NodeTypeOf(j)) as real;
    var u := j.cpusReq as real / c * 100.0;
    assert u * c == j.cpusReq as real * 100.0;
    assert u * c <= 400.0;
  }

  // ---------------------------------------------------------------------
  // Core waste

  /** `node_cpus - cpus_req`; negative when a job asks for more than a
      node. */
  function CoresWasted(j: Job): int
  {
    NodeCpusOf(NodeTypeOf(j)) - j.cpusReq
  }

  /** `(cores_wasted * run_time).sum()`. */
  function WastedCoreHours(jobs: seq<Job>): real
  {
    if jobs == [] then 0.0
    else WastedCoreHours(jobs[..|jobs| - 1]) + CoresWasted(jobs[|jobs| - 1]) as real * RunHours(jobs[|jobs| - 1])
  }

  /** `(nodes_alloc * run_time).sum()`. */
  function NodeHours(jobs: seq<Job>): real
  {
    if jobs == [] then 0.0
    else NodeHours(jobs[..|jobs| - 1]) + jobs[|jobs| - 1].nodesAlloc as real * RunHours(jobs[|jobs| - 1])
  }

  /** `(cpus_req * run_time).sum()`: the core-hours the jobs asked for. */
  function CpuHours(jobs: seq<Job>): real
  {
    if jobs == [] then 0.0
    else CpuHours(jobs[..|jobs| - 1]) + jobs[|jobs| - 1].cpusReq as real * RunHours(jobs[|jobs| - 1])
  }

  /** The core-hours of the nodes the jobs ran on, each at its own size. */
  function NodeCoreHours(jobs: seq<Job>): real
  {
    if jobs == [] then 0.0
    else NodeCoreHours(jobs[..|jobs| - 1]) + NodeCpusOf(NodeTypeOf(jobs[|jobs| - 1])) as real * RunHours(jobs[|jobs| - 1])
  }

  /** The "% of node capacity wasted" line as written: the node-hours are
      turned into core-hours at `NODE_CPUS` for every job, GPU nodes
      included. */
  function WastePctAsWritten(single: seq<Job>): Option<real>
  {
    if NodeHours(single) == 0.0 then None
    else Some(WastedCoreHours(single) / (NodeHours(single) * NodeCpus as real) * 100.0)
  }

  /** One GPU job on one core for an hour leaves 127 of the node's 128 cores
      idle, yet the line as written reports 127/192 of the capacity as
      wasted. */
  lemma WastePctUndercountsGpuNodes()
    ensures var j := Job(0, 0, 3600, 1, 1, None, Some("gpu1"));
      && WastePctAsWritten([j]) == Some(127.0 / 192.0 * 100.0)
      && WastePct([j]) == Some(127.0 / 128.0 * 100.0)
  {
    var j := Job(0, 0, 3600, 1, 1, None, Some("gpu1"));
    GpuNamed("gpu1", "1");
    assert [j][..0] == [];
    assert RunHours(j) == 1.0;
  }

  lemma GpuNamed(s: string, rest: string)
    requires s == "gpu" + rest
    ensures MentionsGpu(Some(s))
  {
    var low := ToLower(s);
    assert low[0] == 'g' && low[1] == 'p' && low[2] == 'u';
    assert low[..3] == "gpu";
  }

  /** The waste as a share of the capacity of the nodes the single-node jobs
      actually held, each at its own core count. */
  function WastePct(single: seq<Job>): Option<real>
  {
    if NodeCoreHours(single) == 0.0 then None
    else Some(WastedCoreHours(single) / NodeCoreHours(single) * 100.0)
  }

  /** Wasted core-hours are the nodes' core-hours minus the requested
      core-hours. */
  lemma {:induction false} WastedIsCapacityMinusUsed(jobs: seq<Job>)
    ensures WastedCoreHours(jobs) == NodeCoreHours(jobs) - CpuHours(jobs)
  {
    if jobs != [] {
      var init, last := jobs[..|jobs| - 1], jobs[|jobs| - 1];
      WastedIsCapacityMinusUsed(init);
      var wl, nl, cl := SumsLast(jobs);
      LinearStep(WastedCoreHours(init), NodeCoreHours(init), CpuHours(init), wl, nl, cl,
        WastedCoreHours(jobs), NodeCoreHours(jobs), CpuHours(jobs));
    }
  }

  /** The last job's terms of the three sums. */
  lemma SumsLast(jobs: seq<Job>) returns (wl: real, nl: real, cl: real)
    requires jobs != []
    ensures var init, last := jobs[..|jobs| - 1], jobs[|jobs| - 1];
      && wl == CoresWasted(last) as real * RunHours(last)
      && nl == NodeCpusOf(NodeTypeOf(last)) as real * RunHours(last)
      && cl == last.cpusReq as real * RunHours(last)
      && WastedCoreHours(jobs) == WastedCoreHours(init) + wl
      && NodeCoreHours(jobs) == NodeCoreHours(init) + nl
      && CpuHours(jobs) == CpuHours(init) + cl
    ensures wl == nl - cl
  {
    var last := jobs[|jobs| - 1];
    wl := CoresWasted(last) as real * RunHours(last);
    nl := NodeCpusOf(NodeTypeOf(last)) as real * RunHours(last);
    cl := last.cpusReq as real * RunHours(last);
    JobWasteSplit(last);
  }

  /** Adding one more job's share keeps "waste = capacity - use". */
  lemma LinearStep(w0: real, n0: real, c0: real, wl: real, nl: real, cl: real, w: real, n: real, c: real)
    requires w0 == n0 - c0 && wl == nl - cl
    requires w == w0 + wl && n == n0 + nl && c == c0 + cl
    ensures w == n - c
  {
  }

  /** One job's wasted core-hours are its node's core-hours minus its own. */
  lemma JobWasteSplit(j: Job)
    ensures CoresWasted(j) as real * RunHours(j)
         == NodeCpusOf(NodeTypeOf(j)) as real * RunHours(j) - j.cpusReq as real * RunHours(j)
  {
    SubTimes(NodeCpusOf(NodeTypeOf(j)), j.cpusReq, RunHours(j));
  }

  lemma SubTimes(n: int, c: int, h: real)
    ensures (n - c) as real * h == n as real * h - c as real * h
  {
  }

  /** The corrected waste percentage is the complement of the requested
      share of the held capacity. */
  lemma WasteIsComplementOfUse(single: seq<Job>)
    requires WastePct(single).Some?
    ensures WastePct(single).value == 100.0 - CpuHours(single) / NodeCoreHours(single) * 100.0
  {
    WastedIsCapacityMinusUsed(single);
    Common.ComplementRatio(CpuHours(single), NodeCoreHours(single));
  }

  // ---------------------------------------------------------------------
  // Queue times

  /** `(start_time - submit_time).total_seconds() / 60`. */
  function QueueMinutes(j: Job): real
  {
    (j.start - j.submit) as real / 60.0
  }

  /** `(queue_time >= 0) & (queue_time < 1000000)`. */
  predicate ValidQueue(j: Job)
  {
    0.0 <= QueueMinutes(j) < 1000000.0
  }

  /** The filter on minutes is the filter on whole seconds. */
  lemma ValidQueueInSeconds(j: Job)
    ensures ValidQueue(j) <==> 0 <= j.start - j.submit < 60000000
  {
    var secs := (j.start - j.submit) as real;
    assert QueueMinutes(j) * 60.0 == secs;
  }

  // ---------------------------------------------------------------------
  // Throughput against capacity

  /** The utilisation the script states rather than computes. */
  const ObservedUtilization: real := 12.79

  /** The statistics the scores read: the median valid queue time (absent
      when no queue time is valid, a NaN that fails every comparison), the
      shares of single-core and sub-hour jobs, and the mean request. */
  datatype Indicators = Indicators(medianQueue: Option<real>, singleCoreShare: real, shortShare: real, meanCpus: real)

  predicate QueueBelow(mq: Option<real>, x: real)
  {
    mq.Some? && mq.value < x
  }

  predicate QueueAbove(mq: Option<real>, x: real)
  {
    mq.Some? && mq.value > x
  }

  /** How many of the four throughput signals hold, the low-utilisation one
      counting once and the others twice. */
  function ThroughputPoints(s: Indicators): nat
  {
    2 * ((if QueueBelow(s.medianQueue, 5.0) then 1 else 0)
      + (if s.singleCoreShare > 0.5 then 1 else 0)
      + (if s.shortShare > 0.7 then 1 else 0))
    + (if ObservedUtilization < 20.0 then 1 else 0)
  }

  function CapacityPoints(s: Indicators): nat
  {
    2 * ((if QueueAbove(s.medianQueue, 30.0) then 1 else 0)
      + (if s.meanCpus > 10.0 then 1 else 0)
      + (if ObservedUtilization > 70.0 then 1 else 0))
  }

  /** `throughput_score`, raised by `+=` in the chain of tests. */
  method ThroughputScore(s: Indicators) returns (score: int)
    ensures score == ThroughputPoints(s)
    ensures 1 <= score <= 7 && score % 2 == 1
  {
    score := 0;
    if QueueBelow(s.medianQueue, 5.0) {
      score := score + 2;
    }
    if s.singleCoreShare > 0.5 {
      score := score + 2;
    }
    if s.shortShare > 0.7 {
      score := score + 2;
    }
    if ObservedUtilization < 20.0 {
      score := score + 1;
    }
  }

  /** `capacity_score`; the utilisation test can never pass, so the score
      stays below the advertised 6. */
  method CapacityScore(s: Indicators) returns (score: int)
    ensures score == CapacityPoints(s)
    ensures 0 <= score <= 4 && score % 2 == 0
  {
    score := 0;
    if QueueAbove(s.medianQueue, 30.0) {
      score := score + 2;
    }
    if s.meanCpus > 10.0 {
      score := score + 2;
    }
    if ObservedUtilization > 70.0 {
      score := score + 2;
    }
  }

  datatype ClusterType = Throughput | Capacity

  /** `throughput_score > capacity_score`, else capacity. */
  function Verdict(s: Indicators): ClusterType
  {
    if ThroughputPoints(s) > CapacityPoints(s) then Throughput else Capacity
  }

  /** The throughput score is odd and the capacity score even, so the two
      never tie: a capacity verdict always means the capacity score is
      strictly higher. A median queue under five minutes always gives a
      throughput verdict. */
  lemma VerdictNeverTies(s: Indicators)
    ensures ThroughputPoints(s) != CapacityPoints(s)
    ensures Verdict(s) == Capacity <==> CapacityPoints(s) > ThroughputPoints(s)
    ensures QueueBelow(s.medianQueue, 5.0) ==> Verdict(s) == Throughput
  {
    assert ThroughputPoints(s) % 2 == 1;
    assert CapacityPoints(s) % 2 == 0;
  }

  // ---------------------------------------------------------------------
  // Provisioning

  datatype Provisioning = SignificantlyOver | ModeratelyOver | Under | Appropriate

  /** The first branch that matches: very low utilisation with very short
      queues, then low with short, then high with long, else balanced. */
  function ProvisioningStatus(util: real, mq: Option<real>): Provisioning
  {
    if util < 20.0 && QueueBelow(mq, 5.0) then SignificantlyOver
    else if util < 30.0 && QueueBelow(mq, 10.0) then ModeratelyOver
    else if util > 70.0 && QueueAbove(mq, 60.0) then Under
    else Appropriate
  }

  /** What each status says about its inputs; over- and under-provisioning
      exclude each other since they need utilisation below 30 and above 70. */
  lemma ProvisioningMeaning(util: real, mq: Option<real>)
    ensures ProvisioningStatus(util, mq) == SignificantlyOver ==> util < 20.0 && mq.Some? && mq.value < 5.0
    ensures ProvisioningStatus(util, mq) == ModeratelyOver ==> util < 30.0 && mq.Some? && mq.value < 10.0
    ensures ProvisioningStatus(util, mq) == ModeratelyOver ==> util >= 20.0 || mq.value >= 5.0
    ensures ProvisioningStatus(util, mq) == Under ==> util > 70.0 && mq.Some? && mq.value > 60.0
    ensures mq.None? ==> ProvisioningStatus(util, mq) == Appropriate
  {
  }

  /** At the stated 12.79% the status depends on the median queue alone:
      under 5 minutes significantly over-provisioned, under 10 moderately,
      otherwise appropriate; never under-provisioned. */
  lemma ProvisioningAtObservedUtilization(mq: Option<real>)
    ensures ProvisioningStatus(ObservedUtilization, mq) == SignificantlyOver <==> QueueBelow(mq, 5.0)
    ensures ProvisioningStatus(ObservedUtilization, mq) == ModeratelyOver <==> mq.Some? && 5.0 <= mq.value < 10.0
    ensures ProvisioningStatus(ObservedUtilization, mq) == Appropriate <==> !QueueBelow(mq, 10.0)
    ensures ProvisioningStatus(ObservedUtilization, mq) != Under
  {
  }

  /** `int(x)`: truncation toward zero. */
  function Truncate(x: real): (r: int)
    ensures 0.0 <= x ==> r as real <= x < r as real + 1.0
    ensures x < 0.0 ==> r as real - 1.0 < x <= r as real
  {
    if x >= 0.0 then x.Floor else -((-x).Floor)
  }

  /** `int((TOTAL_GPU_NODES + TOTAL_COMPUTE_NODES) * 0.3)`: the nodes the
      over-provisioned branch suggests consolidating. */
  function ConsolidatableNodes(): (n: int)
    ensures n == 130
  {
    Truncate(TotalNodes() as real * 0.3)
  }

  // ---------------------------------------------------------------------
  // Potential savings

  /** `1 - 20 / utilization` as written, computed only below 20%; a zero
      utilisation raises. */
  function PotentialReductionAsWritten(util: real): Option<Result<real>>
  {
    if util < 20.0 then
      if util == 0.0 then Some(Err("ZeroDivisionError")) else Some(Ok(1.0 - 20.0 / util))
    else None
  }

  /** For every positive utilisation the branch is taken, the fraction as
      written is negative, so the nodes "to remove" are a negative number;
      at the stated 12.79% it is -245 nodes. */
  lemma ReductionAsWrittenIsNegative(util: real)
    requires 0.0 < util < 20.0
    ensures PotentialReductionAsWritten(util).Some?
    ensures PotentialReductionAsWritten(util).value.Ok?
    ensures PotentialReductionAsWritten(util).value.value < 0.0
    ensures Truncate(TotalNodes() as real * PotentialReductionAsWritten(util).value.value) <= 0
  {
    assert 20.0 / util * util == 20.0;
    assert 20.0 / util > 1.0;
  }

  lemma ObservedReductionAsWritten()
    ensures Truncate(TotalNodes() as real * (1.0 - 20.0 / ObservedUtilization)) == -245
  {
    var q := 20.0 / ObservedUtilization;
    assert q * 12.79 == 20.0;
  }

  /** The fraction of capacity that can go so that the same work runs the
      rest at 20%: `1 - utilization / 20`. */
  function PotentialReduction(util: real): Option<real>
  {
    if util < 20.0 then Some(1.0 - util / 20.0) else None
  }

  /** For a utilisation in [0, 20) the corrected fraction lies in (0, 1],
      and the capacity left after removing it runs the same work at exactly
      20%. */
  lemma ReductionReachesTarget(util: real)
    requires 0.0 <= util < 20.0
    ensures PotentialReduction(util).Some?
    ensures 0.0 < PotentialReduction(util).value <= 1.0
    ensures util > 0.0 ==> util / (1.0 - PotentialReduction(util).value) == 20.0
  {
    var red := 1.0 - util / 20.0;
    assert 1.0 - red == util / 20.0;
  }

  /** `int(total * potential_reduction)`, with the corrected fraction. */
  function NodesToRemove(util: real): (n: Option<int>)
    ensures 0.0 <= util < 20.0 ==> n.Some? && 0 <= n.value <= TotalNodes() as int
  {
    match PotentialReduction(util)
    case None => None
    case Some(red) => Some(Truncate(TotalNodes() as real * red))
  }

  function CpusToRemove(util: real): (n: Option<int>)
    ensures 0.0 <= util < 20.0 ==> n.Some? && 0 <= n.value <= TotalCpus() as int
  {
    match PotentialReduction(util)
    case None => None
    case Some(red) => Some(Truncate(TotalCpus() as real * red))
  }

  /** At the stated 12.79% the corrected figures are 156 nodes and 27686
      CPUs. */
  lemma ObservedReduction()
    ensures NodesToRemove(ObservedUtilization) == Some(156)
    ensures CpusToRemove(ObservedUtilization) == Some(27686)
  {
  }
}
