/** analyze_slurm_cloud_bursting.py: on-prem capacity rounded up to whole
    nodes, and the CPU-hours that would burst to the cloud above it. */
module CloudBursting {
  import opened Common
  import ConcurrentLoad

  const CpusPerComputeNode: nat := 192
  const CpusPerGpuNode: nat := 128
  const CurrentNodes: int := 435
  const CurrentComputeCpus: int := 63360
  const CurrentGpuCpus: int := 13440
  const OscarCurrentCost: real := 9000000.0
  const C7iSpotAvg: real := 0.0126
  const G5SpotAvg: real := 0.503

  /** $ per CPU per year of the current cluster. */
  const CostPerCpu: real := OscarCurrentCost / 76800.0

  /** Jobs with 0 < run time < 10000 hours are kept. */
  predicate Kept(j: ConcurrentLoad.Job)
  {
    0 < j.end - j.start < 10000 * 3600
  }

  /** The hourly sampling loop of this script: compute and GPU CPUs at
      start_date + k hours for every tick not after end_date, zipped. */
  method SampleHourly(jobs: seq<ConcurrentLoad.Job>, startDate: int, endDate: int) returns (samples: seq<(nat, nat)>)
    ensures forall k :: 0 <= k < |samples| ==> startDate + k * 3600 <= endDate
    ensures startDate + |samples| * 3600 > endDate
    ensures forall k :: 0 <= k < |samples| ==>
      samples[k] == (ConcurrentLoad.LoadAt(jobs, startDate + k * 3600, ConcurrentLoad.ComputeJobs),
                     ConcurrentLoad.LoadAt(jobs, startDate + k * 3600, ConcurrentLoad.GpuJobs))
  {
    samples := [];
    var currentTime := startDate;
    while currentTime <= endDate
      invariant currentTime == startDate + |samples| * 3600
      invariant forall k :: 0 <= k < |samples| ==> startDate + k * 3600 <= endDate
      invariant forall k :: 0 <= k < |samples| ==>
        samples[k] == (ConcurrentLoad.LoadAt(jobs, startDate + k * 3600, ConcurrentLoad.ComputeJobs),
                       ConcurrentLoad.LoadAt(jobs, startDate + k * 3600, ConcurrentLoad.GpuJobs))
      decreases endDate - currentTime
    {
      var computeCpus := ConcurrentLoad.LoadAt(jobs, currentTime, ConcurrentLoad.ComputeJobs);
      var gpuCpus := ConcurrentLoad.LoadAt(jobs, currentTime, ConcurrentLoad.GpuJobs);
      samples := samples + [(computeCpus, gpuCpus)];
      currentTime := currentTime + 3600;
    }
  }

  /** `np.ceil` on a real. */
  function Ceil(x: real): (c: int)
    ensures c as real >= x && (c as real) - 1.0 < x
  {
    if x.Floor as real == x then x.Floor else x.Floor + 1
  }

  /** `int(np.ceil(capacity / perNode))`: whole nodes covering the capacity. */
  function NodesFor(capacity: real, perNode: nat): int
    requires perNode > 0
  {
    Ceil(capacity / perNode as real)
  }

  /** Whole nodes cover the capacity, and one node fewer would not. */
  lemma NodesCoverCapacity(capacity: real, perNode: nat)
    requires perNode > 0
    ensures (NodesFor(capacity, perNode) * perNode) as real >= capacity
    ensures ((NodesFor(capacity, perNode) * perNode) as real) < capacity + perNode as real
  {
    var p := perNode as real;
    var q := capacity / p;
    var n := NodesFor(capacity, perNode);
    var nr := n as real;
    assert q * p == capacity;
    assert (n * perNode) as real == nr * p;
    assert nr >= q && nr < q + 1.0;
    MulBelow(nr, q, p, capacity);
  }

  /** n within one of q, scaled by a positive p, is within p of q * p. */
  lemma MulBelow(n: real, q: real, p: real, c: real)
    requires p > 0.0 && n >= q && n < q + 1.0 && q * p == c
    ensures n * p >= c && n * p < c + p
  {
    var d := n - q;
    assert 0.0 <= d < 1.0;
    assert n * p == c + d * p;
    assert d * p < p by {
      assert p - d * p == (1.0 - d) * p;
    }
  }

  /** A capacity that fits in the current cluster needs no more nodes than it has. */
  lemma NodesWithinCluster(computeCapacity: real, gpuCapacity: real)
    requires computeCapacity <= CurrentComputeCpus as real && gpuCapacity <= CurrentGpuCpus as real
    ensures NodesFor(computeCapacity, CpusPerComputeNode) <= 330
    ensures NodesFor(gpuCapacity, CpusPerGpuNode) <= 105
    ensures NodesToRemove(NodesFor(computeCapacity, CpusPerComputeNode), NodesFor(gpuCapacity, CpusPerGpuNode)) >= 0
  {
    assert computeCapacity / 192.0 <= 330.0;
    assert gpuCapacity / 128.0 <= 105.0;
  }

  /** Σ max(0, sample − capacity): the CPU-hours above the capacity. */
  function Excess(s: seq<nat>, capacity: int): nat
  {
    if s == [] then 0
    else Excess(s[..|s| - 1], capacity) + (if s[|s| - 1] > capacity then s[|s| - 1] - capacity else 0)
  }

  /** The number of samples above the capacity. */
  function CountOver(s: seq<nat>, capacity: int): nat
  {
    if s == [] then 0
    else CountOver(s[..|s| - 1], capacity) + (if s[|s| - 1] > capacity then 1 else 0)
  }

  function Firsts(samples: seq<(nat, nat)>): (r: seq<nat>)
    ensures |r| == |samples| && forall k :: 0 <= k < |samples| ==> r[k] == samples[k].0
  {
    seq(|samples|, k requires 0 <= k < |samples| => samples[k].0)
  }

  function Seconds(samples: seq<(nat, nat)>): (r: seq<nat>)
    ensures |r| == |samples| && forall k :: 0 <= k < |samples| ==> r[k] == samples[k].1
  {
    seq(|samples|, k requires 0 <= k < |samples| => samples[k].1)
  }

  /** Raising the capacity never increases the burst. */
  lemma {:induction false} ExcessAntitone(s: seq<nat>, low: int, high: int)
    requires low <= high
    ensures Excess(s, high) <= Excess(s, low)
    ensures CountOver(s, high) <= CountOver(s, low)
  {
    if s != [] {
      ExcessAntitone(s[..|s| - 1], low, high);
    }
  }

  /** A burst is zero exactly when no sample exceeds the capacity. */
  lemma {:induction false} ExcessZeroIffNoneOver(s: seq<nat>, capacity: int)
    ensures Excess(s, capacity) == 0 <==> CountOver(s, capacity) == 0
  {
    if s != [] {
      ExcessZeroIffNoneOver(s[..|s| - 1], capacity);
    }
  }

  /** The per-scenario loop: compute and GPU burst, and burst_count, which
      counts one for each resource type over capacity at a tick. */
  method ScenarioBurst(samples: seq<(nat, nat)>, computeCpus: int, gpuCpus: int)
    returns (computeBurst: nat, gpuBurst: nat, burstCount: nat)
    ensures computeBurst == Excess(Firsts(samples), computeCpus)
    ensures gpuBurst == Excess(Seconds(samples), gpuCpus)
    ensures burstCount == CountOver(Firsts(samples), computeCpus) + CountOver(Seconds(samples), gpuCpus)
  {
    computeBurst, gpuBurst, burstCount := 0, 0, 0;
    var i := 0;
    while i < |samples|
      invariant 0 <= i <= |samples|
      invariant computeBurst == Excess(Firsts(samples[..i]), computeCpus)
      invariant gpuBurst == Excess(Seconds(samples[..i]), gpuCpus)
      invariant burstCount == CountOver(Firsts(samples[..i]), computeCpus) + CountOver(Seconds(samples[..i]), gpuCpus)
    {
      var (c, g) := samples[i];
      assert Firsts(samples[..i + 1])[..i] == Firsts(samples[..i]);
      assert Seconds(samples[..i + 1])[..i] == Seconds(samples[..i]);
      if c > computeCpus {
        computeBurst := computeBurst + (c - computeCpus);
        burstCount := burstCount + 1;
      }
      if g > gpuCpus {
        gpuBurst := gpuBurst + (g - gpuCpus);
        burstCount := burstCount + 1;
      }
      i := i + 1;
    }
    assert samples[..i] == samples;
  }

  /** pct_time_burst of a scenario row; `None` for the division by zero of
      an empty sample. */
  function PctTimeBurst(burstCount: nat, ticks: nat): Option<real>
  {
    if ticks == 0 then None else Some(burstCount as real / ticks as real * 100.0)
  }

  /** A tick with both resource types over capacity counts twice, so the
      scenario table can report more than 100% of the time bursting. */
  lemma ScenarioPctCanExceedHundred()
    ensures CountOver(Firsts([(1, 1)]), 0) + CountOver(Seconds([(1, 1)]), 0) == 2
    ensures PctTimeBurst(2, 1) == Some(200.0)
  {
    assert Firsts([(1, 1)]) == [1];
    assert Seconds([(1, 1)]) == [1];
  }

  /** burst_count is at most two per tick. */
  lemma {:induction false} CountOverAtMostLength(s: seq<nat>, capacity: int)
    ensures CountOver(s, capacity) <= |s|
  {
    if s != [] {
      CountOverAtMostLength(s[..|s| - 1], capacity);
    }
  }

  /** The per-tick burst of the recommended scenario. */
  function HourBurst(sample: (nat, nat), computeCpus: int, gpuCpus: int): nat
  {
    (if sample.0 > computeCpus then sample.0 - computeCpus else 0)
    + (if sample.1 > gpuCpus then sample.1 - gpuCpus else 0)
  }

  /** Ticks at which at least one resource type is over capacity. */
  function TicksOver(samples: seq<(nat, nat)>, computeCpus: int, gpuCpus: int): nat
  {
    if samples == [] then 0
    else
      var last := samples[|samples| - 1];
      TicksOver(samples[..|samples| - 1], computeCpus, gpuCpus) + (if last.0 > computeCpus || last.1 > gpuCpus then 1 else 0)
  }

  function CountPositive(s: seq<nat>): nat
  {
    if s == [] then 0 else CountPositive(s[..|s| - 1]) + (if s[|s| - 1] > 0 then 1 else 0)
  }

  /** The recommended-scenario loop: the same two bursts plus the list of
      per-tick bursts; hours_bursting counts its positive entries. */
  method RecommendedBurst(samples: seq<(nat, nat)>, computeCpus: int, gpuCpus: int)
    returns (computeBurst: nat, gpuBurst: nat, hourBursts: seq<nat>, hoursBursting: nat)
    ensures computeBurst == Excess(Firsts(samples), computeCpus)
    ensures gpuBurst == Excess(Seconds(samples), gpuCpus)
    ensures |hourBursts| == |samples|
    ensures forall k :: 0 <= k < |samples| ==> hourBursts[k] == HourBurst(samples[k], computeCpus, gpuCpus)
    ensures hoursBursting == TicksOver(samples, computeCpus, gpuCpus)
  {
    computeBurst, gpuBurst, hourBursts := 0, 0, [];
    var i := 0;
    while i < |samples|
      invariant 0 <= i <= |samples|
      invariant BurstSoFar(samples, i, computeCpus, gpuCpus, computeBurst, gpuBurst, hourBursts)
    {
      BurstAdvance(samples, i, computeCpus, gpuCpus, computeBurst, gpuBurst, hourBursts);
      var c, g := samples[i].0, samples[i].1;
      var hourBurst := 0;
      if c > computeCpus {
        hourBurst := hourBurst + (c - computeCpus);
        computeBurst := computeBurst + (c - computeCpus);
      }
      if g > gpuCpus {
        hourBurst := hourBurst + (g - gpuCpus);
        gpuBurst := gpuBurst + (g - gpuCpus);
      }
      hourBursts := hourBursts + [hourBurst];
      i := i + 1;
    }
    assert samples[..i] == samples;
    hoursBursting := CountPositive(hourBursts);
  }

  /** What the recommended-scenario loop holds after the first `i` ticks. */
  ghost predicate BurstSoFar(samples: seq<(nat, nat)>, i: nat, computeCpus: int, gpuCpus: int,
                             computeBurst: nat, gpuBurst: nat, hourBursts: seq<nat>)
    requires i <= |samples|
  {
    && |hourBursts| == i
    && computeBurst == Excess(Firsts(samples[..i]), computeCpus)
    && gpuBurst == Excess(Seconds(samples[..i]), gpuCpus)
    && (forall k :: 0 <= k < i ==> hourBursts[k] == HourBurst(samples[k], computeCpus, gpuCpus))
    && CountPositive(hourBursts) == TicksOver(samples[..i], computeCpus, gpuCpus)
  }

  /** One more tick adds its own excess to each sum and its burst to the
      list. */
  lemma BurstAdvance(samples: seq<(nat, nat)>, i: nat, computeCpus: int, gpuCpus: int,
                     computeBurst: nat, gpuBurst: nat, hourBursts: seq<nat>)
    requires i < |samples|
    requires BurstSoFar(samples, i, computeCpus, gpuCpus, computeBurst, gpuBurst, hourBursts)
    ensures BurstSoFar(samples, i + 1, computeCpus, gpuCpus,
      computeBurst + (if samples[i].0 > computeCpus then samples[i].0 - computeCpus else 0),
      gpuBurst + (if samples[i].1 > gpuCpus then samples[i].1 - gpuCpus else 0),
      hourBursts + [HourBurst(samples[i], computeCpus, gpuCpus)])
  {
    assert Firsts(samples[..i + 1])[..i] == Firsts(samples[..i]);
    assert Seconds(samples[..i + 1])[..i] == Seconds(samples[..i]);
    assert samples[..i + 1][..i] == samples[..i];
    var h := HourBurst(samples[i], computeCpus, gpuCpus);
    assert (hourBursts + [h])[..i] == hourBursts;
  }

  /** Counting ticks once never exceeds counting resource types separately,
      and never exceeds the number of ticks. */
  lemma {:induction false} TicksOverBounds(samples: seq<(nat, nat)>, computeCpus: int, gpuCpus: int)
    ensures TicksOver(samples, computeCpus, gpuCpus) <= |samples|
    ensures TicksOver(samples, computeCpus, gpuCpus)
      <= CountOver(Firsts(samples), computeCpus) + CountOver(Seconds(samples), gpuCpus)
    ensures CountOver(Firsts(samples), computeCpus) <= TicksOver(samples, computeCpus, gpuCpus)
  {
    if samples != [] {
      var init := samples[..|samples| - 1];
      assert Firsts(samples)[..|samples| - 1] == Firsts(init);
      assert Seconds(samples)[..|samples| - 1] == Seconds(init);
      TicksOverBounds(init, computeCpus, gpuCpus);
    }
  }

  /** One row of the scenario table, or the recommended scenario's costs. */
  datatype Costs = Costs(onpremCost: real, burstCost: real, totalCost: real, savings: real)

  function ScenarioCosts(computeNodes: int, gpuNodes: int, computeBurst: nat, gpuBurst: nat): (r: Costs)
  {
    var onprem := ((computeNodes * CpusPerComputeNode + gpuNodes * CpusPerGpuNode) as real) * CostPerCpu;
    var burst := computeBurst as real * C7iSpotAvg + gpuBurst as real * G5SpotAvg;
    Costs(onprem, burst, onprem + burst, OscarCurrentCost - (onprem + burst))
  }

  /** The current cluster with nothing to burst costs exactly today's budget
      and saves nothing; every extra burst CPU-hour only lowers the savings. */
  lemma ScenarioCostsFacts(computeNodes: int, gpuNodes: int, computeBurst: nat, gpuBurst: nat, moreCompute: nat)
    ensures ScenarioCosts(330, 105, 0, 0).totalCost == OscarCurrentCost
    ensures ScenarioCosts(330, 105, 0, 0).savings == 0.0
    ensures ScenarioCosts(computeNodes, gpuNodes, computeBurst, gpuBurst).savings
         + ScenarioCosts(computeNodes, gpuNodes, computeBurst, gpuBurst).totalCost == OscarCurrentCost
    ensures ScenarioCosts(computeNodes, gpuNodes, computeBurst + moreCompute, gpuBurst).savings
         <= ScenarioCosts(computeNodes, gpuNodes, computeBurst, gpuBurst).savings
  {
    assert (330 * 192 + 105 * 128) as real == 76800.0;
  }

  /** Nodes freed by the recommended sizing. */
  function NodesToRemove(computeNodes: int, gpuNodes: int): int
  {
    CurrentNodes - (computeNodes + gpuNodes)
  }
}
