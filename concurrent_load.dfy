/** analyze_concurrent_load.py: hourly samples of concurrent CPU use, the
    statistics read off them, and the cloud-cost projections built on those. */
module ConcurrentLoad {
  import opened Common

  /** A job row: timestamps in seconds, requested CPUs and the raw nodelist. */
  datatype Job = Job(start: int, end: int, cpusReq: nat, nodelist: Option<string>)

  /** Only jobs whose run time is positive and under 100 hours are kept. */
  predicate Kept(j: Job)
  {
    0 < j.end - j.start < 360000
  }

  /** The node-type column: 'gpu' when the nodelist mentions gpu. */
  predicate IsGpu(j: Job)
  {
    MentionsGpu(j.nodelist)
  }

  datatype Selection = AllJobs | ComputeJobs | GpuJobs

  predicate Selected(j: Job, sel: Selection)
  {
    match sel
    case AllJobs => true
    case ComputeJobs => !IsGpu(j)
    case GpuJobs => IsGpu(j)
  }

  /** Σ cpus_req over the selected jobs running at t. */
  function LoadAt(jobs: seq<Job>, t: int, sel: Selection): nat
  {
    if jobs == [] then 0
    else
      var j := jobs[|jobs| - 1];
      LoadAt(jobs[..|jobs| - 1], t, sel) + (if ActiveAt(j.start, j.end, t) && Selected(j, sel) then j.cpusReq else 0)
  }

  /** The number of jobs running at t. */
  function RunningAt(jobs: seq<Job>, t: int): nat
  {
    if jobs == [] then 0
    else
      var j := jobs[|jobs| - 1];
      RunningAt(jobs[..|jobs| - 1], t) + (if ActiveAt(j.start, j.end, t) then 1 else 0)
  }

  /** Every running job is either a compute job or a GPU job, so the two
      per-type series add up to the overall series at every tick. */
  lemma {:induction false} LoadSplitsByNodeType(jobs: seq<Job>, t: int)
    ensures LoadAt(jobs, t, AllJobs) == LoadAt(jobs, t, ComputeJobs) + LoadAt(jobs, t, GpuJobs)
  {
    if jobs != [] {
      LoadSplitsByNodeType(jobs[..|jobs| - 1], t);
    }
  }

  /** A job that is running contributes its CPUs to the tick's load. */
  lemma {:induction false} RunningJobCounted(jobs: seq<Job>, t: int, k: nat)
    requires k < |jobs| && ActiveAt(jobs[k].start, jobs[k].end, t)
    ensures LoadAt(jobs, t, AllJobs) >= jobs[k].cpusReq
    ensures RunningAt(jobs, t) >= 1
  {
    if k < |jobs| - 1 {
      RunningJobCounted(jobs[..|jobs| - 1], t, k);
    }
  }

  datatype Sample = Sample(time: int, cpus: nat, computeCpus: nat, gpuCpus: nat, jobs: nat)

  const Hour: int := 3600

  /** What the loop records at tick t. */
  function SampleAt(jobs: seq<Job>, t: int): Sample
  {
    Sample(t, LoadAt(jobs, t, AllJobs), LoadAt(jobs, t, ComputeJobs), LoadAt(jobs, t, GpuJobs), RunningAt(jobs, t))
  }

  /** The hourly sampling loop: ticks start_date + k hours for every k whose
      tick is not after end_date, one sample per tick. */
  method SampleHourly(jobs: seq<Job>, startDate: int, endDate: int) returns (samples: seq<Sample>)
    ensures forall k :: 0 <= k < |samples| ==> samples[k] == SampleAt(jobs, startDate + k * Hour)
    ensures forall k :: 0 <= k < |samples| ==> startDate + k * Hour <= endDate
    ensures startDate + |samples| * Hour > endDate
    ensures forall k :: 0 <= k < |samples| ==> samples[k].cpus == samples[k].computeCpus + samples[k].gpuCpus
  {
    samples := [];
    var currentTime := startDate;
    while currentTime <= endDate
      invariant currentTime == startDate + |samples| * Hour
      invariant forall k :: 0 <= k < |samples| ==> samples[k] == SampleAt(jobs, startDate + k * Hour)
      invariant forall k :: 0 <= k < |samples| ==> startDate + k * Hour <= endDate
      invariant forall k :: 0 <= k < |samples| ==> samples[k].cpus == samples[k].computeCpus + samples[k].gpuCpus
      decreases endDate - currentTime
    {
      var cpus := LoadAt(jobs, currentTime, AllJobs);
      var computeCpus := LoadAt(jobs, currentTime, ComputeJobs);
      var gpuCpus := LoadAt(jobs, currentTime, GpuJobs);
      LoadSplitsByNodeType(jobs, currentTime);
      samples := samples + [Sample(currentTime, cpus, computeCpus, gpuCpus, RunningAt(jobs, currentTime))];
      currentTime := currentTime + Hour;
    }
  }

  /** The sampled window: earliest start to latest end; `None` without jobs. */
  function Window(jobs: seq<Job>): (w: Option<(int, int)>)
    ensures w.None? <==> jobs == []
    ensures w.Some? ==> exists k :: 0 <= k < |jobs| && jobs[k].start == w.value.0
    ensures w.Some? ==> exists k :: 0 <= k < |jobs| && jobs[k].end == w.value.1
    ensures w.Some? ==> forall k :: 0 <= k < |jobs| ==> w.value.0 <= jobs[k].start && jobs[k].end <= w.value.1
  {
    if jobs == [] then None
    else
      var j := jobs[|jobs| - 1];
      match Window(jobs[..|jobs| - 1])
      case None => Some((j.start, j.end))
      case Some(w) =>
        var lo := if j.start < w.0 then j.start else w.0;
        var hi := if j.end > w.1 then j.end else w.1;
        assert exists k :: 0 <= k < |jobs| - 1 && jobs[k].start == w.0;
        assert exists k :: 0 <= k < |jobs| - 1 && jobs[k].end == w.1;
        Some((lo, hi))
  }

  // ---------------------------------------------------------------------
  // Statistics read off the samples

  function MaxOf(s: seq<nat>): (m: nat)
    requires |s| > 0
    ensures forall i :: 0 <= i < |s| ==> s[i] <= m
    ensures exists i :: 0 <= i < |s| && s[i] == m
  {
    if |s| == 1 then s[0]
    else
      var rest := MaxOf(s[..|s| - 1]);
      if s[|s| - 1] > rest then s[|s| - 1] else rest
  }

  function SumNat(s: seq<nat>): nat
  {
    if s == [] then 0 else SumNat(s[..|s| - 1]) + s[|s| - 1]
  }

  lemma {:induction false} SumAtMostCountTimesMax(s: seq<nat>, m: nat)
    requires forall i :: 0 <= i < |s| ==> s[i] <= m
    ensures SumNat(s) <= |s| * m
  {
    if s != [] {
      SumAtMostCountTimesMax(s[..|s| - 1], m);
    }
  }

  /** max / mean of the per-tick totals; `None` (inf or NaN in pandas) when
      there are no samples or every sample is 0. */
  function PeakToAverage(s: seq<nat>): Option<real>
  {
    if |s| == 0 || SumNat(s) == 0 then None
    else Some(MaxOf(s) as real / (SumNat(s) as real / |s| as real))
  }

  /** The peak is never below the mean. */
  lemma PeakToAverageAtLeastOne(s: seq<nat>)
    requires PeakToAverage(s).Some?
    ensures PeakToAverage(s).value >= 1.0
  {
    var m := MaxOf(s);
    SumAtMostCountTimesMax(s, m);
    RatioAtLeastOne(m as real, SumNat(s) as real, |s| as real);
  }

  /** max / (sum / n) >= 1 whenever sum <= n * max. */
  lemma RatioAtLeastOne(m: real, sum: real, n: real)
    requires n > 0.0 && sum > 0.0 && sum <= n * m
    ensures m / (sum / n) >= 1.0
  {
    var mean := sum / n;
    assert mean * n == sum;
    assert n * (m - mean) == n * m - sum;
    assert mean <= m;
    var q := m / mean;
    assert q * mean == m;
    assert mean * (q - 1.0) == m - mean;
  }

  /** The load buckets, each counting low ≤ x < high. */
  const LoadBuckets: seq<(int, int)> := [(0, 5000), (5000, 10000), (10000, 15000), (15000, 20000),
                                         (20000, 30000), (30000, 40000), (40000, 50000), (50000, 100000)]

  function CountInRange(s: seq<nat>, low: int, high: int): nat
  {
    if s == [] then 0
    else CountInRange(s[..|s| - 1], low, high) + (if low <= s[|s| - 1] < high then 1 else 0)
  }

  /** The bucket loop: one count per bucket, in bucket order. */
  method BucketCounts(s: seq<nat>) returns (counts: seq<nat>)
    ensures |counts| == |LoadBuckets|
    ensures forall b :: 0 <= b < |counts| ==> counts[b] == CountInRange(s, LoadBuckets[b].0, LoadBuckets[b].1)
    ensures SumNat(counts) == CountInRange(s, 0, 100000)
  {
    counts := [];
    var b := 0;
    CountInRangeEmpty(s, 0);
    while b < |LoadBuckets|
      invariant 0 <= b <= |LoadBuckets|
      invariant BucketsSoFar(s, b, counts)
    {
      var low := LoadBuckets[b].0;
      var high := LoadBuckets[b].1;
      var count := CountInRange(s, low, high);
      BucketAdvance(s, b, counts);
      counts := counts + [count];
      b := b + 1;
    }
  }

  /** The upper end of the first `b` buckets, which is where the next one
      starts. */
  function CoveredUpTo(b: nat): int
    requires b <= |LoadBuckets|
  {
    if b == 0 then 0 else LoadBuckets[b - 1].1
  }

  /** The buckets are adjacent and none is reversed. */
  lemma BucketsAdjacent(b: nat)
    requires b < |LoadBuckets|
    ensures LoadBuckets[b].0 == CoveredUpTo(b) <= LoadBuckets[b].1
  {
  }

  /** What the bucket loop holds after the first `b` buckets. */
  ghost predicate BucketsSoFar(s: seq<nat>, b: nat, counts: seq<nat>)
    requires b <= |LoadBuckets|
  {
    && |counts| == b
    && (forall i :: 0 <= i < b ==> counts[i] == CountInRange(s, LoadBuckets[i].0, LoadBuckets[i].1))
    && SumNat(counts) == CountInRange(s, 0, CoveredUpTo(b))
  }

  lemma BucketAdvance(s: seq<nat>, b: nat, counts: seq<nat>)
    requires b < |LoadBuckets| && BucketsSoFar(s, b, counts)
    ensures BucketsSoFar(s, b + 1, counts + [CountInRange(s, LoadBuckets[b].0, LoadBuckets[b].1)])
  {
    var count := CountInRange(s, LoadBuckets[b].0, LoadBuckets[b].1);
    BucketsAdjacent(b);
    CountInRangeSplit(s, 0, LoadBuckets[b].0, LoadBuckets[b].1);
    assert (counts + [count])[..b] == counts;
  }

  lemma {:induction false} CountInRangeEmpty(s: seq<nat>, x: int)
    ensures CountInRange(s, x, x) == 0
  {
    if s != [] {
      CountInRangeEmpty(s[..|s| - 1], x);
    }
  }

  /** Adjacent half-open ranges count disjoint samples. */
  lemma {:induction false} CountInRangeSplit(s: seq<nat>, a: int, b: int, c: int)
    requires a <= b <= c
    ensures CountInRange(s, a, b) + CountInRange(s, b, c) == CountInRange(s, a, c)
  {
    if s != [] {
      CountInRangeSplit(s[..|s| - 1], a, b, c);
    }
  }

  /** No sample lands in two buckets, and a sample of 100000 or more lands in none. */
  lemma BucketsDisjoint(x: nat, b1: nat, b2: nat)
    requires b1 < b2 < |LoadBuckets|
    ensures !(LoadBuckets[b1].0 <= x < LoadBuckets[b1].1 && LoadBuckets[b2].0 <= x < LoadBuckets[b2].1)
    ensures x >= 100000 ==> !(LoadBuckets[b2].0 <= x < LoadBuckets[b2].1)
  {
    assert forall i :: 0 <= i < |LoadBuckets| - 1 ==> LoadBuckets[i].1 <= LoadBuckets[i + 1].0;
    assert forall i, k :: 0 <= i < k < |LoadBuckets| ==> LoadBuckets[i].1 <= LoadBuckets[k].0;
  }

  // ---------------------------------------------------------------------
  // Projections and costs

  const HoursPerYear: int := 8760
  const TotalCpus: int := 76800
  const OscarAnnualCost: real := 9000000.0
  const SpotAvgPrice: real := 0.020

  /** Annual CPU-hours: the sampled sum when at least 90% of a year was
      sampled, else the sum scaled to 8760 hours. An empty sample raises
      ZeroDivisionError in the scaling. */
  function AnnualCpuHours(total: nat, hoursSampled: nat): Result<real>
  {
    if hoursSampled as real >= HoursPerYear as real * 0.9 then Ok(total as real)
    else if hoursSampled == 0 then Err("ZeroDivisionError")
    else Ok(total as real * (HoursPerYear as real / hoursSampled as real))
  }

  /** The projection never shrinks the sampled total, and keeps it exactly
      once 7884 hours or more were sampled. */
  lemma AnnualProjectionCoversSample(total: nat, hoursSampled: nat)
    requires hoursSampled > 0
    ensures AnnualCpuHours(total, hoursSampled).Ok?
    ensures AnnualCpuHours(total, hoursSampled).value >= total as real
    ensures hoursSampled >= 7884 ==> AnnualCpuHours(total, hoursSampled).value == total as real
    ensures hoursSampled < 7884 && total > 0 ==> AnnualCpuHours(total, hoursSampled).value > total as real
  {
    if hoursSampled < 7884 {
      var f := HoursPerYear as real / hoursSampled as real;
      assert f * hoursSampled as real == HoursPerYear as real;
      ScaleUp(total as real, f);
    }
  }

  /** Scaling a non-negative amount by a factor above 1 never shrinks it,
      and strictly grows it when it is positive. */
  lemma ScaleUp(a: real, f: real)
    requires a >= 0.0 && f > 1.0
    ensures a * f >= a
    ensures a > 0.0 ==> a * f > a
  {
    assert a * f - a == a * (f - 1.0);
  }

  /** Savings of running the projected hours on average spot capacity. */
  function SpotSavings(annualCpuHours: real): real
  {
    OscarAnnualCost - annualCpuHours * SpotAvgPrice
  }

  /** Σ of the samples above the capacity. */
  function SumAbove(s: seq<nat>, capacity: real): real
  {
    if s == [] then 0.0
    else SumAbove(s[..|s| - 1], capacity) + (if s[|s| - 1] as real > capacity then s[|s| - 1] as real else 0.0)
  }

  /** How many samples are above the capacity. */
  function CountAbove(s: seq<nat>, capacity: real): nat
  {
    if s == [] then 0
    else CountAbove(s[..|s| - 1], capacity) + (if s[|s| - 1] as real > capacity then 1 else 0)
  }

  /** The burst CPU-hours as the script writes them: the sum above the p95
      capacity minus that many times the capacity. */
  function BurstHours(s: seq<nat>, capacity: real): real
  {
    SumAbove(s, capacity) - CountAbove(s, capacity) as real * capacity
  }

  /** Reference definition: Σ max(0, sample − capacity). */
  function ExcessOver(s: seq<nat>, capacity: real): real
  {
    if s == [] then 0.0
    else ExcessOver(s[..|s| - 1], capacity) + MaxReal(0.0, s[|s| - 1] as real - capacity)
  }

  /** The script's formula is the total excess over capacity, hence never negative. */
  lemma {:induction false} BurstHoursIsExcess(s: seq<nat>, capacity: real)
    ensures BurstHours(s, capacity) == ExcessOver(s, capacity)
    ensures BurstHours(s, capacity) >= 0.0
  {
    if s != [] {
      BurstHoursIsExcess(s[..|s| - 1], capacity);
    }
  }

  /** The hybrid scenario: on-prem sized for p95, the burst bought on spot. */
  datatype Hybrid = Hybrid(burstAnnual: real, onpremCost: real, burstCost: real, savings: real)

  function HybridScenario(s: seq<nat>, p95: real): Option<Hybrid>
  {
    if |s| == 0 then None
    else
      var burstAnnual := BurstHours(s, p95) * (HoursPerYear as real / |s| as real);
      var onprem := OscarAnnualCost * (p95 / TotalCpus as real);
      var burstCost := burstAnnual * SpotAvgPrice;
      Some(Hybrid(burstAnnual, onprem, burstCost, OscarAnnualCost - (onprem + burstCost)))
  }

  /** With no sample above p95 nothing is bought in the cloud, and the
      savings are exactly the share of the cluster not needed for p95. */
  lemma HybridWithoutBurst(s: seq<nat>, p95: real)
    requires |s| > 0 && CountAbove(s, p95) == 0
    ensures HybridScenario(s, p95).Some?
    ensures HybridScenario(s, p95).value.burstCost == 0.0
    ensures HybridScenario(s, p95).value.savings == OscarAnnualCost * (1.0 - p95 / TotalCpus as real)
  {
    NoneAboveMeansNoSum(s, p95);
  }

  lemma {:induction false} NoneAboveMeansNoSum(s: seq<nat>, capacity: real)
    requires CountAbove(s, capacity) == 0
    ensures SumAbove(s, capacity) == 0.0
  {
    if s != [] {
      NoneAboveMeansNoSum(s[..|s| - 1], capacity);
    }
  }
}
