/** analyze_full_aws_migration.py: the yearly cost of running the whole
    workload on AWS, with a spot/on-demand mix per job-duration category, a
    GPU instance choice by requested CPUs, and fixed storage, transfer,
    support and operations terms. */
module AwsMigration {
  import opened Common

  /** Seconds are whole numbers; a missing time is `None`. */
  datatype Job = Job(cpusReq: nat, start: Option<int>, end: Option<int>, nodelist: Option<string>)

  // Prices in dollars.
  const OnDemandPerCpuHour: real := 0.168 / 4.0
  const SpotPerCpuHour: real := 0.042 * 0.3
  const G5OnDemand: real := 1.006
  const G5Spot: real := 1.006 * 0.5
  const P3OnDemand: real := 3.06
  const P3Spot: real := 3.06 * 0.5
  const TransferPerGb: real := 0.09
  const OscarYearly: real := 9000000.0
  const MigrationCost: real := 500000.0
  const OperationsYearly: real := 50000.0
  const StorageTb: nat := 500
  const TransferTbPerMonth: nat := 10

  function RunHours(j: Job): Option<real>
  {
    if j.start.Some? && j.end.Some? then Some((j.end.value - j.start.value) as real / 3600.0) else None
  }

  /** A job enters the analysis iff its run time is known and strictly
      between 0 and 10000 hours. */
  predicate Kept(j: Job)
  {
    RunHours(j).Some? && 0.0 < RunHours(j).value < 10000.0
  }

  function KeepJobs(jobs: seq<Job>): (r: seq<Job>)
    ensures forall k :: 0 <= k < |r| ==> Kept(r[k])
    ensures |r| <= |jobs|
  {
    if jobs == [] then []
    else
      var rest := KeepJobs(jobs[..|jobs| - 1]);
      if Kept(jobs[|jobs| - 1]) then rest + [jobs[|jobs| - 1]] else rest
  }

  /** The kept jobs, each as often as in the input, and no other job. */
  lemma {:induction false} KeepJobsMultiset(jobs: seq<Job>)
    ensures forall x :: multiset(KeepJobs(jobs))[x] == if Kept(x) then multiset(jobs)[x] else 0
  {
    if jobs != [] {
      KeepJobsMultiset(jobs[..|jobs| - 1]);
      MultisetOfLast(jobs);
    }
  }

  predicate IsGpu(j: Job)
  {
    MentionsGpu(j.nodelist)
  }

  function Hours(j: Job): real
    requires Kept(j)
  {
    RunHours(j).value
  }

  function CpuHours(j: Job): real
    requires Kept(j)
  {
    j.cpusReq as real * Hours(j)
  }

  // ---------------------------------------------------------------------
  // Compute jobs: duration categories and the spot mix

  datatype Duration = UnderOneHour | OneToFourHours | FourToDay | OverDay

  const Durations: seq<Duration> := [UnderOneHour, OneToFourHours, FourToDay, OverDay]

  /** `pd.cut` with edges 0, 1, 4, 24, inf: right-closed, and a duration of
      0 or less falls in no category. */
  function DurationOf(h: real): (d: Option<Duration>)
    ensures d == Some(UnderOneHour) <==> 0.0 < h <= 1.0
    ensures d == Some(OneToFourHours) <==> 1.0 < h <= 4.0
    ensures d == Some(FourToDay) <==> 4.0 < h <= 24.0
    ensures d == Some(OverDay) <==> 24.0 < h
  {
    if h <= 0.0 then None
    else if h <= 1.0 then Some(UnderOneHour)
    else if h <= 4.0 then Some(OneToFourHours)
    else if h <= 24.0 then Some(FourToDay)
    else Some(OverDay)
  }

  function SpotShare(d: Duration): real
  {
    match d
    case UnderOneHour => 0.95
    case OneToFourHours => 0.85
    case FourToDay => 0.70
    case OverDay => 0.50
  }

  /** Hours billed partly at the spot and partly at the on-demand price. */
  function MixedCost(hours: real, spotShare: real, spot: real, onDemand: real): real
  {
    hours * spotShare * spot + hours * (1.0 - spotShare) * onDemand
  }

  /** A mix costs between running everything on spot and everything on
      demand, and it is additive in the hours. */
  lemma MixedCostBounds(hours: real, spotShare: real, spot: real, onDemand: real)
    requires hours >= 0.0 && 0.0 <= spotShare <= 1.0 && 0.0 <= spot <= onDemand
    ensures hours * spot <= MixedCost(hours, spotShare, spot, onDemand) <= hours * onDemand
  {
    var c := MixedCost(hours, spotShare, spot, onDemand);
    assert c == hours * spot + hours * (1.0 - spotShare) * (onDemand - spot);
    assert hours * (1.0 - spotShare) >= 0.0;
    assert hours * (1.0 - spotShare) * (onDemand - spot) >= 0.0;
    assert hours * (1.0 - spotShare) <= hours;
    assert hours * (1.0 - spotShare) * (onDemand - spot) <= hours * (onDemand - spot);
  }

  /** CPU-hours of the kept compute jobs in category `d`. */
  function CategoryCpuHours(jobs: seq<Job>, d: Duration): real
  {
    if jobs == [] then 0.0
    else
      var j := jobs[|jobs| - 1];
      CategoryCpuHours(jobs[..|jobs| - 1], d)
        + (if Kept(j) && !IsGpu(j) && DurationOf(Hours(j)) == Some(d) then CpuHours(j) else 0.0)
  }

  function ComputeCpuHours(jobs: seq<Job>): real
  {
    if jobs == [] then 0.0
    else
      var j := jobs[|jobs| - 1];
      ComputeCpuHours(jobs[..|jobs| - 1]) + (if Kept(j) && !IsGpu(j) then CpuHours(j) else 0.0)
  }

  /** Every kept compute job falls in exactly one category, so the four
      categories together hold all compute CPU-hours. */
  lemma {:induction false} CategoriesPartition(jobs: seq<Job>)
    ensures CategoryCpuHours(jobs, UnderOneHour) + CategoryCpuHours(jobs, OneToFourHours)
      + CategoryCpuHours(jobs, FourToDay) + CategoryCpuHours(jobs, OverDay) == ComputeCpuHours(jobs)
  {
    if jobs != [] {
      CategoriesPartition(jobs[..|jobs| - 1]);
      var j := jobs[|jobs| - 1];
      if Kept(j) {
        assert DurationOf(Hours(j)).Some?;
      }
    }
  }

  function CategoryCost(jobs: seq<Job>, d: Duration): real
  {
    MixedCost(CategoryCpuHours(jobs, d), SpotShare(d), SpotPerCpuHour, OnDemandPerCpuHour)
  }

  /** Compute cost of the first `n` categories. */
  function ComputeCostUpTo(jobs: seq<Job>, n: nat): real
    requires n <= |Durations|
  {
    if n == 0 then 0.0 else ComputeCostUpTo(jobs, n - 1) + CategoryCost(jobs, Durations[n - 1])
  }

  function ComputeCost(jobs: seq<Job>): real
  {
    ComputeCostUpTo(jobs, 4)
  }

  /** The summed CPU-hours are non-negative. */
  lemma {:induction false} CategoryCpuHoursNonNegative(jobs: seq<Job>, d: Duration)
    ensures CategoryCpuHours(jobs, d) >= 0.0
  {
    if jobs != [] {
      CategoryCpuHoursNonNegative(jobs[..|jobs| - 1], d);
      var j := jobs[|jobs| - 1];
      if Kept(j) {
        assert CpuHours(j) >= 0.0;
      }
    }
  }

  /** The total compute cost lies between pricing all compute CPU-hours at
      the spot price and pricing them all on demand. */
  lemma ComputeCostBounds(jobs: seq<Job>)
    ensures ComputeCpuHours(jobs) * SpotPerCpuHour <= ComputeCost(jobs) <= ComputeCpuHours(jobs) * OnDemandPerCpuHour
  {
    CategoriesPartition(jobs);
    CategoryCostBounds(jobs, UnderOneHour);
    CategoryCostBounds(jobs, OneToFourHours);
    CategoryCostBounds(jobs, FourToDay);
    CategoryCostBounds(jobs, OverDay);
    ComputeCostIsSum(jobs);
    SumOfBounds(CategoryCpuHours(jobs, UnderOneHour), CategoryCpuHours(jobs, OneToFourHours),
      CategoryCpuHours(jobs, FourToDay), CategoryCpuHours(jobs, OverDay),
      CategoryCost(jobs, UnderOneHour), CategoryCost(jobs, OneToFourHours),
      CategoryCost(jobs, FourToDay), CategoryCost(jobs, OverDay), SpotPerCpuHour, OnDemandPerCpuHour);
  }

  /** The compute cost is the four categories' costs added. */
  lemma ComputeCostIsSum(jobs: seq<Job>)
    ensures ComputeCost(jobs) == CategoryCost(jobs, UnderOneHour) + CategoryCost(jobs, OneToFourHours)
      + CategoryCost(jobs, FourToDay) + CategoryCost(jobs, OverDay)
  {
    assert ComputeCostUpTo(jobs, 1) == CategoryCost(jobs, UnderOneHour);
    assert ComputeCostUpTo(jobs, 2) == ComputeCostUpTo(jobs, 1) + CategoryCost(jobs, OneToFourHours);
    assert ComputeCostUpTo(jobs, 3) == ComputeCostUpTo(jobs, 2) + CategoryCost(jobs, FourToDay);
    assert ComputeCostUpTo(jobs, 4) == ComputeCostUpTo(jobs, 3) + CategoryCost(jobs, OverDay);
  }

  /** One category costs between its CPU-hours at spot and on demand. */
  lemma CategoryCostBounds(jobs: seq<Job>, d: Duration)
    ensures CategoryCpuHours(jobs, d) * SpotPerCpuHour <= CategoryCost(jobs, d) <= CategoryCpuHours(jobs, d) * OnDemandPerCpuHour
  {
    CategoryCpuHoursNonNegative(jobs, d);
    MixedCostBounds(CategoryCpuHours(jobs, d), SpotShare(d), SpotPerCpuHour, OnDemandPerCpuHour);
  }

  /** Four bounded parts add up to a bounded whole. */
  lemma SumOfBounds(a: real, b: real, c: real, e: real, ca: real, cb: real, cc: real, ce: real, lo: real, hi: real)
    requires a * lo <= ca <= a * hi && b * lo <= cb <= b * hi
    requires c * lo <= cc <= c * hi && e * lo <= ce <= e * hi
    ensures (a + b + c + e) * lo <= ca + cb + cc + ce <= (a + b + c + e) * hi
  {
    assert (a + b + c + e) * lo == a * lo + b * lo + c * lo + e * lo;
    assert (a + b + c + e) * hi == a * hi + b * hi + c * hi + e * hi;
  }

  // ---------------------------------------------------------------------
  // GPU jobs: instance choice

  datatype Instance = G5Xlarge | P32xlarge

  /** g5.xlarge for at most 16 requested CPUs, otherwise p3.2xlarge. */
  function InstanceOf(cpusReq: nat): (i: Instance)
    ensures i == G5Xlarge <==> cpusReq <= 16
  {
    if cpusReq <= 16 then G5Xlarge else P32xlarge
  }

  /** Job hours (not CPU-hours) of the kept GPU jobs on instance `i`. */
  function InstanceHours(jobs: seq<Job>, i: Instance): real
  {
    if jobs == [] then 0.0
    else
      var j := jobs[|jobs| - 1];
      InstanceHours(jobs[..|jobs| - 1], i) + (if Kept(j) && IsGpu(j) && InstanceOf(j.cpusReq) == i then Hours(j) else 0.0)
  }

  function GpuHours(jobs: seq<Job>): real
  {
    if jobs == [] then 0.0
    else
      var j := jobs[|jobs| - 1];
      GpuHours(jobs[..|jobs| - 1]) + (if Kept(j) && IsGpu(j) then Hours(j) else 0.0)
  }

  /** Every kept GPU job runs on exactly one of the two instance types. */
  lemma {:induction false} InstancesPartition(jobs: seq<Job>)
    ensures InstanceHours(jobs, G5Xlarge) + InstanceHours(jobs, P32xlarge) == GpuHours(jobs)
  {
    if jobs != [] {
      InstancesPartition(jobs[..|jobs| - 1]);
    }
  }

  /** 85% spot on g5.xlarge, 70% spot on p3.2xlarge. */
  function InstanceCost(jobs: seq<Job>, i: Instance): real
  {
    match i
    case G5Xlarge => MixedCost(InstanceHours(jobs, i), 0.85, G5Spot, G5OnDemand)
    case P32xlarge => MixedCost(InstanceHours(jobs, i), 0.70, P3Spot, P3OnDemand)
  }

  function GpuCost(jobs: seq<Job>): real
  {
    InstanceCost(jobs, G5Xlarge) + InstanceCost(jobs, P32xlarge)
  }

  // ---------------------------------------------------------------------
  // Fixed terms and totals

  /** FSx for Lustre at $0.145 per GB-month, for a year. */
  function StorageYearly(tb: nat): real
  {
    tb as real * 1024.0 * 0.145 * 12.0
  }

  /** Egress beyond the first free 100 GB each month. */
  function TransferYearly(tbPerMonth: nat): real
  {
    (tbPerMonth as real * 1024.0 - 100.0) * TransferPerGb * 12.0
  }

  /** Business support: 10% of the monthly compute and GPU bill, at least
      $100 a month. */
  function SupportYearly(computeAndGpu: real): (r: real)
    ensures r >= 1200.0
    ensures r >= computeAndGpu * 0.10
    ensures r == 1200.0 || r == computeAndGpu * 0.10
  {
    MaxReal(computeAndGpu / 12.0 * 0.10, 100.0) * 12.0
  }

  datatype Costs = Costs(
    compute: real,
    gpu: real,
    storage: real,
    transfer: real,
    support: real,
    operations: real)

  function Total(c: Costs): real
  {
    c.compute + c.gpu + c.storage + c.transfer + c.support + c.operations
  }

  function ThreeYearSavings(total: real): real
  {
    OscarYearly * 3.0 - (MigrationCost + total * 3.0)
  }

  function CostsOf(jobs: seq<Job>, storageTb: nat): Costs
  {
    var compute := ComputeCost(jobs);
    var gpu := GpuCost(jobs);
    Costs(compute, gpu, StorageYearly(storageTb), TransferYearly(TransferTbPerMonth),
          SupportYearly(compute + gpu), OperationsYearly)
  }

  /** `analyze_full_migration`: the workload breakdown divides by the
      number of surviving jobs, so none raises ZeroDivisionError; otherwise
      the per-category loop accumulates `total_compute_cost`, then the GPU
      and fixed terms give the breakdown, its total and the three-year
      saving. */
  method AnalyzeFullMigration(jobs: seq<Job>) returns (result: Result<(Costs, real, real)>)
    ensures result.Err? <==> KeepJobs(jobs) == []
    ensures result.Err? ==> result.message == "ZeroDivisionError"
    ensures result.Ok? ==> result.value.0 == CostsOf(KeepJobs(jobs), StorageTb)
    ensures result.Ok? ==> result.value.1 == Total(result.value.0)
    ensures result.Ok? ==> result.value.2 == ThreeYearSavings(result.value.1)
  {
    var kept := KeepJobs(jobs);
    if |kept| == 0 {
      return Err("ZeroDivisionError");
    }
    var totalCompute := 0.0;
    for n := 0 to |Durations|
      invariant totalCompute == ComputeCostUpTo(kept, n)
    {
      var d := Durations[n];
      var cpuHours := CategoryCpuHours(kept, d);
      var spotCost := cpuHours * SpotShare(d) * SpotPerCpuHour;
      var onDemandCost := cpuHours * (1.0 - SpotShare(d)) * OnDemandPerCpuHour;
      totalCompute := totalCompute + (spotCost + onDemandCost);
    }
    var gpu := GpuCost(kept);
    var costs := Costs(totalCompute, gpu, StorageYearly(StorageTb), TransferYearly(TransferTbPerMonth),
                       SupportYearly(totalCompute + gpu), OperationsYearly);
    var total := Total(costs);
    result := Ok((costs, total, ThreeYearSavings(total)));
  }

  /** The fixed terms at the script's figures: 500 TB of FSx and 10 TB of
      egress a month. */
  lemma FixedTerms()
    ensures StorageYearly(StorageTb) == 890880.0
    ensures TransferYearly(TransferTbPerMonth) == 10951.2
  {
  }

  /** The total is at least compute and GPU plus the support floor,
      storage, transfer and operations, so the three-year saving is at most
      three years of the on-premises budget less the migration and three
      years of those terms. */
  lemma TotalFacts(jobs: seq<Job>)
    ensures var c := CostsOf(KeepJobs(jobs), StorageTb);
      && Total(c) >= c.compute + c.gpu + 890880.0 + 10951.2 + 1200.0 + 50000.0
      && ThreeYearSavings(Total(c)) <= OscarYearly * 3.0 - MigrationCost - 3.0 * (c.compute + c.gpu + 890880.0 + 10951.2 + 1200.0 + 50000.0)
  {
    FixedTerms();
  }

  /** A storage scenario replaces only the FSx term: the script's
      `total - storage + storage_annual` is the total at that size. */
  lemma StorageScenario(jobs: seq<Job>, tb: nat)
    ensures Total(CostsOf(jobs, StorageTb)) - StorageYearly(StorageTb) + StorageYearly(tb)
      == Total(CostsOf(jobs, tb))
    ensures tb > StorageTb ==> Total(CostsOf(jobs, tb)) > Total(CostsOf(jobs, StorageTb))
  {
  }
}
