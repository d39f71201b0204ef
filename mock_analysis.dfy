/** analyze_mock_user_group_data.py: who drives the peak of concurrent CPU
    demand, the per-group cloud strategy rule, the growth trend rule and the
    efficiency scores. */
module MockAnalysis {
  import opened Common

  datatype Job = Job(group: nat, start: int, end: int, cpus: nat)

  const SampleStep: int := 6 * 3600

  // ---------------------------------------------------------------------
  // Sample times

  /** Number of 6-hour ticks from `first` that lie strictly before `last`. */
  function TickCount(first: int, last: int): (n: nat)
    ensures n > 0 ==> first + SampleStep * (n - 1) < last
    ensures first + SampleStep * n >= last
  {
    if last <= first then 0 else (last - first + SampleStep - 1) / SampleStep
  }

  function Ticks(first: int, last: int): (ts: seq<int>)
    ensures |ts| == TickCount(first, last)
    ensures forall k :: 0 <= k < |ts| ==> ts[k] == first + SampleStep * k && ts[k] < last
  {
    seq(TickCount(first, last), k requires 0 <= k < TickCount(first, last) => first + SampleStep * k)
  }

  /** The `while current < end_date` loop building `sample_times`. */
  method SampleTimes(first: int, last: int) returns (times: seq<int>)
    ensures times == Ticks(first, last)
  {
    times := [];
    var current := first;
    while current < last
      invariant |times| <= TickCount(first, last)
      invariant current == first + SampleStep * |times|
      invariant times == Ticks(first, last)[..|times|]
      decreases last - current
    {
      times := times + [current];
      current := current + SampleStep;
    }
  }

  /** Earliest start and latest end over the jobs. */
  function MinStart(jobs: seq<Job>): (m: int)
    requires |jobs| > 0
    ensures forall k :: 0 <= k < |jobs| ==> m <= jobs[k].start
    ensures exists k :: 0 <= k < |jobs| && m == jobs[k].start
  {
    if |jobs| == 1 then jobs[0].start
    else
      var m := MinStart(jobs[..|jobs| - 1]);
      if jobs[|jobs| - 1].start < m then jobs[|jobs| - 1].start else m
  }

  function MaxEnd(jobs: seq<Job>): (m: int)
    requires |jobs| > 0
    ensures forall k :: 0 <= k < |jobs| ==> jobs[k].end <= m
    ensures exists k :: 0 <= k < |jobs| && m == jobs[k].end
  {
    if |jobs| == 1 then jobs[0].end
    else
      var m := MaxEnd(jobs[..|jobs| - 1]);
      if jobs[|jobs| - 1].end > m then jobs[|jobs| - 1].end else m
  }

  // ---------------------------------------------------------------------
  // Load and the peak

  function Running(jobs: seq<Job>, t: int): (r: seq<Job>)
    ensures |r| <= |jobs|
    ensures forall k :: 0 <= k < |r| ==> ActiveAt(r[k].start, r[k].end, t)
  {
    if jobs == [] then []
    else
      var rest := Running(jobs[..|jobs| - 1], t);
      var j := jobs[|jobs| - 1];
      if ActiveAt(j.start, j.end, t) then rest + [j] else rest
  }

  /** The jobs active at `t`, each as often as in the input, and no other job. */
  lemma {:induction false} RunningMultiset(jobs: seq<Job>, t: int)
    ensures forall x :: multiset(Running(jobs, t))[x] == if ActiveAt(x.start, x.end, t) then multiset(jobs)[x] else 0
  {
    if jobs != [] {
      RunningMultiset(jobs[..|jobs| - 1], t);
      MultisetOfLast(jobs);
    }
  }

  function TotalCpus(jobs: seq<Job>): nat
  {
    if jobs == [] then 0 else TotalCpus(jobs[..|jobs| - 1]) + jobs[|jobs| - 1].cpus
  }

  function LoadAt(jobs: seq<Job>, t: int): nat
  {
    TotalCpus(Running(jobs, t))
  }

  /** The peak after scanning `ticks`: its load (0 to start with) and the
      first tick that reached it, updated only on a strictly greater load. */
  function PeakOf(jobs: seq<Job>, ticks: seq<int>): (nat, Option<int>)
  {
    if ticks == [] then (0, None)
    else
      var (load, time) := PeakOf(jobs, ticks[..|ticks| - 1]);
      var l := LoadAt(jobs, ticks[|ticks| - 1]);
      if l > load then (l, Some(ticks[|ticks| - 1])) else (load, time)
  }

  /** The peak is the largest load at any tick; its time is the earliest
      tick with that load; there is no peak time only when every load is 0. */
  lemma {:induction false} PeakIsEarliestMaximum(jobs: seq<Job>, ticks: seq<int>)
    ensures var (load, time) := PeakOf(jobs, ticks);
      && (forall k :: 0 <= k < |ticks| ==> LoadAt(jobs, ticks[k]) <= load)
      && (time.None? <==> load == 0)
      && (time.Some? ==> exists k :: (0 <= k < |ticks| && ticks[k] == time.value && LoadAt(jobs, ticks[k]) == load
            && forall i :: 0 <= i < k ==> LoadAt(jobs, ticks[i]) < load))
  {
    if ticks != [] {
      var init := ticks[..|ticks| - 1];
      PeakIsEarliestMaximum(jobs, init);
      var (load, time) := PeakOf(jobs, init);
      var l := LoadAt(jobs, ticks[|ticks| - 1]);
      assert forall k :: 0 <= k < |init| ==> ticks[k] == init[k];
      if l > load {
        assert forall i :: 0 <= i < |ticks| - 1 ==> LoadAt(jobs, ticks[i]) < l;
      } else if time.Some? {
        var k :| 0 <= k < |init| && init[k] == time.value && LoadAt(jobs, init[k]) == load
          && forall i :: 0 <= i < k ==> LoadAt(jobs, init[i]) < load;
        assert ticks[k] == time.value;
      }
    }
  }

  lemma {:induction false} PeakLoadPositive(jobs: seq<Job>, ticks: seq<int>)
    ensures PeakOf(jobs, ticks).1.Some? <==> PeakOf(jobs, ticks).0 > 0
  {
    if ticks != [] {
      PeakLoadPositive(jobs, ticks[..|ticks| - 1]);
    }
  }

  /** One group's share of the peak. */
  datatype GroupShare = GroupShare(group: nat, cpus: nat, jobs: nat, pct: real)

  datatype Peak = Peak(time: int, load: nat, running: seq<Job>, shares: seq<GroupShare>)

  /** The running jobs' groups in order of first appearance. */
  function Groups(jobs: seq<Job>): (gs: seq<nat>)
    ensures forall a, b :: 0 <= a < b < |gs| ==> gs[a] != gs[b]
    ensures forall k :: 0 <= k < |jobs| ==> jobs[k].group in gs
    ensures forall g :: g in gs ==> exists k :: 0 <= k < |jobs| && jobs[k].group == g
  {
    if jobs == [] then []
    else
      var gs := Groups(jobs[..|jobs| - 1]);
      var g := jobs[|jobs| - 1].group;
      assert forall k :: 0 <= k < |jobs| - 1 ==> jobs[..|jobs| - 1][k] == jobs[k];
      if g in gs then gs else gs + [g]
  }

  function InGroup(jobs: seq<Job>, g: nat): (r: seq<Job>)
    ensures |r| <= |jobs|
  {
    if jobs == [] then []
    else
      var rest := InGroup(jobs[..|jobs| - 1], g);
      if jobs[|jobs| - 1].group == g then rest + [jobs[|jobs| - 1]] else rest
  }

  /** The group's jobs, each as often as in the input, and no other job. */
  lemma {:induction false} InGroupMultiset(jobs: seq<Job>, g: nat)
    ensures forall x :: multiset(InGroup(jobs, g))[x] == if x.group == g then multiset(jobs)[x] else 0
  {
    if jobs != [] {
      InGroupMultiset(jobs[..|jobs| - 1], g);
      MultisetOfLast(jobs);
    }
  }

  function SharesOf(running: seq<Job>, groups: seq<nat>, peak: nat): seq<GroupShare>
    requires peak > 0
  {
    if groups == [] then []
    else
      var g := groups[|groups| - 1];
      var members := InGroup(running, g);
      SharesOf(running, groups[..|groups| - 1], peak)
        + [GroupShare(g, TotalCpus(members), |members|, TotalCpus(members) as real / peak as real * 100.0)]
  }

  /** The report for a peak found at `time` with `load` CPUs. */
  function PeakReport(jobs: seq<Job>, time: int, load: nat): Peak
    requires load > 0
  {
    var running := Running(jobs, time);
    Peak(time, load, running, SharesOf(running, Groups(running), load))
  }

  /** Sample every 6 hours from the first start to the last end, keep the
      first strictly greatest load and split it by group; with no positive
      load there are no peak jobs and the report fails. */
  function PeakAttributionOf(jobs: seq<Job>): Result<Peak>
  {
    if jobs == [] then Err("no peak jobs")
    else
      var (load, time) := PeakOf(jobs, Ticks(MinStart(jobs), MaxEnd(jobs)));
      if time.None? || load == 0 then Err("no peak jobs") else Ok(PeakReport(jobs, time.value, load))
  }

  /** A successful report holds the greatest sampled load, the earliest
      sample time reaching it, and group shares adding up to 100%. */
  lemma PeakAttributionFacts(jobs: seq<Job>)
    requires PeakAttributionOf(jobs).Ok?
    ensures var p := PeakAttributionOf(jobs).value;
      var ticks := Ticks(MinStart(jobs), MaxEnd(jobs));
      && p.load == LoadAt(jobs, p.time) > 0
      && (forall k :: 0 <= k < |ticks| ==> LoadAt(jobs, ticks[k]) <= p.load)
      && (exists k :: (0 <= k < |ticks| && ticks[k] == p.time
            && forall i :: 0 <= i < k ==> LoadAt(jobs, ticks[i]) < p.load))
      && SumPct(p.shares) == 100.0
  {
    var ticks := Ticks(MinStart(jobs), MaxEnd(jobs));
    var peak := PeakOf(jobs, ticks);
    PeakIsEarliestMaximum(jobs, ticks);
    assert peak.1.Some? && peak.0 > 0;
    var p := PeakAttributionOf(jobs).value;
    assert p == PeakReport(jobs, peak.1.value, peak.0);
    var k :| 0 <= k < |ticks| && ticks[k] == p.time && LoadAt(jobs, ticks[k]) == p.load
      && forall i :: 0 <= i < k ==> LoadAt(jobs, ticks[i]) < p.load;
    SharesSumToHundred(jobs, p.time);
  }

  /** The report fails exactly when no sample time has a positive load. */
  lemma PeakAttributionFails(jobs: seq<Job>)
    requires jobs != []
    ensures PeakAttributionOf(jobs).Err? <==>
      forall k :: 0 <= k < |Ticks(MinStart(jobs), MaxEnd(jobs))| ==> LoadAt(jobs, Ticks(MinStart(jobs), MaxEnd(jobs))[k]) == 0
  {
    var ticks := Ticks(MinStart(jobs), MaxEnd(jobs));
    PeakIsEarliestMaximum(jobs, ticks);
    PeakLoadPositive(jobs, ticks);
  }

  /** `analyze_peak_attribution`. */
  method PeakAttribution(jobs: seq<Job>) returns (r: Result<Peak>)
    ensures r == PeakAttributionOf(jobs)
  {
    if jobs == [] {
      return Err("no peak jobs");
    }
    var sampleTimes := SampleTimes(MinStart(jobs), MaxEnd(jobs));
    var peakLoad, peakTime, peakJobs := ScanPeak(jobs, sampleTimes);
    PeakLoadPositive(jobs, sampleTimes);
    if peakJobs.None? {
      return Err("no peak jobs");
    }
    r := Ok(PeakReport(jobs, peakTime.value, peakLoad));
  }

  /** The sampling loop: keep the first strictly greatest load and the jobs
      running then. */
  method ScanPeak(jobs: seq<Job>, sampleTimes: seq<int>) returns (peakLoad: nat, peakTime: Option<int>, peakJobs: Option<seq<Job>>)
    ensures (peakLoad, peakTime) == PeakOf(jobs, sampleTimes)
    ensures peakTime.None? <==> peakJobs.None?
    ensures peakTime.Some? ==> peakJobs.value == Running(jobs, peakTime.value)
  {
    peakLoad, peakTime, peakJobs := 0, None, None;
    for i := 0 to |sampleTimes|
      invariant (peakLoad, peakTime) == PeakOf(jobs, sampleTimes[..i])
      invariant peakTime.None? <==> peakJobs.None?
      invariant peakTime.Some? ==> peakJobs.value == Running(jobs, peakTime.value)
    {
      var t := sampleTimes[i];
      var running := Running(jobs, t);
      var load := TotalCpus(running);
      assert PeakOf(jobs, sampleTimes[..i + 1])
          == if load > peakLoad then (load, Some(t)) else (peakLoad, peakTime) by {
        assert sampleTimes[..i + 1][..i] == sampleTimes[..i];
        assert LoadAt(jobs, t) == load;
      }
      if load > peakLoad {
        peakLoad := load;
        peakTime := Some(t);
        peakJobs := Some(running);
      }
    }
    assert sampleTimes[..|sampleTimes|] == sampleTimes;
  }

  // The shares add up to the peak.

  function SumGroups(running: seq<Job>, groups: seq<nat>): nat
  {
    if groups == [] then 0
    else SumGroups(running, groups[..|groups| - 1]) + TotalCpus(InGroup(running, groups[|groups| - 1]))
  }

  /** Adding one job adds its CPUs once if its group is listed. */
  lemma {:induction false} SumGroupsStep(running: seq<Job>, j: Job, groups: seq<nat>)
    requires forall a, b :: 0 <= a < b < |groups| ==> groups[a] != groups[b]
    ensures SumGroups(running + [j], groups) == SumGroups(running, groups) + (if j.group in groups then j.cpus else 0)
  {
    if groups != [] {
      var init := groups[..|groups| - 1];
      var h := groups[|groups| - 1];
      SumGroupsStep(running, j, init);
      assert (running + [j])[..|running|] == running;
      assert forall a :: 0 <= a < |init| ==> init[a] == groups[a] != h;
      assert j.group in groups <==> j.group in init || j.group == h;
    }
  }

  lemma {:induction false} SumGroupsCovers(running: seq<Job>, groups: seq<nat>)
    requires forall a, b :: 0 <= a < b < |groups| ==> groups[a] != groups[b]
    requires forall k :: 0 <= k < |running| ==> running[k].group in groups
    ensures SumGroups(running, groups) == TotalCpus(running)
  {
    if running == [] {
      SumGroupsEmpty(groups);
    } else {
      var init := running[..|running| - 1];
      SumGroupsCovers(init, groups);
      assert init + [running[|running| - 1]] == running;
      SumGroupsStep(init, running[|running| - 1], groups);
    }
  }

  lemma {:induction false} SumGroupsEmpty(groups: seq<nat>)
    ensures SumGroups([], groups) == 0
  {
    if groups != [] {
      SumGroupsEmpty(groups[..|groups| - 1]);
    }
  }

  function SumPct(shares: seq<GroupShare>): real
  {
    if shares == [] then 0.0 else SumPct(shares[..|shares| - 1]) + shares[|shares| - 1].pct
  }

  lemma {:induction false} SumPctOfShares(running: seq<Job>, groups: seq<nat>, peak: nat)
    requires peak > 0
    ensures SumPct(SharesOf(running, groups, peak)) == SumGroups(running, groups) as real / peak as real * 100.0
  {
    if groups != [] {
      var init := groups[..|groups| - 1];
      SumPctOfShares(running, init, peak);
      var s := SharesOf(running, groups, peak);
      assert s[..|s| - 1] == SharesOf(running, init, peak);
      AddShares(SumGroups(running, init), TotalCpus(InGroup(running, groups[|groups| - 1])), peak);
    }
  }

  lemma AddShares(a: nat, b: nat, peak: nat)
    requires peak > 0
    ensures a as real / peak as real * 100.0 + b as real / peak as real * 100.0 == (a + b) as real / peak as real * 100.0
  {
  }

  /** The group percentages of a peak add up to 100. */
  lemma SharesSumToHundred(jobs: seq<Job>, t: int)
    requires LoadAt(jobs, t) > 0
    ensures SumPct(SharesOf(Running(jobs, t), Groups(Running(jobs, t)), LoadAt(jobs, t))) == 100.0
  {
    var running := Running(jobs, t);
    var groups := Groups(running);
    var load := LoadAt(jobs, t);
    SumGroupsCovers(running, groups);
    assert SumGroups(running, groups) == load;
    SumPctOfShares(running, groups, load);
    WholeIsHundred(load);
  }

  lemma WholeIsHundred(n: nat)
    requires n > 0
    ensures n as real / n as real * 100.0 == 100.0
  {
  }

  // ---------------------------------------------------------------------
  // Decision rules and scores

  datatype Strategy = SpotInstances | Mixed | KeepOnPrem | Burst

  /** First match wins: mostly short and small jobs, else mostly short,
      else mostly long, else bursting. */
  function StrategyOf(pctShort: real, pctSmall: real, pctLong: real): Strategy
  {
    if pctShort > 80.0 && pctSmall > 80.0 then SpotInstances
    else if pctShort > 60.0 then Mixed
    else if pctLong > 50.0 then KeepOnPrem
    else Burst
  }

  function SavingsRate(s: Strategy): real
  {
    match s
    case SpotInstances => 0.80
    case Mixed => 0.60
    case KeepOnPrem => 0.10
    case Burst => 0.50
  }

  /** Which rule fires: a group with mostly long jobs keeps them on premises
      only if at most 60% of its jobs are short, and the estimated savings
      are between 10% and 80% of the on-premises cost. */
  lemma StrategyRules(pctShort: real, pctSmall: real, pctLong: real, onPrem: real)
    requires onPrem >= 0.0
    ensures StrategyOf(pctShort, pctSmall, pctLong) == SpotInstances <==> pctShort > 80.0 && pctSmall > 80.0
    ensures StrategyOf(pctShort, pctSmall, pctLong) == Mixed <==> pctShort > 60.0 && !(pctShort > 80.0 && pctSmall > 80.0)
    ensures StrategyOf(pctShort, pctSmall, pctLong) == KeepOnPrem <==> pctShort <= 60.0 && pctLong > 50.0
    ensures StrategyOf(pctShort, pctSmall, pctLong) == Burst <==> pctShort <= 60.0 && pctLong <= 50.0
    ensures onPrem * 0.10 <= onPrem * SavingsRate(StrategyOf(pctShort, pctSmall, pctLong)) <= onPrem * 0.80
  {
  }

  /** Percentage of a group's jobs that satisfy a test. */
  function Pct(count: nat, n: nat): (r: real)
    requires 0 < n && count <= n
    ensures 0.0 <= r <= 100.0
  {
    count as real / n as real * 100.0
  }

  function CountShort(runtimes: seq<real>): (c: nat)
    ensures c <= |runtimes|
  {
    if runtimes == [] then 0 else CountShort(runtimes[..|runtimes| - 1]) + (if runtimes[|runtimes| - 1] < 1.0 then 1 else 0)
  }

  function CountLong(runtimes: seq<real>): (c: nat)
    ensures c <= |runtimes|
  {
    if runtimes == [] then 0 else CountLong(runtimes[..|runtimes| - 1]) + (if runtimes[|runtimes| - 1] > 24.0 then 1 else 0)
  }

  /** A job is never both under an hour and over a day, so the short and
      long percentages add up to at most 100. */
  lemma {:induction false} ShortAndLongDisjoint(runtimes: seq<real>)
    ensures CountShort(runtimes) + CountLong(runtimes) <= |runtimes|
  {
    if runtimes != [] {
      ShortAndLongDisjoint(runtimes[..|runtimes| - 1]);
    }
  }

  datatype Trend = Growing | Declining | Stable
  datatype Action = IncreaseBurstQuota | ReallocateResources

  /** Job-count growth from the first to the last month, in percent. */
  function Growth(first: nat, last: nat): real
    requires first > 0
  {
    (last as real - first as real) / first as real * 100.0
  }

  function TrendOf(growth: real): Trend
  {
    if growth > 10.0 then Growing else if growth < -10.0 then Declining else Stable
  }

  /** An action line is printed only for growth beyond ±20%. */
  function ActionOf(growth: real): Option<Action>
  {
    if growth > 20.0 || growth < -20.0 then
      if growth > 0.0 then Some(IncreaseBurstQuota) else Some(ReallocateResources)
    else None
  }

  /** Groups with fewer than three months are not reported; the monthly
      counts come from `groupby`, so each is at least 1. */
  function GroupGrowth(monthlyJobs: seq<nat>): Option<(Trend, Option<Action>)>
    requires forall k :: 0 <= k < |monthlyJobs| ==> monthlyJobs[k] > 0
  {
    if |monthlyJobs| >= 3 then
      var g := Growth(monthlyJobs[0], monthlyJobs[|monthlyJobs| - 1]);
      Some((TrendOf(g), ActionOf(g)))
    else None
  }

  /** An action implies a trend in the same direction, and a flat month
      count is stable with no action. */
  lemma GrowthRules(monthlyJobs: seq<nat>)
    requires forall k :: 0 <= k < |monthlyJobs| ==> monthlyJobs[k] > 0
    ensures GroupGrowth(monthlyJobs).None? <==> |monthlyJobs| < 3
    ensures var r := GroupGrowth(monthlyJobs);
      && (r.Some? && r.value.1 == Some(IncreaseBurstQuota) ==> r.value.0 == Growing)
      && (r.Some? && r.value.1 == Some(ReallocateResources) ==> r.value.0 == Declining)
      && (r.Some? && monthlyJobs[0] == monthlyJobs[|monthlyJobs| - 1] ==> r.value == (Stable, None))
      && (r.Some? && monthlyJobs[|monthlyJobs| - 1] >= 2 * monthlyJobs[0] ==> r.value == (Growing, Some(IncreaseBurstQuota)))
  {
    if |monthlyJobs| >= 3 {
      var a := monthlyJobs[0];
      var b := monthlyJobs[|monthlyJobs| - 1];
      if b >= 2 * a {
        DoublingGrowth(a, b);
      }
    }
  }

  lemma DoublingGrowth(a: nat, b: nat)
    requires a > 0 && b >= 2 * a
    ensures Growth(a, b) >= 100.0
  {
    var q := (b as real - a as real) / a as real;
    assert q * a as real == b as real - a as real;
    assert q < 1.0 ==> q * a as real < a as real;
  }

  /** Per-user score out of 10 and per-group percentage, both from the mean
      CPU and memory efficiencies (fractions). */
  function EfficiencyScore(cpuEff: real, memEff: real): real
  {
    (cpuEff + memEff) / 2.0 * 10.0
  }

  function OverallEfficiency(cpuEff: real, memEff: real): real
  {
    (cpuEff + memEff) / 2.0 * 100.0
  }

  /** Both figures stay on their scales, and a group's overall efficiency
      lies between its CPU and its memory efficiency as percentages. */
  lemma EfficiencyBounds(cpuEff: real, memEff: real)
    requires 0.0 <= cpuEff <= 1.0 && 0.0 <= memEff <= 1.0
    ensures 0.0 <= EfficiencyScore(cpuEff, memEff) <= 10.0
    ensures cpuEff <= memEff ==> cpuEff * 100.0 <= OverallEfficiency(cpuEff, memEff) <= memEff * 100.0
    ensures memEff <= cpuEff ==> memEff * 100.0 <= OverallEfficiency(cpuEff, memEff) <= cpuEff * 100.0
    ensures 0.0 <= OverallEfficiency(cpuEff, memEff) <= 100.0
  {
  }
}
