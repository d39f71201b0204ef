/** analyze_job_resource_efficiency.py: how the efficiency of CPU, memory
    and GPU requests is derived for each job from whichever accounting
    columns the export has, how waste follows from it, and the per-user,
    per-group and per-week summaries. A column the CSV lacks is absent from
    `cols`; a cell that is empty or not a number is `None`. */
module JobEfficiency {
  import opened Common

  datatype Column =
    | Cpus | MemReq | Nodes | CpusAlloc | MemUsed | MemUsedMax
    | CpuEfficiencyPct | MemEfficiencyPct | GpuReq | GpuUsed | StartTime | EndTime

  /** One CSV row after numeric coercion; times in seconds. */
  datatype Row = Row(
    user: Option<nat>, group: Option<nat>, week: Option<int>,
    cpus: Option<real>, memReq: Option<real>, nodes: Option<real>,
    cpusAlloc: Option<real>, memUsed: Option<real>, memUsedMax: Option<real>,
    cpuEfficiencyPct: Option<real>, memEfficiencyPct: Option<real>,
    gpuReq: Option<real>, gpuUsed: Option<real>,
    start: Option<int>, end: Option<int>)

  function FillNa(v: Option<real>, default: real): (r: Option<real>)
    ensures r.Some?
    ensures v.Some? ==> r == v
  {
    if v.Some? then v else Some(default)
  }

  /** `load_job_data`'s defaults: missing cells of present columns become
      1 CPU, 0 memory, 1 node and 0 GPUs; all other cells stay missing. */
  function Load(r: Row, cols: set<Column>): (l: Row)
    ensures Cpus in cols ==> l.cpus.Some? && (r.cpus.None? ==> l.cpus == Some(1.0))
    ensures MemReq in cols ==> l.memReq.Some? && (r.memReq.None? ==> l.memReq == Some(0.0))
    ensures Nodes in cols ==> l.nodes.Some? && (r.nodes.None? ==> l.nodes == Some(1.0))
    ensures GpuReq in cols ==> l.gpuReq.Some? && (r.gpuReq.None? ==> l.gpuReq == Some(0.0))
    ensures l.(cpus := r.cpus, memReq := r.memReq, nodes := r.nodes, gpuReq := r.gpuReq) == r
    ensures r.cpus.Some? ==> l.cpus == r.cpus
    ensures r.memReq.Some? ==> l.memReq == r.memReq
  {
    r.(cpus := if Cpus in cols then FillNa(r.cpus, 1.0) else r.cpus,
       memReq := if MemReq in cols then FillNa(r.memReq, 0.0) else r.memReq,
       nodes := if Nodes in cols then FillNa(r.nodes, 1.0) else r.nodes,
       gpuReq := if GpuReq in cols then FillNa(r.gpuReq, 0.0) else r.gpuReq)
  }

  predicate HasTimes(cols: set<Column>)
  {
    StartTime in cols && EndTime in cols
  }

  function RuntimeHours(r: Row, cols: set<Column>): Option<real>
  {
    if HasTimes(cols) && r.start.Some? && r.end.Some? then Some((r.end.value - r.start.value) as real / 3600.0) else None
  }

  /** With both time columns present only rows with a positive runtime are
      kept (an unparseable time fails the comparison); without them every
      row is kept. */
  predicate Kept(r: Row, cols: set<Column>)
  {
    !HasTimes(cols) || (RuntimeHours(r, cols).Some? && RuntimeHours(r, cols).value > 0.0)
  }

  /** `(num / den * 100).clip(0, 100)` with IEEE division: x / 0 is an
      infinity clipped to 0 or 100, and 0 / 0 is NaN. */
  function ClippedRatio(num: Option<real>, den: Option<real>): (e: Option<real>)
    ensures e.Some? ==> 0.0 <= e.value <= 100.0
    ensures e.None? <==> num.None? || den.None? || (den.value == 0.0 && num.value == 0.0)
    ensures num.Some? && den.Some? && den.value > 0.0 && 0.0 <= num.value <= den.value ==>
      e.Some? && e.value * den.value == num.value * 100.0
  {
    if num.None? || den.None? then None
    else if den.value == 0.0 then
      if num.value == 0.0 then None
      else if (num.value > 0.0) then Some(100.0) else Some(0.0)
    else
      var raw := num.value / den.value * 100.0;
      assert den.value > 0.0 && 0.0 <= num.value <= den.value ==> raw * den.value == num.value * 100.0 && raw <= 100.0;
      Some(Clip(raw, 0.0, 100.0))
  }

  /** CPU efficiency: the supplied percentage as it is, else allocated over
      requested CPUs, else missing. */
  function CpuEfficiency(r: Row, cols: set<Column>): Option<real>
  {
    if Cpus in cols && CpuEfficiencyPct in cols then r.cpuEfficiencyPct
    else if Cpus in cols && CpusAlloc in cols then ClippedRatio(r.cpusAlloc, r.cpus)
    else None
  }

  /** Memory efficiency: the supplied percentage, else peak use, else
      average use over the request; missing when nothing was requested. */
  function MemEfficiency(r: Row, cols: set<Column>): Option<real>
  {
    if MemEfficiencyPct in cols then r.memEfficiencyPct
    else if MemReq in cols && MemUsedMax in cols then
      if r.memReq == Some(0.0) then None else ClippedRatio(r.memUsedMax, r.memReq)
    else if MemReq in cols && MemUsed in cols then
      if r.memReq == Some(0.0) then None else ClippedRatio(r.memUsed, r.memReq)
    else None
  }

  /** GPU efficiency, missing when no GPU was requested. */
  function GpuEfficiency(r: Row, cols: set<Column>): Option<real>
  {
    if GpuReq in cols && GpuUsed in cols then
      if r.gpuReq == Some(0.0) then None else ClippedRatio(r.gpuUsed, r.gpuReq)
    else None
  }

  /** The share of a request that went unused. */
  function Waste(efficiency: Option<real>): Option<real>
  {
    match efficiency
    case Some(e) => Some(100.0 - e)
    case None => None
  }

  /** The derived columns of one kept job. */
  datatype Metrics = Metrics(
    user: Option<nat>, group: Option<nat>, week: Option<int>,
    cpuHours: Option<real>,
    cpuEfficiency: Option<real>, memEfficiency: Option<real>, gpuEfficiency: Option<real>,
    cpuWastePct: Option<real>, memWastePct: Option<real>, cpuHoursWasted: Option<real>)

  function MetricsOf(r: Row, cols: set<Column>): Metrics
  {
    var l := Load(r, cols);
    var runtime := RuntimeHours(l, cols);
    var cpuEff := CpuEfficiency(l, cols);
    var cpuHours := if runtime.Some? && Cpus in cols && l.cpus.Some? then Some(runtime.value * l.cpus.value) else None;
    var cpuWaste := if Cpus in cols then Waste(cpuEff) else None;
    Metrics(l.user, l.group, l.week, cpuHours, cpuEff, MemEfficiency(l, cols), GpuEfficiency(l, cols),
      cpuWaste, if MemReq in cols then Waste(MemEfficiency(l, cols)) else None,
      if cpuHours.Some? && cpuWaste.Some? then Some(cpuHours.value * cpuWaste.value / 100.0) else None)
  }

  /** A supplied percentage wins over every derived efficiency. */
  lemma SuppliedPercentageWins(r: Row, cols: set<Column>)
    requires Cpus in cols && CpuEfficiencyPct in cols && MemEfficiencyPct in cols
    ensures MetricsOf(r, cols).cpuEfficiency == r.cpuEfficiencyPct
    ensures MetricsOf(r, cols).memEfficiency == r.memEfficiencyPct
  {
  }

  /** Derived efficiencies lie in [0, 100], so their waste does too, and the
      wasted CPU-hours never exceed the job's CPU-hours. */
  lemma DerivedEfficiencyBounds(r: Row, cols: set<Column>)
    requires CpuEfficiencyPct !in cols && Cpus in cols && CpusAlloc in cols
    ensures var m := MetricsOf(r, cols);
      && (m.cpuEfficiency.Some? ==> 0.0 <= m.cpuEfficiency.value <= 100.0)
      && (m.cpuWastePct.Some? ==> 0.0 <= m.cpuWastePct.value <= 100.0)
      && (m.cpuHoursWasted.Some? && m.cpuHours.value >= 0.0 ==> 0.0 <= m.cpuHoursWasted.value <= m.cpuHours.value)
  {
    var m := MetricsOf(r, cols);
    if m.cpuHoursWasted.Some? && m.cpuHours.value >= 0.0 {
      WastedWithin(m.cpuHours.value, m.cpuWastePct.value);
    }
  }

  lemma WastedWithin(hours: real, waste: real)
    requires hours >= 0.0 && 0.0 <= waste <= 100.0
    ensures 0.0 <= hours * waste / 100.0 <= hours
  {
    assert hours * waste <= hours * 100.0;
  }

  /** A supplied CPU percentage is not clipped: 120% gives a waste of −20%
      and negative wasted CPU-hours. */
  lemma SuppliedPercentageCanOverflow(cols: set<Column>)
    requires Cpus in cols && CpuEfficiencyPct in cols && HasTimes(cols)
    ensures var r := Row(None, None, None, Some(4.0), None, None, None, None, None, Some(120.0), None, None, None, Some(0), Some(3600));
      && MetricsOf(r, cols).cpuWastePct == Some(-20.0)
      && MetricsOf(r, cols).cpuHoursWasted == Some(-0.8)
  {
  }

  /** Memory efficiency is derived from peak use before average use, and is
      missing whenever nothing was requested. */
  lemma MemoryPrecedence(r: Row, cols: set<Column>)
    requires MemEfficiencyPct !in cols && MemReq in cols
    ensures var m := MetricsOf(r, cols).memEfficiency;
      && (MemUsedMax in cols ==> m == (if Load(r, cols).memReq == Some(0.0) then None else ClippedRatio(r.memUsedMax, Load(r, cols).memReq)))
      && (MemUsedMax !in cols && MemUsed in cols ==> m == (if Load(r, cols).memReq == Some(0.0) then None else ClippedRatio(r.memUsed, Load(r, cols).memReq)))
      && (r.memReq == Some(0.0) || r.memReq.None? ==> m.None?)
      && (m.Some? ==> 0.0 <= m.value <= 100.0)
  {
  }

  /** GPU efficiency is missing for a job that requested no GPU, including
      one whose request was left empty. */
  lemma NoGpuNoEfficiency(r: Row, cols: set<Column>)
    requires r.gpuReq.None? || r.gpuReq == Some(0.0)
    ensures MetricsOf(r, cols).gpuEfficiency.None?
  {
  }

  /** `calculate_efficiency_metrics` over the rows `load_job_data` keeps. */
  function EfficiencyTable(rows: seq<Row>, cols: set<Column>): (t: seq<Metrics>)
    ensures |t| <= |rows|
    ensures forall k :: 0 <= k < |t| ==> exists i :: 0 <= i < |rows| && Kept(rows[i], cols) && t[k] == MetricsOf(rows[i], cols)
  {
    if rows == [] then []
    else
      var rest := EfficiencyTable(rows[..|rows| - 1], cols);
      var r := rows[|rows| - 1];
      assert forall i :: 0 <= i < |rows| - 1 ==> rows[..|rows| - 1][i] == rows[i];
      if Kept(r, cols) then rest + [MetricsOf(r, cols)] else rest
  }

  /** The rows `load_job_data` keeps, in input order. */
  function KeptRows(rows: seq<Row>, cols: set<Column>): (r: seq<Row>)
    ensures forall k :: 0 <= k < |r| ==> Kept(r[k], cols)
  {
    if rows == [] then []
    else
      var rest := KeptRows(rows[..|rows| - 1], cols);
      if Kept(rows[|rows| - 1], cols) then rest + [rows[|rows| - 1]] else rest
  }

  /** Every row with a positive runtime (every row, without the time
      columns), as often as the input holds it, and no other. */
  lemma {:induction false} KeptRowsMultiset(rows: seq<Row>, cols: set<Column>)
    ensures forall x :: multiset(KeptRows(rows, cols))[x] == if Kept(x, cols) then multiset(rows)[x] else 0
  {
    if rows != [] {
      KeptRowsMultiset(rows[..|rows| - 1], cols);
      MultisetOfLast(rows);
    }
  }

  /** The table has one metrics row per kept row, in input order, so no
      kept row is dropped. */
  lemma {:induction false} EfficiencyTableOfKept(rows: seq<Row>, cols: set<Column>)
    ensures |EfficiencyTable(rows, cols)| == |KeptRows(rows, cols)|
    ensures forall k :: 0 <= k < |EfficiencyTable(rows, cols)| ==>
      EfficiencyTable(rows, cols)[k] == MetricsOf(KeptRows(rows, cols)[k], cols)
  {
    if rows != [] {
      EfficiencyTableOfKept(rows[..|rows| - 1], cols);
    }
  }

  /** A kept row has a positive runtime whenever the time columns exist. */
  lemma KeptRowsHaveRuntime(r: Row, cols: set<Column>)
    requires Kept(r, cols) && HasTimes(cols)
    ensures RuntimeHours(Load(r, cols), cols).Some? && RuntimeHours(Load(r, cols), cols).value > 0.0
  {
  }

  // ---------------------------------------------------------------------
  // Summaries

  /** The present values of a column (`dropna()`). */
  function Present(xs: seq<Option<real>>): (r: seq<real>)
    ensures |r| <= |xs|
  {
    if xs == [] then []
    else
      var rest := Present(xs[..|xs| - 1]);
      if xs[|xs| - 1].Some? then rest + [xs[|xs| - 1].value] else rest
  }

  /** Each present value as often as the column holds it, and nothing else. */
  lemma {:induction false} PresentMultiset(xs: seq<Option<real>>)
    ensures forall x :: multiset(Present(xs))[x] == multiset(xs)[Some(x)]
  {
    if xs != [] {
      PresentMultiset(xs[..|xs| - 1]);
      MultisetOfLast(xs);
    }
  }

  /** Present values below `bound`, strictly. */
  function CountBelow(xs: seq<real>, bound: real): (c: nat)
    ensures c <= |xs|
  {
    if xs == [] then 0
    else CountBelow(xs[..|xs| - 1], bound) + (if xs[|xs| - 1] < bound then 1 else 0)
  }

  /** Exactly 50% is not low: the count is strict. */
  lemma {:induction false} CountBelowStrict(xs: seq<real>, bound: real)
    ensures (forall k :: 0 <= k < |xs| ==> xs[k] >= bound) ==> CountBelow(xs, bound) == 0
    ensures (forall k :: 0 <= k < |xs| ==> xs[k] < bound) ==> CountBelow(xs, bound) == |xs|
  {
    if xs != [] {
      CountBelowStrict(xs[..|xs| - 1], bound);
    }
  }

  function MeanOf(xs: seq<real>): Option<real>
  {
    if |xs| == 0 then None else Some(SumReal(xs) / |xs| as real)
  }

  /** The summary of one user, group or week; each table shows part of it. */
  datatype Summary = Summary(
    totalJobs: nat, totalCpuHours: real, cpuEfficiencyMean: Option<real>, memEfficiencyMean: Option<real>,
    cpuHoursWasted: real, lowCpuJobs: nat, lowMemJobs: nat)

  function CpuHoursCol(ms: seq<Metrics>): seq<Option<real>>
  {
    seq(|ms|, k requires 0 <= k < |ms| => ms[k].cpuHours)
  }

  function CpuEffCol(ms: seq<Metrics>): seq<Option<real>>
  {
    seq(|ms|, k requires 0 <= k < |ms| => ms[k].cpuEfficiency)
  }

  function MemEffCol(ms: seq<Metrics>): seq<Option<real>>
  {
    seq(|ms|, k requires 0 <= k < |ms| => ms[k].memEfficiency)
  }

  function WastedCol(ms: seq<Metrics>): seq<Option<real>>
  {
    seq(|ms|, k requires 0 <= k < |ms| => ms[k].cpuHoursWasted)
  }

  /** Sums skip missing values (pandas `sum`), means are over present
      values only, and low-efficiency jobs are those strictly below 50%. */
  function SummaryOf(ms: seq<Metrics>): (s: Summary)
    ensures s.totalJobs == |ms|
    ensures s.lowCpuJobs <= |Present(CpuEffCol(ms))| && s.lowMemJobs <= |Present(MemEffCol(ms))|
    ensures s.cpuEfficiencyMean.None? <==> |Present(CpuEffCol(ms))| == 0
    ensures s.memEfficiencyMean.None? <==> |Present(MemEffCol(ms))| == 0
  {
    var cpuEff := Present(CpuEffCol(ms));
    var memEff := Present(MemEffCol(ms));
    Summary(|ms|, SumReal(Present(CpuHoursCol(ms))), MeanOf(cpuEff), MeanOf(memEff),
      SumReal(Present(WastedCol(ms))), CountBelow(cpuEff, 50.0), CountBelow(memEff, 50.0))
  }

  /** The rows whose key (user, group or week) is `k`. */
  function WithKey(ms: seq<Metrics>, key: Metrics -> Option<int>, k: int): (r: seq<Metrics>)
    ensures |r| <= |ms|
    ensures forall i :: 0 <= i < |r| ==> key(r[i]) == Some(k) && r[i] in ms
  {
    if ms == [] then []
    else
      var rest := WithKey(ms[..|ms| - 1], key, k);
      assert forall x :: x in ms[..|ms| - 1] ==> x in ms;
      if key(ms[|ms| - 1]) == Some(k) then rest + [ms[|ms| - 1]] else rest
  }

  /** The rows with key `k`, each as often as in the input, and no other row. */
  lemma {:induction false} WithKeyMultiset(ms: seq<Metrics>, key: Metrics -> Option<int>, k: int)
    ensures forall x :: multiset(WithKey(ms, key, k))[x] == if key(x) == Some(k) then multiset(ms)[x] else 0
  {
    if ms != [] {
      WithKeyMultiset(ms[..|ms| - 1], key, k);
      MultisetOfLast(ms);
    }
  }

  /** The rows of the breakdown over the keys `unique()` lists; a missing
      key is skipped. */
  function BreakdownOf(ms: seq<Metrics>, key: Metrics -> Option<int>, keys: seq<Option<int>>): (t: seq<(int, Summary)>)
    ensures |t| <= |keys|
  {
    if keys == [] then []
    else
      var rest := BreakdownOf(ms, key, keys[..|keys| - 1]);
      match keys[|keys| - 1]
      case None => rest
      case Some(k) => rest + [(k, SummaryOf(WithKey(ms, key, k)))]
  }

  /** `analyze_per_user`, `analyze_per_group` and
      `analyze_efficiency_over_time`: one loop over the distinct keys. */
  method Breakdown(ms: seq<Metrics>, key: Metrics -> Option<int>, keys: seq<Option<int>>) returns (rows: seq<(int, Summary)>)
    ensures rows == BreakdownOf(ms, key, keys)
  {
    rows := [];
    for i := 0 to |keys|
      invariant rows == BreakdownOf(ms, key, keys[..i])
    {
      assert keys[..i + 1][..i] == keys[..i];
      if keys[i].Some? {
        var k := keys[i].value;
        var group := WithKey(ms, key, k);
        rows := rows + [(k, SummaryOf(group))];
      }
    }
    assert keys[..|keys|] == keys;
  }

  /** Every present key gets exactly the summary of its own rows. */
  lemma {:induction false} BreakdownComplete(ms: seq<Metrics>, key: Metrics -> Option<int>, keys: seq<Option<int>>, i: nat)
    requires i < |keys| && keys[i].Some?
    ensures (keys[i].value, SummaryOf(WithKey(ms, key, keys[i].value))) in BreakdownOf(ms, key, keys)
  {
    if i < |keys| - 1 {
      BreakdownComplete(ms, key, keys[..|keys| - 1], i);
    }
  }

  /** The three breakdowns of the report: by user, by group and by week. */
  function UserKey(m: Metrics): Option<int>
  {
    m.user
  }

  function GroupKey(m: Metrics): Option<int>
  {
    m.group
  }

  function WeekKey(m: Metrics): Option<int>
  {
    m.week
  }
}
