/** analyze_submission_abandonment_events.py: for every 100th submission in
    submit order, the queue the user saw, the gap since the previous sampled
    submission and the rate of sampled submissions around it; then queue
    bins and the verdict from two correlations, which are inputs. */
module AbandonmentEvents {
  import opened Common
  import QueueWait

  /** Times in seconds; a missing time (NaT) is `None` and fails every
      comparison. */
  datatype Job = Job(submit: Option<int>, start: Option<int>, cpusReq: nat)

  /** `sort_values('submit_time')`: ascending submit times, NaT last. */
  predicate SortedBySubmit(jobs: seq<Job>)
  {
    forall a, b :: 0 <= a < b < |jobs| && jobs[b].submit.Some? ==>
      jobs[a].submit.Some? && jobs[a].submit.value <= jobs[b].submit.value
  }

  // ---------------------------------------------------------------------
  // Sampling

  const SampleInterval: nat := 100

  /** `len(range(0, n, 100))`. */
  function SampleCount(n: nat): (c: nat)
    ensures c * SampleInterval >= n
    ensures c > 0 ==> (c - 1) * SampleInterval < n
  {
    (n + SampleInterval - 1) / SampleInterval
  }

  /** Jobs submitted strictly before `s` and started strictly after it. */
  function QueueAt(jobs: seq<Job>, s: Option<int>): (q: nat)
    ensures q <= |jobs|
  {
    if jobs == [] then 0
    else
      var j := jobs[|jobs| - 1];
      QueueAt(jobs[..|jobs| - 1], s)
        + (if s.Some? && j.submit.Some? && j.start.Some? && j.submit.value < s.value < j.start.value then 1 else 0)
  }

  datatype Event = Event(jobIdx: nat, submit: Option<int>, queueLength: nat, cpusReq: nat)

  function EventAt(jobs: seq<Job>, idx: nat): Event
    requires idx < |jobs|
  {
    Event(idx, jobs[idx].submit, QueueAt(jobs, jobs[idx].submit), jobs[idx].cpusReq)
  }

  function EventsOf(jobs: seq<Job>): (es: seq<Event>)
    ensures |es| == SampleCount(|jobs|)
    ensures forall k :: 0 <= k < |es| ==> es[k].jobIdx == SampleInterval * k < |jobs|
  {
    seq(SampleCount(|jobs|), k requires 0 <= k < SampleCount(|jobs|) => EventAt(jobs, SampleInterval * k))
  }

  /** The loop over `range(0, len(df), 100)`. */
  method SampleEvents(jobs: seq<Job>) returns (events: seq<Event>)
    ensures events == EventsOf(jobs)
  {
    events := [];
    var idx := 0;
    while idx < |jobs|
      invariant |events| <= SampleCount(|jobs|)
      invariant idx == SampleInterval * |events|
      invariant events == EventsOf(jobs)[..|events|]
      decreases |jobs| - idx
    {
      events := events + [EventAt(jobs, idx)];
      idx := idx + SampleInterval;
    }
  }

  /** A job never counts in its own queue: it is not submitted strictly
      before itself. */
  lemma {:induction false} QueueExcludesSelf(jobs: seq<Job>, idx: nat)
    requires idx < |jobs|
    ensures QueueAt(jobs, jobs[idx].submit) <= |jobs| - 1
  {
    var s := jobs[idx].submit;
    if idx < |jobs| - 1 {
      QueueExcludesSelfIn(jobs[..|jobs| - 1], idx, s);
    } else {
      assert QueueAt(jobs[..|jobs| - 1], s) <= |jobs| - 1;
    }
  }

  lemma {:induction false} QueueExcludesSelfIn(jobs: seq<Job>, idx: nat, s: Option<int>)
    requires idx < |jobs| && jobs[idx].submit == s
    ensures QueueAt(jobs, s) <= |jobs| - 1
  {
    if idx < |jobs| - 1 {
      QueueExcludesSelfIn(jobs[..|jobs| - 1], idx, s);
    }
  }

  // ---------------------------------------------------------------------
  // Inter-arrival gap and rolling rate

  /** `submit_time.diff()` in minutes: undefined for the first sample or
      when either time is missing. */
  function TimeSincePrev(events: seq<Event>, k: nat): Option<real>
    requires k < |events|
  {
    if k == 0 || events[k].submit.None? || events[k - 1].submit.None? then None
    else Some((events[k].submit.value - events[k - 1].submit.value) as real / 60.0)
  }

  /** Samples of jobs in submit order are in submit order, so every defined
      gap is non-negative; only the first sample has none for sure. */
  lemma TimeSincePrevNonNegative(jobs: seq<Job>, k: nat)
    requires SortedBySubmit(jobs)
    requires k < SampleCount(|jobs|)
    ensures k == 0 ==> TimeSincePrev(EventsOf(jobs), k).None?
    ensures TimeSincePrev(EventsOf(jobs), k).Some? ==> TimeSincePrev(EventsOf(jobs), k).value >= 0.0
  {
    var es := EventsOf(jobs);
    if k > 0 && es[k].submit.Some? {
      assert es[k - 1].jobIdx < es[k].jobIdx;
    }
  }

  const WindowMinutes: int := 30

  /** Sampled submissions in the closed window [t - 30 min, t + 30 min]. */
  function WindowCount(events: seq<Event>, t: int): (c: nat)
    ensures c <= |events|
  {
    if events == [] then 0
    else
      var e := events[|events| - 1];
      WindowCount(events[..|events| - 1], t)
        + (if e.submit.Some? && t - WindowMinutes * 60 <= e.submit.value <= t + WindowMinutes * 60 then 1 else 0)
  }

  /** Jobs per hour around sample `i`; the window is one hour wide. A
      missing submit time matches nothing and keeps the initial 0. */
  function RollingRate(events: seq<Event>, i: nat): real
    requires i < |events|
  {
    if events[i].submit.None? then 0.0
    else WindowCount(events, events[i].submit.value) as real / (2.0 * WindowMinutes as real / 60.0)
  }

  function RollingRates(events: seq<Event>): (rs: seq<real>)
    ensures |rs| == |events|
  {
    seq(|events|, i requires 0 <= i < |events| => RollingRate(events, i))
  }

  /** The loop filling `rolling_rate`. */
  method ComputeRollingRates(events: seq<Event>) returns (rates: seq<real>)
    ensures rates == RollingRates(events)
  {
    rates := [];
    for i := 0 to |events|
      invariant rates == RollingRates(events)[..i]
    {
      var rate := 0.0;
      var t := events[i].submit;
      if t.Some? {
        var inWindow := WindowCount(events, t.value);
        rate := inWindow as real / (2.0 * WindowMinutes as real / 60.0);
      }
      rates := rates + [rate];
    }
  }

  /** A sample lies in its own window, so its rate is at least 1 per hour
      and at most the number of samples. */
  lemma RollingRateBounds(events: seq<Event>, i: nat)
    requires i < |events| && events[i].submit.Some?
    ensures 1.0 <= RollingRate(events, i) <= |events| as real
  {
    WindowHoldsSelf(events, i);
  }

  lemma {:induction false} WindowHoldsSelf(events: seq<Event>, i: nat)
    requires i < |events| && events[i].submit.Some?
    ensures WindowCount(events, events[i].submit.value) >= 1
  {
    if i < |events| - 1 {
      var init := events[..|events| - 1];
      assert init[i] == events[i];
      WindowHoldsSelf(init, i);
    }
  }

  // ---------------------------------------------------------------------
  // Bins, work hours and the verdict

  /** Queue-length edges 0, 100, 500, 1000, 2000 (then infinity). */
  const QueueEdges: seq<real> := [0.0, 100.0, 500.0, 1000.0, 2000.0]

  const QueueLabels: seq<string> := ["0-100", "100-500", "500-1K", "1K-2K", ">2K"]

  /** Right-closed bins from (0, 100]: an empty queue gets no bin. */
  function QueueBin(q: nat): Option<nat>
  {
    QueueWait.Cut(q as real, QueueEdges)
  }

  lemma QueueBinRules(q: nat)
    ensures QueueBin(q).None? <==> q == 0
    ensures QueueBin(q).Some? ==> QueueBin(q).value < |QueueLabels|
    ensures QueueBin(q) == Some(0) <==> 1 <= q <= 100
    ensures QueueBin(q) == Some(4) <==> q > 2000
  {
    if 1 <= q <= 100 {
      QueueWait.CutUnique(q as real, QueueEdges, 0);
    }
  }

  datatype Evidence = StrongEvidence | ModerateEvidence | NoEvidence

  /** The closing verdict from the queue/rate and queue/gap correlations;
      an undefined (NaN) correlation fails every comparison. */
  function ConclusionOf(corrRate: Option<real>, corrInter: Option<real>): (e: Evidence)
    ensures e == StrongEvidence <==>
      (corrRate.Some? && corrRate.value < -0.2) || (corrInter.Some? && corrInter.value > 0.2)
    ensures e == NoEvidence <==>
      (corrRate.None? || corrRate.value >= -0.1) && (corrInter.None? || corrInter.value <= 0.1)
  {
    if (corrRate.Some? && corrRate.value < -0.2) || (corrInter.Some? && corrInter.value > 0.2) then StrongEvidence
    else if (corrRate.Some? && corrRate.value < -0.1) || (corrInter.Some? && corrInter.value > 0.1) then ModerateEvidence
    else NoEvidence
  }

  /** Strengthening either correlation never weakens the verdict. */
  lemma ConclusionMonotone(r1: real, i1: real, r2: real, i2: real)
    requires r2 <= r1 && i2 >= i1
    ensures ConclusionOf(Some(r1), Some(i1)) == StrongEvidence ==> ConclusionOf(Some(r2), Some(i2)) == StrongEvidence
    ensures ConclusionOf(Some(r2), Some(i2)) == NoEvidence ==> ConclusionOf(Some(r1), Some(i1)) == NoEvidence
  {
  }
}
