/** analyze_utilization.py: the cluster inventory that `analyze_cluster`
    reconstructs from job records. Every job's nodelist is expanded, each
    node name is added to the set of nodes and its job count is bumped;
    names are grouped by their leading letters and numbered by their
    trailing digits; the CPUs per node of a type are guessed from the
    largest single-node request seen on it. */
module ClusterUtilization {
  import opened Common
  import opened Nodelist

  /** One accounting record; times are seconds since an arbitrary epoch. */
  datatype Job = Job(start: int, end: int, cpusReq: nat, nodesAlloc: nat, nodelist: Option<string>)

  /** The run time in hours, `(end_time - start_time).total_seconds() / 3600`. */
  function RunHours(j: Job): real
  {
    (j.end - j.start) as real / 3600.0
  }

  /** `(run_time >= 0) & (run_time < 100000)`, stated on whole seconds. */
  predicate Kept(j: Job)
  {
    0 <= j.end - j.start < 100000 * 3600
  }

  /** The filter on whole seconds is the filter on hours. */
  lemma KeptIsHourWindow(j: Job)
    ensures Kept(j) <==> 0.0 <= RunHours(j) < 100000.0
  {
    var secs := (j.end - j.start) as real;
    assert RunHours(j) * 3600.0 == secs;
  }

  // ---------------------------------------------------------------------
  // Per-node job counts

  /** How many times `n` appears in `names`. */
  function Occurrences(names: seq<string>, n: string): nat
  {
    if names == [] then 0
    else Occurrences(names[..|names| - 1], n) + (if names[|names| - 1] == n then 1 else 0)
  }

  /** Counting over a concatenation adds the counts of its parts. */
  lemma {:induction false} OccurrencesAppend(a: seq<string>, b: seq<string>, n: string)
    ensures Occurrences(a + b, n) == Occurrences(a, n) + Occurrences(b, n)
    decreases |b|
  {
    if b == [] {
      assert a + b == a;
    } else {
      assert (a + b)[..|a + b| - 1] == a + b[..|b| - 1];
      OccurrencesAppend(a, b[..|b| - 1], n);
    }
  }

  /** A name has a positive count exactly when it is listed. */
  lemma {:induction false} OccurrencesPositiveIffListed(names: seq<string>, n: string)
    ensures Occurrences(names, n) > 0 <==> n in names
  {
    if names != [] {
      var init := names[..|names| - 1];
      OccurrencesPositiveIffListed(init, n);
      assert names == init + [names[|names| - 1]];
    }
  }

  /** What `expand_nodelist` gives for each job's nodelist, job by job. */
  function Expansions(jobs: seq<Job>): (r: seq<Result<seq<string>>>)
    ensures |r| == |jobs|
    ensures forall i :: 0 <= i < |jobs| ==> r[i] == Expansion(jobs[i].nodelist)
  {
    seq(|jobs|, i requires 0 <= i < |jobs| => Expansion(jobs[i].nodelist))
  }

  /** The names of the expansions one after the other; the first expansion
      that raises ends the whole scan. */
  function Gather(results: seq<Result<seq<string>>>): Result<seq<string>>
  {
    if results == [] then Ok([])
    else
      match Gather(results[..|results| - 1])
      case Err(e) => Err(e)
      case Ok(names) =>
        match results[|results| - 1]
        case Err(e) => Err(e)
        case Ok(more) => Ok(names + more)
  }

  /** The names of all jobs' expansions, job after job. */
  function AllNames(jobs: seq<Job>): Result<seq<string>>
  {
    Gather(Expansions(jobs))
  }

  lemma {:induction false} GatherFailureIsFinal(results: seq<Result<seq<string>>>, i: nat)
    requires i <= |results| && Gather(results[..i]).Err?
    ensures Gather(results) == Gather(results[..i])
    decreases |results| - i
  {
    if i < |results| {
      assert results[..i + 1][..i] == results[..i];
      GatherFailureIsFinal(results, i + 1);
    } else {
      assert results[..i] == results;
    }
  }

  /** `all_nodes` and `node_job_counts` once every job has been scanned. */
  datatype Inventory = Inventory(allNodes: set<string>, counts: map<string, nat>)

  /** The scan of `analyze_cluster`: every expanded name joins the node set
      and adds one to its count, so a name listed twice by one job counts
      twice. An expansion error ends the scan. */
  method TallyNodes(jobs: seq<Job>) returns (r: Result<Inventory>)
    ensures r.Err? <==> AllNames(jobs).Err?
    ensures r.Ok? ==> forall n :: n in r.value.allNodes <==> n in AllNames(jobs).value
    ensures r.Ok? ==> r.value.counts.Keys == r.value.allNodes
    ensures r.Ok? ==> forall n :: n in r.value.counts ==> r.value.counts[n] == Occurrences(AllNames(jobs).value, n)
  {
    var allNodes: set<string> := {};
    var counts: map<string, nat> := map[];
    ghost var seen: seq<string> := [];
    ghost var results := Expansions(jobs);
    var i := 0;
    while i < |jobs|
      invariant 0 <= i <= |jobs|
      invariant Gather(results[..i]) == Ok(seen)
      invariant Tallies(seen, allNodes, counts)
    {
      var nodes := ExpandNodelist(jobs[i].nodelist);
      GatherStep(results, i);
      if nodes.Err? {
        return Err(nodes.message);
      }
      allNodes, counts := CountNodes(nodes.value, allNodes, counts, seen);
      seen := seen + nodes.value;
      i := i + 1;
    }
    assert results[..i] == results;
    r := Ok(Inventory(allNodes, counts));
  }

  /** One more expansion either extends the gathered names or ends the scan
      with its error. */
  lemma GatherStep(results: seq<Result<seq<string>>>, i: nat)
    requires i < |results| && Gather(results[..i]).Ok?
    ensures results[i].Ok? ==> Gather(results[..i + 1]) == Ok(Gather(results[..i]).value + results[i].value)
    ensures results[i].Err? ==> Gather(results) == Err(results[i].message)
  {
    assert results[..i + 1][..i] == results[..i];
    if results[i].Err? {
      GatherFailureIsFinal(results, i + 1);
    }
  }

  /** `allNodes` and `counts` are the node set and the per-node counts of the
      names in `seen`. */
  ghost predicate Tallies(seen: seq<string>, allNodes: set<string>, counts: map<string, nat>)
  {
    && counts.Keys == allNodes
    && (forall n :: n in allNodes <==> n in seen)
    && (forall n :: Occurrences(seen, n) == (if n in counts then counts[n] else 0))
  }

  /** The inner loop over one job's nodes: `all_nodes.add(node)` and
      `node_job_counts[node] += 1`, a missing count starting from zero. */
  method CountNodes(nodes: seq<string>, allNodes0: set<string>, counts0: map<string, nat>, ghost seen0: seq<string>)
    returns (allNodes: set<string>, counts: map<string, nat>)
    requires Tallies(seen0, allNodes0, counts0)
    ensures Tallies(seen0 + nodes, allNodes, counts)
  {
    allNodes, counts := allNodes0, counts0;
    ghost var seen := seen0;
    var k := 0;
    while k < |nodes|
      invariant 0 <= k <= |nodes|
      invariant seen == seen0 + nodes[..k]
      invariant Tallies(seen, allNodes, counts)
    {
      var node := nodes[k];
      assert seen0 + nodes[..k + 1] == seen + [node];
      assert (seen + [node])[..|seen|] == seen;
      allNodes := allNodes + {node};
      counts := counts[node := (if node in counts then counts[node] else 0) + 1];
      seen := seen + [node];
      k := k + 1;
    }
    assert nodes[..k] == nodes;
  }

  /** Every counted node was seen at least once, and only listed names are
      counted. */
  lemma CountsArePositive(jobs: seq<Job>, n: string)
    requires AllNames(jobs).Ok?
    ensures Occurrences(AllNames(jobs).value, n) > 0 <==> n in AllNames(jobs).value
  {
    OccurrencesPositiveIffListed(AllNames(jobs).value, n);
  }

  /** Gathering two runs of expansions one after the other lists the names
      of the first run, then those of the second. */
  lemma {:induction false} GatherAppend(a: seq<Result<seq<string>>>, b: seq<Result<seq<string>>>)
    requires Gather(a).Ok? && Gather(b).Ok?
    ensures Gather(a + b) == Ok(Gather(a).value + Gather(b).value)
    decreases |b|
  {
    if b == [] {
      assert a + b == a;
      assert Gather(a).value + [] == Gather(a).value;
    } else {
      var init := b[..|b| - 1];
      assert (a + b)[..|a + b| - 1] == a + init;
      assert (a + b)[|a + b| - 1] == b[|b| - 1];
      GatherAppend(a, init);
      var x := Gather(a).value;
      var y := Gather(init).value;
      var z := b[|b| - 1].value;
      assert x + y + z == x + (y + z);
    }
  }

  /** Scanning two batches of jobs one after the other lists the names of
      the first batch, then those of the second, so the count of a node
      over both is the sum of its counts over each. */
  lemma CountsAddAcrossJobs(a: seq<Job>, b: seq<Job>, n: string)
    requires AllNames(a).Ok? && AllNames(b).Ok?
    ensures AllNames(a + b) == Ok(AllNames(a).value + AllNames(b).value)
    ensures Occurrences(AllNames(a + b).value, n) == Occurrences(AllNames(a).value, n) + Occurrences(AllNames(b).value, n)
  {
    assert Expansions(a + b) == Expansions(a) + Expansions(b);
    GatherAppend(Expansions(a), Expansions(b));
    OccurrencesAppend(AllNames(a).value, AllNames(b).value, n);
  }

  /** One job's scan lists exactly its nodelist's expansion. */
  lemma AllNamesOfOne(j: Job)
    ensures AllNames([j]) == Expansion(j.nodelist)
  {
    var results := Expansions([j]);
    assert results == [Expansion(j.nodelist)];
    assert results[..0] == [];
    assert Gather(results[..0]) == Ok([]);
    var none: seq<string> := [];
    if results[0].Ok? {
      assert none + results[0].value == results[0].value;
    }
  }

  /** A job listing one node twice counts that node twice. */
  lemma ListedTwiceCountsTwice(j: Job, prefix: string, d: string)
    requires |prefix| > 0 && forall i :: 0 <= i < |prefix| ==> IsWordChar(prefix[i])
    requires |d| > 0 && AllDigits(d)
    requires j.nodelist == Some(prefix + "[" + d + "," + d + "]")
    ensures AllNames([j]) == Ok([prefix + d, prefix + d])
    ensures Occurrences(AllNames([j]).value, prefix + d) == 2
  {
    AllNamesOfOne(j);
    RepeatedSingle(prefix, d);
    OccurrencesOfPair(prefix + d);
  }

  lemma OccurrencesOfPair(name: string)
    ensures Occurrences([name, name], name) == 2
  {
    var one := [name];
    var none: seq<string> := [];
    assert [name, name][..1] == one;
    assert one[..0] == none;
    assert Occurrences(none, name) == 0;
    assert Occurrences(one, name) == 1;
  }

  /** `prefix[d,d]` expands to the same name twice. */
  lemma RepeatedSingle(prefix: string, d: string)
    requires |prefix| > 0 && forall i :: 0 <= i < |prefix| ==> IsWordChar(prefix[i])
    requires |d| > 0 && AllDigits(d)
    ensures Expansion(Some(prefix + "[" + d + "," + d + "]")) == Ok([prefix + d, prefix + d])
  {
    RepeatedGroup(prefix, d);
    RepeatedEntries(prefix, d);
  }

  lemma RepeatedGroup(prefix: string, d: string)
    requires |prefix| > 0 && forall i :: 0 <= i < |prefix| ==> IsWordChar(prefix[i])
    requires |d| > 0 && AllDigits(d)
    ensures Expansion(Some(prefix + "[" + d + "," + d + "]")) == ExpandEntries(prefix, [d, d])
  {
    RepeatedText(prefix, d);
    RepeatedBodyChars(d);
    GroupExpansion(prefix, d + [','] + d, "");
    NoSepInDigits(d, ',');
    SplitOnce(d, d, ',');
  }

  lemma RepeatedText(prefix: string, d: string)
    ensures prefix + "[" + d + "," + d + "]" == prefix + "[" + (d + [','] + d) + "]" + ""
  {
  }

  lemma RepeatedBodyChars(d: string)
    requires AllDigits(d)
    ensures forall i :: 0 <= i < |d + [','] + d| ==> IsRangeChar((d + [','] + d)[i])
  {
    var body := d + [','] + d;
    assert forall i :: 0 <= i < |body| ==> IsRangeChar(body[i]);
  }

  lemma RepeatedEntries(prefix: string, d: string)
    requires AllDigits(d)
    ensures ExpandEntries(prefix, [d, d]) == Ok([prefix + d, prefix + d])
  {
    NoSepInDigits(d, '-');
    TwoEntries(prefix, d, d, Single(d), Single(d));
    assert [prefix + d] + [prefix + d] == [prefix + d, prefix + d];
  }

  // ---------------------------------------------------------------------
  // Node type and node id

  /** The longest leading run of ASCII letters. */
  function LetterRun(s: string): (r: string)
    ensures |r| <= |s| && r == s[..|r|]
    ensures forall i :: 0 <= i < |r| ==> IsLetter(r[i])
    ensures |r| < |s| ==> !IsLetter(s[|r|])
  {
    if s == [] || !IsLetter(s[0]) then [] else [s[0]] + LetterRun(s[1..])
  }

  /** `re.match(r'([a-zA-Z]+)', node)`: the node type, if the name starts
      with a letter. */
  function NodeType(node: string): (t: Option<string>)
    ensures t.Some? <==> |node| > 0 && IsLetter(node[0])
    ensures t.Some? ==> t.value == LetterRun(node)
  {
    var p := LetterRun(node);
    if p == [] then None else Some(p)
  }

  /** The longest trailing run of digits. */
  function TrailingDigits(s: string): (r: string)
    ensures |r| <= |s| && r == s[|s| - |r|..]
    ensures AllDigits(r)
    ensures |r| < |s| ==> !IsDigit(s[|s| - |r| - 1])
  {
    if s == [] || !IsDigit(s[|s| - 1]) then [] else TrailingDigits(s[..|s| - 1]) + [s[|s| - 1]]
  }

  /** `re.search(r'(\d+)$', node)` read through `int()`: the node id, if the
      name ends in a digit. */
  function NodeId(node: string): (id: Option<nat>)
    ensures id.Some? <==> |node| > 0 && IsDigit(node[|node| - 1])
  {
    var d := TrailingDigits(node);
    if d == [] then None else Some(DigitsValue(d))
  }

  lemma {:induction false} LetterRunOf(p: string, rest: string)
    requires forall i :: 0 <= i < |p| ==> IsLetter(p[i])
    requires |rest| > 0 && !IsLetter(rest[0])
    ensures LetterRun(p + rest) == p
  {
    if p == [] {
      assert p + rest == rest;
    } else {
      assert (p + rest)[1..] == p[1..] + rest;
      LetterRunOf(p[1..], rest);
    }
  }

  lemma {:induction false} TrailingDigitsOf(p: string, d: string)
    requires AllDigits(d)
    requires p == [] || !IsDigit(p[|p| - 1])
    ensures TrailingDigits(p + d) == d
    decreases |d|
  {
    if d == [] {
      assert p + d == p;
    } else {
      assert (p + d)[..|p + d| - 1] == p + d[..|d| - 1];
      TrailingDigitsOf(p, d[..|d| - 1]);
    }
  }

  /** A name built as prefix plus number, the way the hostlist expansion
      builds them, gives back its prefix as type and its number as id. */
  lemma NameRoundTrip(prefix: string, n: nat)
    requires |prefix| > 0 && forall i :: 0 <= i < |prefix| ==> IsLetter(prefix[i])
    ensures NodeType(prefix + NatToString(n)) == Some(prefix)
    ensures NodeId(prefix + NatToString(n)) == Some(n)
  {
    var digits := NatToString(n);
    NatToStringRoundTrip(n);
    assert digits[0] == (prefix + digits)[|prefix|];
    LetterRunOf(prefix, digits);
    TrailingDigitsOf(prefix, digits);
  }

  /** Every name of an expanded range has the range's prefix as type and an
      id inside the range. */
  lemma RangeNamesHaveTypeAndId(prefix: string, first: nat, last: nat, k: nat)
    requires |prefix| > 0 && forall i :: 0 <= i < |prefix| ==> IsLetter(prefix[i])
    requires k < |RangeNames(prefix, first, last)|
    ensures NodeType(RangeNames(prefix, first, last)[k]) == Some(prefix)
    ensures NodeId(RangeNames(prefix, first, last)[k]).Some?
    ensures first <= NodeId(RangeNames(prefix, first, last)[k]).value <= last
  {
    NameOfRange(RangeNames(prefix, first, last)[k], prefix, first + k);
  }

  lemma NameOfRange(name: string, prefix: string, n: nat)
    requires |prefix| > 0 && forall i :: 0 <= i < |prefix| ==> IsLetter(prefix[i])
    requires name == prefix + NatToString(n)
    ensures NodeType(name) == Some(prefix) && NodeId(name) == Some(n)
  {
    NameRoundTrip(prefix, n);
  }

  /** `node_types`: each type found among the nodes, with the nodes of that
      type. Names that do not start with a letter belong to no type. */
  function NodeTypes(nodes: set<string>): (groups: map<string, set<string>>)
    ensures forall n :: n in nodes && NodeType(n).Some? ==> NodeType(n).value in groups && n in groups[NodeType(n).value]
    ensures forall t :: t in groups ==> groups[t] != {} && forall n :: n in groups[t] <==> n in nodes && NodeType(n) == Some(t)
  {
    map t | t in (set n | n in nodes && NodeType(n).Some? :: NodeType(n).value)
      :: set n | n in nodes && NodeType(n) == Some(t)
  }

  // ---------------------------------------------------------------------
  // CPUs per node

  /** A single-node job whose nodelist starts with the type name:
      `nodes_alloc == 1` and `nodelist.str.startswith(node_type)`. */
  predicate RanOnType(j: Job, nodeType: string)
  {
    j.nodesAlloc == 1 && j.nodelist.Some? && nodeType <= j.nodelist.value
  }

  /** `type_jobs['cpus_req'].max()`, absent when no single-node job ran on
      the type. */
  function MaxCpusSeen(jobs: seq<Job>, nodeType: string): (m: Option<nat>)
    ensures m.None? <==> forall j :: j in jobs ==> !RanOnType(j, nodeType)
    ensures m.Some? ==> exists j :: j in jobs && RanOnType(j, nodeType) && j.cpusReq == m.value
    ensures m.Some? ==> forall j :: j in jobs && RanOnType(j, nodeType) ==> j.cpusReq <= m.value
  {
    if jobs == [] then None
    else
      var init := jobs[..|jobs| - 1];
      var last := jobs[|jobs| - 1];
      assert jobs == init + [last];
      var rest := MaxCpusSeen(init, nodeType);
      if !RanOnType(last, nodeType) then rest
      else if rest.None? || rest.value < last.cpusReq then Some(last.cpusReq)
      else rest
  }

  /** `common_configs`, in increasing order. */
  const CommonConfigs: seq<int> := [16, 20, 24, 28, 32, 36, 40, 44, 48, 52, 64, 96, 128]

  /** The `likely_config` loop: the first common configuration that can hold
      the largest request, or the largest request itself when none can. */
  method LikelyConfig(maxCpus: int) returns (likely: int)
    ensures maxCpus <= likely
    ensures maxCpus <= 128 ==> likely in CommonConfigs
    ensures maxCpus <= 128 ==> forall c :: c in CommonConfigs && maxCpus <= c ==> likely <= c
    ensures maxCpus > 128 ==> likely == maxCpus
  {
    assert forall a, b :: 0 <= a < b < |CommonConfigs| ==> CommonConfigs[a] < CommonConfigs[b];
    likely := maxCpus;
    for i := 0 to |CommonConfigs|
      invariant forall k :: 0 <= k < i ==> CommonConfigs[k] < maxCpus
      invariant i > 0 ==> CommonConfigs[i - 1] < maxCpus
      invariant likely == maxCpus
    {
      if maxCpus <= CommonConfigs[i] {
        likely := CommonConfigs[i];
        break;
      }
    }
  }
}
