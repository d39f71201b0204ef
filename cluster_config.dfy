/** standardize_cluster_config.py: turns a node listing exported from one of
    five schedulers into rows of the common format
    `hostname,cpus,memory_mb,node_type,state,partition,extra`. The scheduler
    is read off the file name; each scheduler has its own state vocabulary
    and memory units. */
module ClusterConfig {
  import opened Common
  import opened Nodelist

  // ---------------------------------------------------------------------
  // Text helpers: `str.replace` and `float()`

  /** `s.replace(pat, repl)`: every occurrence, left to right, without
      overlaps. */
  function ReplaceAll(s: string, pat: string, repl: string): string
    requires |pat| > 0
    decreases |s|
  {
    if |s| < |pat| then s
    else if s[..|pat|] == pat then repl + ReplaceAll(s[|pat|..], pat, repl)
    else [s[0]] + ReplaceAll(s[1..], pat, repl)
  }

  /** A text that does not hold `pat` is left alone. */
  lemma {:induction false} ReplaceAllNoMatch(s: string, pat: string, repl: string)
    requires |pat| > 0 && !Contains(s, pat)
    ensures ReplaceAll(s, pat, repl) == s
    decreases |s|
  {
    if |s| >= |pat| {
      ReplaceAllNoMatch(s[1..], pat, repl);
      assert [s[0]] + s[1..] == s;
    }
  }

  /** A leading part without the first character of `pat` is copied
      unchanged, and replacing starts after it. */
  lemma {:induction false} ReplaceAllAfter(p: string, q: string, pat: string, repl: string)
    requires |pat| > 0 && pat[0] !in p
    ensures ReplaceAll(p + q, pat, repl) == p + ReplaceAll(q, pat, repl)
    decreases |p|
  {
    if p == [] {
      assert p + q == q;
    } else if |p + q| >= |pat| {
      var s := p + q;
      assert p[0] in p;
      assert s[0] == p[0] && s[1..] == p[1..] + q;
      TailAvoids(p, pat[0]);
      ReplaceAllAfter(p[1..], q, pat, repl);
      ReplaceAllCopies(s, pat, repl);
      ConsAppend(p, ReplaceAll(q, pat, repl));
    }
  }

  lemma TailAvoids(p: string, c: char)
    requires p != [] && c !in p
    ensures c !in p[1..]
  {
    forall i | 0 <= i < |p[1..]|
      ensures p[1..][i] != c
    {
      assert p[1..][i] == p[i + 1];
    }
  }

  lemma ConsAppend(p: string, r: string)
    requires p != []
    ensures [p[0]] + (p[1..] + r) == p + r
  {
    assert [p[0]] + p[1..] == p;
  }

  /** A text whose first character does not start `pat` keeps it. */
  lemma ReplaceAllCopies(s: string, pat: string, repl: string)
    requires |pat| > 0 && |s| >= |pat| && s[0] != pat[0]
    ensures ReplaceAll(s, pat, repl) == [s[0]] + ReplaceAll(s[1..], pat, repl)
  {
    assert s[..|pat|][0] == s[0];
  }

  /** A text that ends in `pat` and nowhere else starts it has exactly that
      ending replaced. */
  lemma ReplaceSuffix(p: string, pat: string, repl: string)
    requires |pat| > 0 && pat[0] !in p
    ensures ReplaceAll(p + pat, pat, repl) == p + repl
  {
    ReplaceAllAfter(p, pat, pat, repl);
    assert pat[|pat|..] == [];
    assert repl + [] == repl;
  }

  function Pow10(k: nat): (r: nat)
    ensures r > 0
  {
    if k == 0 then 1 else 10 * Pow10(k - 1)
  }

  /** Digits written after others shift the others left by their count. */
  lemma {:induction false} DigitsValueAppend(s: string, t: string)
    requires AllDigits(s) && AllDigits(t)
    ensures AllDigits(s + t)
    ensures DigitsValue(s + t) == DigitsValue(s) * Pow10(|t|) + DigitsValue(t)
    decreases |t|
  {
    if t == [] {
      assert s + t == s;
    } else {
      var init := t[..|t| - 1];
      var st := s + t;
      assert st[..|st| - 1] == s + init;
      assert st[|st| - 1] == t[|t| - 1];
      DigitsValueAppend(s, init);
      var d := t[|t| - 1] as int - '0' as int;
      assert DigitsValue(st) == DigitsValue(s + init) * 10 + d;
      assert DigitsValue(t) == DigitsValue(init) * 10 + d;
      ShiftStep(DigitsValue(s), Pow10(|init|), DigitsValue(init), d, Pow10(|t|));
    }
  }

  lemma ShiftStep(v: int, p: int, w: int, d: int, p': int)
    requires p' == p * 10
    ensures (v * p + w) * 10 + d == v * p' + (w * 10 + d)
  {
  }

  /** The number written `a.b`. */
  function DecimalValue(a: string, b: string): real
    requires AllDigits(a) && AllDigits(b)
  {
    DigitsValue(a) as real + DigitsValue(b) as real / Pow10(|b|) as real
  }

  /** An unsigned decimal numeral: digits, at most one point, and at
      least one digit. Other text is an error here; `Float` adds the
      whitespace and the sign `float()` also accepts. */
  function ParseDecimal(s: string): (r: Result<real>)
    ensures r.Ok? ==> s != [] && 0.0 <= r.value
    ensures s != [] && AllDigits(s) ==> r.Ok? && r.value == DigitsValue(s) as real
  {
    var a := BeforeFirst(s, '.');
    if |a| == |s| then
      if s != [] && AllDigits(s) then Ok(DigitsValue(s) as real) else Err("ValueError")
    else
      var b := s[|a| + 1..];
      if AllDigits(a) && AllDigits(b) && (a != [] || b != [])
      then Ok(DecimalValue(a, b))
      else Err("ValueError")
  }

  /** The ASCII characters `str.isspace()` accepts. */
  predicate IsSpace(c: char)
  {
    c == ' ' || 9 <= c as int <= 13 || 28 <= c as int <= 31
  }

  /** `s` without its leading whitespace. */
  function StripLeft(s: string): (r: string)
    ensures r != [] ==> !IsSpace(r[0])
  {
    if s != [] && IsSpace(s[0]) then StripLeft(s[1..]) else s
  }

  /** `s` without its trailing whitespace. */
  function StripRight(s: string): (r: string)
    ensures r != [] ==> !IsSpace(r[|r| - 1])
  {
    if s != [] && IsSpace(s[|s| - 1]) then StripRight(s[..|s| - 1]) else s
  }

  /** `float(s)` on the forms this model reads: surrounding whitespace
      is ignored, a leading `+` or `-` gives the sign, and the rest must be
      an unsigned decimal numeral. */
  function Float(s: string): (r: Result<real>)
    ensures s != [] && IsDigit(s[0]) && !IsSpace(s[|s| - 1]) ==> r == ParseDecimal(s)
  {
    var t := StripRight(StripLeft(s));
    if t != [] && (t[0] == '+' || t[0] == '-') then
      match ParseDecimal(t[1..])
      case Err(e) => Err(e)
      case Ok(v) => Ok(if t[0] == '-' then -v else v)
    else ParseDecimal(t)
  }

  /** Whitespace around a numeral does not change its reading. */
  lemma FloatIgnoresSpace(s: string)
    requires s != [] && IsDigit(s[0]) && IsDigit(s[|s| - 1])
    ensures Float(" " + s + " ") == ParseDecimal(s)
  {
    var p := " " + s + " ";
    assert p[1..] == s + " ";
    assert StripLeft(p) == StripLeft(s + " ") == s + " ";
    assert (s + " ")[..|s|] == s;
    assert StripRight(s + " ") == StripRight(s) == s;
  }

  /** Plain digits are read as their value. */
  lemma FloatOfDigits(d: string)
    requires AllDigits(d) && d != []
    ensures Float(d) == Ok(DigitsValue(d) as real)
  {
    assert IsDigit(d[0]) && IsDigit(d[|d| - 1]);
  }

  /** `a.b` needs no stripping. */
  lemma FloatOfDecimal(a: string, b: string)
    requires AllDigits(a) && AllDigits(b) && a != []
    ensures Float(a + "." + b) == ParseDecimal(a + "." + b)
  {
    var s := a + "." + b;
    assert s[0] == a[0] && IsDigit(s[0]);
    assert s[|s| - 1] == '.' || s[|s| - 1] == b[|b| - 1];
  }

  /** A leading minus negates the reading, and its error stays an error. */
  lemma FloatNegative(s: string)
    requires s != [] && IsDigit(s[0]) && IsDigit(s[|s| - 1])
    ensures Float("-" + s).Ok? <==> ParseDecimal(s).Ok?
    ensures ParseDecimal(s).Ok? ==> Float("-" + s).value == -ParseDecimal(s).value
  {
    var p := "-" + s;
    assert StripLeft(p) == p;
    assert p[|p| - 1] == s[|s| - 1];
    assert StripRight(p) == p;
    assert p[1..] == s;
  }

  lemma DigitsHaveNoPoint(a: string)
    requires AllDigits(a)
    ensures '.' !in a && 'G' !in a && 'M' !in a && 'K' !in a
    ensures 'g' !in a && 'm' !in a && 'k' !in a
  {
  }

  /** `float("a.b")` is the whole part plus the fraction. */
  lemma ParseFraction(a: string, b: string)
    requires AllDigits(a) && AllDigits(b) && a != []
    ensures ParseDecimal(a + "." + b).Ok? && ParseDecimal(a + "." + b).value == DecimalValue(a, b)
  {
    var s := a + "." + b;
    assert BeforeFirst(s, '.') == a by {
      DigitsHaveNoPoint(a);
      assert s == a + ("." + b);
      BeforeFirstOfPrefix(a, "." + b, '.');
    }
    assert s[|a| + 1..] == b;
  }

  /** Zeros written after a fraction do not change its value. */
  lemma TrailingZeros(b: string, k: nat)
    requires AllDigits(b)
    ensures AllDigits(b + seq(k, _ => '0'))
    ensures DigitsValue(b + seq(k, _ => '0')) as real / Pow10(|b| + k) as real == DigitsValue(b) as real / Pow10(|b|) as real
  {
    var z: string := seq(k, _ => '0');
    ZerosValue(k);
    DigitsValueAppend(b, z);
    PowSplit(|b|, k);
    var v := DigitsValue(b);
    var pk := Pow10(k);
    var pb := Pow10(|b|);
    assert DigitsValue(b + z) == v * pk;
    assert Pow10(|b| + k) == pb * pk;
    CancelNat(v, pb, pk);
  }

  lemma CancelNat(v: nat, p: nat, k: nat)
    requires p > 0 && k > 0
    ensures (v * k) as real / (p * k) as real == v as real / p as real
  {
    MulAsReal(v, k);
    MulAsReal(p, k);
    CancelFactor(v as real, p as real, k as real);
  }

  lemma MulAsReal(x: nat, y: nat)
    ensures (x * y) as real == x as real * y as real
  {
  }

  lemma {:induction false} PowSplit(m: nat, k: nat)
    ensures Pow10(m + k) == Pow10(m) * Pow10(k)
    decreases m
  {
    if m > 0 {
      PowSplit(m - 1, k);
    }
  }

  lemma CancelFactor(v: real, p: real, k: real)
    requires p > 0.0 && k > 0.0
    ensures (v * k) / (p * k) == v / p
  {
    assert (v / p) * (p * k) == v * k;
  }

  // ---------------------------------------------------------------------
  // The scheduler and the output name

  datatype Scheduler = Slurm | Uge | Pbs | Lsf | HtCondor

  /** The first scheduler whose name appears in the lower-cased file name:
      slurm, then uge or sge, then pbs, then lsf, then condor or htcondor.
      None is the "Cannot detect scheduler" exit. */
  function DetectScheduler(fileName: string): Option<Scheduler>
  {
    var l := ToLower(fileName);
    if Contains(l, "slurm") then Some(Slurm)
    else if Contains(l, "uge") || Contains(l, "sge") then Some(Uge)
    else if Contains(l, "pbs") then Some(Pbs)
    else if Contains(l, "lsf") then Some(Lsf)
    else if Contains(l, "condor") || Contains(l, "htcondor") then Some(HtCondor)
    else None
  }

  /** Detection ignores case. */
  lemma DetectionIgnoresCase(fileName: string)
    ensures DetectScheduler(ToLower(fileName)) == DetectScheduler(fileName)
  {
    ToLowerIdempotent(fileName);
  }

  /** The `htcondor` test never decides anything: every name holding
      `htcondor` holds `condor`. */
  lemma HtCondorHoldsCondor(l: string)
    requires Contains(l, "htcondor")
    ensures Contains(l, "condor")
  {
    var i := ContainsWitness(l, "htcondor");
    assert l[i + 2..i + 8] == l[i..i + 8][2..];
    ContainsAt(l, "condor", i + 2);
  }

  /** HTCondor is detected exactly when no earlier name matches and the
      name holds `condor`. */
  lemma DetectHtCondor(fileName: string)
    ensures DetectScheduler(fileName) == Some(HtCondor) <==>
      (&& !Contains(ToLower(fileName), "slurm") && !Contains(ToLower(fileName), "uge") && !Contains(ToLower(fileName), "sge")
       && !Contains(ToLower(fileName), "pbs") && !Contains(ToLower(fileName), "lsf") && Contains(ToLower(fileName), "condor"))
  {
    var l := ToLower(fileName);
    if Contains(l, "htcondor") {
      HtCondorHoldsCondor(l);
    }
  }

  /** A name mentioning slurm is read as SLURM whatever else it says. */
  lemma SlurmNameWins(p: string, q: string)
    ensures DetectScheduler(p + "slurm" + q) == Some(Slurm)
  {
    var s := p + "slurm" + q;
    var l := ToLower(s);
    assert l[|p|..|p| + 5] == "slurm";
    ContainsAt(l, "slurm", |p|);
  }

  /** `input_file.replace('.csv', '_standardized.csv')`, unless a second
      argument names the output. */
  function OutputName(inputFile: string, given: Option<string>): string
  {
    match given
    case Some(name) => name
    case None => ReplaceAll(inputFile, ".csv", "_standardized.csv")
  }

  /** `nodes.csv` becomes `nodes_standardized.csv`; a name without `.csv` is
      kept as it is, so the output is written over the input. */
  lemma OutputNameFacts(p: string, inputFile: string)
    requires '.' !in p
    ensures OutputName(p + ".csv", None) == p + "_standardized.csv"
    ensures !Contains(inputFile, ".csv") ==> OutputName(inputFile, None) == inputFile
  {
    ReplaceSuffix(p, ".csv", "_standardized.csv");
    if !Contains(inputFile, ".csv") {
      ReplaceAllNoMatch(inputFile, ".csv", "_standardized.csv");
    }
  }

  // ---------------------------------------------------------------------
  // The common row format

  datatype StdRow = StdRow(hostname: string, cpus: int, memoryMb: real, nodeType: string, state: string, partition: string, extra: string)

  /** A memory cell: pandas gives a number for a numeric column and a string
      for a text one (`isinstance(mem, str)`). */
  datatype MemField = Number(x: real) | Text(t: string)

  // ---------------------------------------------------------------------
  // SLURM

  /** A `sinfo` row; `gres` is absent when the cell is empty, and `state`
      is the text `str()` gives for the cell. */
  datatype SlurmRow = SlurmRow(nodeName: string, cpus: int, memory: real, gres: Option<string>, partition: string, state: string)

  /** `str(state).split('+')[0].split('*')[0]`, lower-cased. */
  function SlurmState(state: string): (r: string)
    ensures '+' !in r && '*' !in r
  {
    ToLower(BeforeFirst(BeforeFirst(state, '+'), '*'))
  }

  lemma BeforeFirstWithout(s: string, sep: char)
    requires sep !in s
    ensures BeforeFirst(s, sep) == s
  {
  }

  /** Cleaning a cleaned state changes nothing. */
  lemma SlurmStateIdempotent(state: string)
    ensures SlurmState(SlurmState(state)) == SlurmState(state)
  {
    var r := SlurmState(state);
    BeforeFirstWithout(r, '+');
    BeforeFirstWithout(r, '*');
    ToLowerIdempotent(BeforeFirst(BeforeFirst(state, '+'), '*'));
  }

  /** Flags after `+` are dropped. */
  lemma SlurmStateDropsFlags(base: string, flags: string)
    requires '+' !in base && '*' !in base
    ensures SlurmState(base + "+" + flags) == ToLower(base)
  {
    assert base + "+" + flags == base + ("+" + flags);
    BeforeFirstOfPrefix(base, "+" + flags, '+');
    BeforeFirstWithout(base, '*');
  }

  /** The `*` marker is dropped. */
  lemma SlurmStateDropsStar(base: string)
    requires '+' !in base && '*' !in base
    ensures SlurmState(base + "*") == ToLower(base)
  {
    assert '+' !in base + "*";
    BeforeFirstWithout(base + "*", '+');
    BeforeFirstOfPrefix(base, "*", '*');
  }

  /** `MIXED+DRAIN` is `mixed`, `IDLE*` is `idle`. */
  lemma SlurmStateExamples()
    ensures SlurmState("MIXED+DRAIN") == "mixed"
    ensures SlurmState("IDLE*") == "idle"
  {
    SlurmMixedDrain();
    SlurmIdleStar();
  }

  lemma SlurmMixedDrain()
    ensures SlurmState("MIXED+DRAIN") == "mixed"
  {
    SlurmStateDropsFlags("MIXED", "DRAIN");
    assert "MIXED" + "+" + "DRAIN" == "MIXED+DRAIN";
    assert ToLower("MIXED") == "mixed";
  }

  lemma SlurmIdleStar()
    ensures SlurmState("IDLE*") == "idle"
  {
    SlurmStateDropsStar("IDLE");
    assert "IDLE" + "*" == "IDLE*";
    assert ToLower("IDLE") == "idle";
  }

  /** One SLURM row in the common format: `gpu` exactly when the GRES text
      mentions a GPU. */
  function SlurmStd(row: SlurmRow): (r: StdRow)
    ensures r.nodeType == "gpu" <==> MentionsGpu(row.gres)
    ensures r.nodeType == "gpu" || r.nodeType == "compute"
    ensures r.hostname == row.nodeName && r.cpus == row.cpus && r.memoryMb == row.memory
    ensures r.state == SlurmState(row.state) && r.partition == row.partition
  {
    StdRow(row.nodeName, row.cpus, row.memory,
      if MentionsGpu(row.gres) then "gpu" else "compute",
      SlurmState(row.state), row.partition,
      match row.gres case Some(g) => g case None => "")
  }

  /** The SLURM loop: one standard row per input row, in order. */
  method StandardizeSlurm(rows: seq<SlurmRow>) returns (out: seq<StdRow>)
    ensures |out| == |rows|
    ensures forall i :: 0 <= i < |rows| ==> out[i] == SlurmStd(rows[i])
  {
    out := [];
    for i := 0 to |rows|
      invariant |out| == i
      invariant forall k :: 0 <= k < i ==> out[k] == SlurmStd(rows[k])
    {
      out := out + [SlurmStd(rows[i])];
    }
  }

  // ---------------------------------------------------------------------
  // UGE

  /** A `qhost` row; `slots` is absent when the export has no such
      column. */
  datatype UgeRow = UgeRow(hostname: string, numProc: int, memTotal: MemField, slots: Option<int>)

  /** The text `float()` is given: `G` becomes `000`, `M` and `K` are
      dropped, wherever they stand. */
  function UgeMemoryText(t: string): string
  {
    ReplaceAll(ReplaceAll(ReplaceAll(t, "G", "000"), "M", ""), "K", "")
  }

  /** `mem_total` as written: a number is kept, a text is rewritten as above
      and read by `float()`, an empty text is 0. */
  function UgeMemoryAsWritten(m: MemField): Result<real>
  {
    match m
    case Number(x) => Ok(x)
    case Text(t) =>
      var c := UgeMemoryText(t);
      if c == [] then Ok(0.0) else Float(c)
  }

  /** `128G` and `128000M` both give 128000. */
  lemma UgeWholeUnitsAsWritten(n: nat)
    ensures UgeMemoryAsWritten(Text(NatToString(n) + "G")).Ok? && UgeMemoryAsWritten(Text(NatToString(n) + "G")).value == (n * 1000) as real
    ensures UgeMemoryAsWritten(Text(NatToString(n) + "M")).Ok? && UgeMemoryAsWritten(Text(NatToString(n) + "M")).value == n as real
  {
    UgeWholeGigabytes(n);
    UgeWholeMegabytes(n);
  }

  lemma UgeWholeGigabytes(n: nat)
    ensures UgeMemoryAsWritten(Text(NatToString(n) + "G")).Ok? && UgeMemoryAsWritten(Text(NatToString(n) + "G")).value == (n * 1000) as real
  {
    var d := NatToString(n);
    NatToStringRoundTrip(n);
    UgeGigaText(d);
    ThousandsValue(d);
    assert d + "000" != [];
    FloatOfDigits(d + "000");
  }

  /** `G` after digits becomes `000`, and nothing else changes. */
  lemma UgeGigaText(d: string)
    requires AllDigits(d)
    ensures UgeMemoryText(d + "G") == d + "000"
  {
    var z: string := "000";
    DigitsHaveNoPoint(d);
    ReplaceSuffix(d, "G", "000");
    NotContainsMissingChar(d + z, "M", 'M');
    ReplaceAllNoMatch(d + z, "M", "");
    NotContainsMissingChar(d + z, "K", 'K');
    ReplaceAllNoMatch(d + z, "K", "");
  }

  /** Three zeros after digits multiply their value by 1000. */
  lemma ThousandsValue(d: string)
    requires AllDigits(d)
    ensures AllDigits(d + "000") && DigitsValue(d + "000") == DigitsValue(d) * 1000
  {
    var z: string := "000";
    assert z == seq(3, _ => '0');
    ZerosValue(3);
    DigitsValueAppend(d, z);
    assert Pow10(3) == 1000;
  }

  lemma UgeWholeMegabytes(n: nat)
    ensures UgeMemoryAsWritten(Text(NatToString(n) + "M")).Ok? && UgeMemoryAsWritten(Text(NatToString(n) + "M")).value == n as real
  {
    var d := NatToString(n);
    NatToStringRoundTrip(n);
    UgeMegaText(d);
    FloatOfDigits(d);
  }

  /** `M` after digits is dropped, and nothing else changes. */
  lemma UgeMegaText(d: string)
    requires AllDigits(d)
    ensures UgeMemoryText(d + "M") == d
  {
    DigitsHaveNoPoint(d);
    NotContainsMissingChar(d + "M", "G", 'G');
    ReplaceAllNoMatch(d + "M", "G", "000");
    ReplaceSuffix(d, "M", "");
    assert d + "" == d;
    NotContainsMissingChar(d, "K", 'K');
    ReplaceAllNoMatch(d, "K", "");
  }

  /** As written, a gigabyte figure with a decimal point comes out in
      gigabytes, not megabytes: the three zeros land after the point. */
  lemma UgeDecimalGigabytesAsWritten(a: string, b: string)
    requires AllDigits(a) && AllDigits(b) && a != []
    ensures UgeMemoryAsWritten(Text(a + "." + b + "G")).Ok? && UgeMemoryAsWritten(Text(a + "." + b + "G")).value == DecimalValue(a, b)
  {
    var z: string := "000";
    var bz := b + z;
    var c := a + "." + bz;
    assert UgeMemoryText(a + "." + b + "G") == c by {
      DigitsHaveNoPoint(a);
      DigitsHaveNoPoint(b);
      var p := a + "." + b;
      assert 'G' !in p;
      ReplaceSuffix(p, "G", "000");
      assert p + z == c;
      assert 'M' !in c && 'K' !in c;
      NotContainsMissingChar(c, "M", 'M');
      ReplaceAllNoMatch(c, "M", "");
      NotContainsMissingChar(c, "K", 'K');
      ReplaceAllNoMatch(c, "K", "");
    }
    assert AllDigits(bz) && DecimalValue(a, bz) == DecimalValue(a, b) by {
      assert z == seq(3, _ => '0');
      TrailingZeros(b, 3);
    }
    ParseFraction(a, bz);
    FloatOfDecimal(a, bz);
  }

  lemma DecimalValue128()
    ensures AllDigits("128") && AllDigits("0")
    ensures DecimalValue("128", "0") == 128.0
  {
    var a := "128";
    assert a[..2] == "12" && a[..2][..1] == "1" && a[..2][..1][..0] == "";
    assert DigitsValue("0") == 0;
    assert DigitsValue("1") == 1;
    assert DigitsValue("12") == 12;
    assert DigitsValue(a) == 128;
  }

  /** `qhost` prints `128.0G`, which is read as 128 MB. */
  lemma UgeFindingExample()
    ensures UgeMemoryAsWritten(Text("128.0G")) == Ok(128.0)
    ensures UgeMemory(Text("128.0G")) == Ok(128000.0)
  {
    DecimalValue128();
    assert "128" + "." + "0" + "G" == "128.0G";
    assert UgeMemoryAsWritten(Text("128.0G")) == Ok(128.0) by {
      UgeDecimalGigabytesAsWritten("128", "0");
    }
    assert UgeMemory(Text("128.0G")) == Ok(128000.0) by {
      UgeMemoryUnits("128", "0");
    }
  }

  /** `x` scaled by `f`, an error passed through. */
  function Scale(r: Result<real>, f: real): Result<real>
  {
    match r
    case Ok(x) => Ok(x * f)
    case Err(e) => Err(e)
  }

  /** `mem_total` read by its unit suffix, in megabytes: `G` thousands,
      `M` as is, `K` thousandths, no suffix as is. */
  function UgeMemory(m: MemField): Result<real>
  {
    match m
    case Number(x) => Ok(x)
    case Text(t) =>
      if t == [] then Ok(0.0)
      else
        var unit := t[|t| - 1];
        var num := t[..|t| - 1];
        if unit == 'G' then Scale(Float(num), 1000.0)
        else if unit == 'M' then Float(num)
        else if unit == 'K' then Scale(Float(num), 0.001)
        else Float(t)
  }

  /** Every decimal figure is scaled by its unit, and on whole figures the
      reading agrees with the code as written. */
  lemma UgeMemoryUnits(a: string, b: string)
    requires AllDigits(a) && AllDigits(b) && a != []
    ensures UgeMemory(Text(a + "." + b + "G")).Ok? && UgeMemory(Text(a + "." + b + "G")).value == (DecimalValue(a, b)) * 1000.0
    ensures UgeMemory(Text(a + "." + b + "M")).Ok? && UgeMemory(Text(a + "." + b + "M")).value == DecimalValue(a, b)
  {
    var p := a + "." + b;
    assert (p + "G")[..|p + "G"| - 1] == p;
    assert (p + "M")[..|p + "M"| - 1] == p;
    ParseFraction(a, b);
    FloatOfDecimal(a, b);
  }

  lemma UgeMemoryAgreesOnWholeUnits(n: nat)
    ensures UgeMemory(Text(NatToString(n) + "G")) == UgeMemoryAsWritten(Text(NatToString(n) + "G")) == Ok((n * 1000) as real)
    ensures UgeMemory(Text(NatToString(n) + "M")) == UgeMemoryAsWritten(Text(NatToString(n) + "M")) == Ok(n as real)
  {
    UgeAgreesOnGigabytes(n);
    UgeAgreesOnMegabytes(n);
  }

  lemma UgeAgreesOnGigabytes(n: nat)
    ensures UgeMemory(Text(NatToString(n) + "G")) == UgeMemoryAsWritten(Text(NatToString(n) + "G")) == Ok((n * 1000) as real)
  {
    var d := NatToString(n);
    NatToStringRoundTrip(n);
    UgeWholeGigabytes(n);
    UgeGigabytes(d);
    assert DigitsValue(d) as real * 1000.0 == (n * 1000) as real;
  }

  lemma UgeGigabytes(d: string)
    requires AllDigits(d) && d != []
    ensures UgeMemory(Text(d + "G")) == Ok(DigitsValue(d) as real * 1000.0)
  {
    FloatOfDigits(d);
    var t := d + "G";
    assert t[|t| - 1] == 'G' && t[..|t| - 1] == d;
  }

  lemma UgeAgreesOnMegabytes(n: nat)
    ensures UgeMemory(Text(NatToString(n) + "M")) == UgeMemoryAsWritten(Text(NatToString(n) + "M")) == Ok(n as real)
  {
    var d := NatToString(n);
    NatToStringRoundTrip(n);
    UgeWholeMegabytes(n);
    FloatOfDigits(d);
    assert (d + "M")[..|d + "M"| - 1] == d;
  }

  /** One UGE row: `slots` if the column exists, else `num_proc`; every host
      is an available compute node. */
  function UgeStd(row: UgeRow): (r: Result<StdRow>)
    ensures r.Ok? <==> UgeMemory(row.memTotal).Ok?
    ensures r.Ok? ==> r.value.memoryMb == UgeMemory(row.memTotal).value
    ensures r.Ok? ==> r.value.cpus == (if row.slots.Some? then row.slots.value else row.numProc)
    ensures r.Ok? ==> r.value.nodeType == "compute" && r.value.state == "available"
    ensures r.Ok? ==> r.value.hostname == row.hostname
  {
    match UgeMemory(row.memTotal)
    case Err(e) => Err(e)
    case Ok(mem) =>
      Ok(StdRow(row.hostname, match row.slots case Some(s) => s case None => row.numProc, mem, "compute", "available", "", ""))
  }

  /** A loop whose rows may raise: the first error ends it, otherwise one
      row per input row. */
  ghost predicate MapsOrFails<R>(rows: seq<R>, f: R -> Result<StdRow>, r: Result<seq<StdRow>>)
  {
    && (r.Ok? <==> forall i :: 0 <= i < |rows| ==> f(rows[i]).Ok?)
    && (r.Ok? ==> |r.value| == |rows| && forall i :: 0 <= i < |rows| ==> r.value[i] == f(rows[i]).value)
    && (r.Err? ==> exists i :: 0 <= i < |rows| && f(rows[i]) == Err(r.message) && forall k :: 0 <= k < i ==> f(rows[k]).Ok?)
  }

  /** The loop shared by the UGE and PBS scripts: convert row by row and
      let the first error escape. */
  method StandardizeRows<R>(rows: seq<R>, f: R -> Result<StdRow>) returns (r: Result<seq<StdRow>>)
    ensures MapsOrFails(rows, f, r)
  {
    var out: seq<StdRow> := [];
    for i := 0 to |rows|
      invariant |out| == i
      invariant forall k :: 0 <= k < i ==> f(rows[k]).Ok? && out[k] == f(rows[k]).value
    {
      var one := f(rows[i]);
      if one.Err? {
        assert forall k :: 0 <= k < i ==> f(rows[k]).Ok?;
        return Err(one.message);
      }
      out := out + [one.value];
    }
    r := Ok(out);
  }

  /** The UGE loop. */
  method StandardizeUge(rows: seq<UgeRow>) returns (r: Result<seq<StdRow>>)
    ensures MapsOrFails(rows, UgeStd, r)
  {
    r := StandardizeRows(rows, UgeStd);
  }

  // ---------------------------------------------------------------------
  // PBS

  datatype PbsRow = PbsRow(hostname: string, cpus: int, memory: MemField, state: string)

  /** `memory`: lower-cased, then `gb` times 1024, else `mb` as is, else
      `kb` over 1024, else 0, the unit text removed before `float()`. */
  function PbsMemory(m: MemField): Result<real>
  {
    match m
    case Number(x) => Ok(x)
    case Text(t) =>
      var l := ToLower(t);
      if Contains(l, "gb") then Scale(Float(ReplaceAll(l, "gb", "")), 1024.0)
      else if Contains(l, "mb") then Float(ReplaceAll(l, "mb", ""))
      else if Contains(l, "kb") then Scale(Float(ReplaceAll(l, "kb", "")), 1.0 / 1024.0)
      else Ok(0.0)
  }

  /** Units are read in any case; a whole figure is scaled by its unit; a
      text with no unit is 0. */
  lemma PbsMemoryUnits(t: string, d: string)
    requires AllDigits(d) && d != []
    ensures PbsMemory(Text(ToLower(t))) == PbsMemory(Text(t))
    ensures PbsMemory(Text(d + "gb")).Ok? && PbsMemory(Text(d + "gb")).value == DigitsValue(d) as real * 1024.0
    ensures PbsMemory(Text(d + "mb")).Ok? && PbsMemory(Text(d + "mb")).value == DigitsValue(d) as real
    ensures PbsMemory(Text(d + "kb")).Ok? && PbsMemory(Text(d + "kb")).value == DigitsValue(d) as real / 1024.0
    ensures !Contains(ToLower(t), "gb") && !Contains(ToLower(t), "mb") && !Contains(ToLower(t), "kb") ==> PbsMemory(Text(t)).Ok? && PbsMemory(Text(t)).value == 0.0
  {
    ToLowerIdempotent(t);
    PbsGigabytes(d);
    PbsMegabytes(d);
    PbsKilobytes(d);
  }

  lemma PbsGigabytes(d: string)
    requires AllDigits(d) && d != []
    ensures PbsMemory(Text(d + "gb")).Ok? && PbsMemory(Text(d + "gb")).value == DigitsValue(d) as real * 1024.0
  {
    var t := d + "gb";
    assert ToLower(t) == t && Contains(t, "gb") && ReplaceAll(t, "gb", "") == d by {
      PbsUnit(d, "gb");
    }
    FloatOfDigits(d);
  }

  lemma PbsMegabytes(d: string)
    requires AllDigits(d) && d != []
    ensures PbsMemory(Text(d + "mb")).Ok? && PbsMemory(Text(d + "mb")).value == DigitsValue(d) as real
  {
    var t := d + "mb";
    assert ToLower(t) == t && Contains(t, "mb") && ReplaceAll(t, "mb", "") == d by {
      PbsUnit(d, "mb");
    }
    FloatOfDigits(d);
    assert !Contains(t, "gb") by {
      NotContainsMissingChar(t, "gb", 'g');
    }
  }

  lemma PbsKilobytes(d: string)
    requires AllDigits(d) && d != []
    ensures PbsMemory(Text(d + "kb")).Ok? && PbsMemory(Text(d + "kb")).value == DigitsValue(d) as real / 1024.0
  {
    PbsKilobyteText(d);
    FloatOfDigits(d);
    assert PbsMemory(Text(d + "kb")) == Scale(Float(d), 1.0 / 1024.0);
    var v := DigitsValue(d) as real;
    assert v * (1.0 / 1024.0) == v / 1024.0;
  }

  lemma PbsKilobyteText(d: string)
    requires AllDigits(d) && d != []
    ensures ToLower(d + "kb") == d + "kb" && Contains(d + "kb", "kb") && ReplaceAll(d + "kb", "kb", "") == d
    ensures !Contains(d + "kb", "gb") && !Contains(d + "kb", "mb")
  {
    var t := d + "kb";
    PbsUnit(d, "kb");
    NotContainsMissingChar(t, "gb", 'g');
    NotContainsMissingChar(t, "mb", 'm');
  }

  lemma PbsUnit(d: string, unit: string)
    requires AllDigits(d) && d != [] && |unit| == 2 && 'a' <= unit[0] <= 'z' && 'a' <= unit[1] <= 'z'
    ensures ToLower(d + unit) == d + unit
    ensures Contains(d + unit, unit)
    ensures ReplaceAll(d + unit, unit, "") == d
  {
    var t := d + unit;
    assert ToLower(t) == t by {
      forall c | c in t ensures !('A' <= c <= 'Z') {
        var i :| 0 <= i < |t| && t[i] == c;
        if i >= |d| {
          assert c == unit[i - |d|];
        }
      }
      ToLowerNoUpper(t);
    }
    assert Contains(t, unit) by {
      assert t[|d|..|d| + |unit|] == unit;
      ContainsAt(t, unit, |d|);
    }
    assert ReplaceAll(t, unit, "") == d by {
      assert unit[0] !in d;
      ReplaceSuffix(d, unit, "");
      assert d + "" == d;
    }
  }

  /** `free` is idle, else `job` allocated, else `offline` or `down` down,
      else the lower-cased state itself. */
  function PbsState(state: string): string
  {
    var l := ToLower(state);
    if Contains(l, "free") then "idle"
    else if Contains(l, "job") then "allocated"
    else if Contains(l, "offline") || Contains(l, "down") then "down"
    else l
  }

  /** Mapping a mapped state changes nothing: the three words it produces
      hold none of the keywords that come before their own. */
  lemma PbsStateIdempotent(state: string)
    ensures PbsState(PbsState(state)) == PbsState(state)
    ensures PbsState(state) in {"idle", "allocated", "down"} || PbsState(state) == ToLower(state)
  {
    var r := PbsState(state);
    if r == "idle" || r == "allocated" || r == "down" {
      PbsWordIsFixed(r);
    } else {
      ToLowerIdempotent(state);
    }
  }

  /** A word of lower-case letters is its own lower case. */
  lemma LowerWord(x: string)
    requires forall i :: 0 <= i < |x| ==> 'a' <= x[i] <= 'z'
    ensures ToLower(x) == x
  {
    ToLowerNoUpper(x);
  }

  /** Each word the PBS mapping produces maps to itself. */
  lemma PbsWordIsFixed(x: string)
    requires x == "idle" || x == "allocated" || x == "down"
    ensures PbsState(x) == x
  {
    LowerWord(x);
    if x == "down" {
      PbsKeywordsDown(x);
    } else {
      PbsKeywordsAbsent(x);
    }
  }

  /** Neither "idle" nor "allocated" holds a keyword the PBS mapping looks for. */
  lemma PbsKeywordsAbsent(x: string)
    requires x == "idle" || x == "allocated"
    ensures !Contains(x, "free") && !Contains(x, "job") && !Contains(x, "offline") && !Contains(x, "down")
  {
    assert !Contains(x, "free") by { NotContainsMissingChar(x, "free", 'f'); }
    assert !Contains(x, "job") by { NotContainsMissingChar(x, "job", 'j'); }
    assert !Contains(x, "offline") by { NotContainsMissingChar(x, "offline", 'f'); }
    assert !Contains(x, "down") by { NotContainsMissingChar(x, "down", 'w'); }
  }

  lemma PbsKeywordsDown(x: string)
    requires x == "down"
    ensures !Contains(x, "free") && !Contains(x, "job") && Contains(x, "down")
  {
    assert !Contains(x, "free") by { NotContainsMissingChar(x, "free", 'f'); }
    assert !Contains(x, "job") by { NotContainsMissingChar(x, "job", 'j'); }
    assert Contains(x, "down") by { ContainsAt(x, "down", 0); }
  }

  /** One PBS row: compute node, no partition, the state mapped. */
  function PbsStd(row: PbsRow): (r: Result<StdRow>)
    ensures r.Ok? <==> PbsMemory(row.memory).Ok?
    ensures r.Ok? ==> r.value.memoryMb == PbsMemory(row.memory).value && r.value.state == PbsState(row.state)
    ensures r.Ok? ==> r.value.hostname == row.hostname && r.value.cpus == row.cpus && r.value.nodeType == "compute"
  {
    match PbsMemory(row.memory)
    case Err(e) => Err(e)
    case Ok(mem) => Ok(StdRow(row.hostname, row.cpus, mem, "compute", PbsState(row.state), "", ""))
  }

  /** The PBS loop. */
  method StandardizePbs(rows: seq<PbsRow>) returns (r: Result<seq<StdRow>>)
    ensures MapsOrFails(rows, PbsStd, r)
  {
    r := StandardizeRows(rows, PbsStd);
  }

  // ---------------------------------------------------------------------
  // LSF

  datatype LsfRow = LsfRow(hostname: string, status: string, cpus: int, maxJobs: string)

  /** `ok` is available, else `closed` closed, else `unavail` down, else the
      lower-cased status itself. */
  function LsfState(status: string): string
  {
    var l := ToLower(status);
    if Contains(l, "ok") then "available"
    else if Contains(l, "closed") then "closed"
    else if Contains(l, "unavail") then "down"
    else l
  }

  lemma LsfStateIdempotent(status: string)
    ensures LsfState(LsfState(status)) == LsfState(status)
    ensures LsfState(status) in {"available", "closed", "down"} || LsfState(status) == ToLower(status)
  {
    var r := LsfState(status);
    if r == "available" || r == "closed" || r == "down" {
      LsfWordIsFixed(r);
    } else {
      ToLowerIdempotent(status);
    }
  }

  /** Each word the LSF mapping produces maps to itself. */
  lemma LsfWordIsFixed(x: string)
    requires x == "available" || x == "closed" || x == "down"
    ensures LsfState(x) == x
  {
    LowerWord(x);
    if x == "closed" {
      LsfKeywordsClosed(x);
    } else {
      LsfKeywordsAbsent(x);
    }
  }

  /** Neither "available" nor "down" holds a keyword the LSF mapping looks for. */
  lemma LsfKeywordsAbsent(x: string)
    requires x == "available" || x == "down"
    ensures !Contains(x, "ok") && !Contains(x, "closed") && !Contains(x, "unavail")
  {
    assert !Contains(x, "ok") by { NotContainsMissingChar(x, "ok", 'k'); }
    assert !Contains(x, "closed") by { NotContainsMissingChar(x, "closed", 'c'); }
    assert !Contains(x, "unavail") by { NotContainsMissingChar(x, "unavail", 'u'); }
  }

  lemma LsfKeywordsClosed(x: string)
    requires x == "closed"
    ensures !Contains(x, "ok") && Contains(x, "closed")
  {
    assert !Contains(x, "ok") by { NotContainsMissingChar(x, "ok", 'k'); }
    assert Contains(x, "closed") by { ContainsAt(x, "closed", 0); }
  }

  /** One LSF row: no memory figure, `max_jobs=` in the extra column. */
  function LsfStd(row: LsfRow): (r: StdRow)
    ensures r.memoryMb == 0.0 && r.state == LsfState(row.status) && r.nodeType == "compute"
    ensures r.extra == "max_jobs=" + row.maxJobs && r.hostname == row.hostname && r.cpus == row.cpus
  {
    StdRow(row.hostname, row.cpus, 0.0, "compute", LsfState(row.status), "", "max_jobs=" + row.maxJobs)
  }

  /** The LSF loop. */
  method StandardizeLsf(rows: seq<LsfRow>) returns (out: seq<StdRow>)
    ensures |out| == |rows|
    ensures forall i :: 0 <= i < |rows| ==> out[i] == LsfStd(rows[i])
  {
    out := [];
    for i := 0 to |rows|
      invariant |out| == i
      invariant forall k :: 0 <= k < i ==> out[k] == LsfStd(rows[k])
    {
      out := out + [LsfStd(rows[i])];
    }
  }

  // ---------------------------------------------------------------------
  // HTCondor: one row per machine, the first slot seen wins

  datatype CondorRow = CondorRow(machine: string, cpus: int, memory: real, totalSlots: string, state: string)

  function CondorStd(row: CondorRow): (r: StdRow)
    ensures r.hostname == row.machine && r.cpus == row.cpus && r.memoryMb == row.memory
    ensures r.state == ToLower(row.state) && r.extra == "slots=" + row.totalSlots
  {
    StdRow(row.machine, row.cpus, row.memory, "compute", ToLower(row.state), "", "slots=" + row.totalSlots)
  }

  /** The machines of some rows, in order. */
  function Machines(rows: seq<CondorRow>): (ms: seq<string>)
    ensures |ms| == |rows| && forall i :: 0 <= i < |rows| ==> ms[i] == rows[i].machine
  {
    seq(|rows|, i requires 0 <= i < |rows| => rows[i].machine)
  }

  /** The rows whose machine has not been seen before, in order. */
  function FirstPerMachine(rows: seq<CondorRow>): seq<CondorRow>
  {
    if rows == [] then []
    else
      var init := rows[..|rows| - 1];
      var last := rows[|rows| - 1];
      if last.machine in Machines(init) then FirstPerMachine(init) else FirstPerMachine(init) + [last]
  }

  /** The kept rows name every machine once, and exactly the machines of the
      input. */
  lemma {:induction false} FirstPerMachineFacts(rows: seq<CondorRow>)
    ensures forall i, j :: 0 <= i < j < |FirstPerMachine(rows)| ==> FirstPerMachine(rows)[i].machine != FirstPerMachine(rows)[j].machine
    ensures forall m :: m in Machines(FirstPerMachine(rows)) <==> m in Machines(rows)
    ensures forall r :: r in FirstPerMachine(rows) ==> r in rows
  {
    if rows != [] {
      var init := rows[..|rows| - 1];
      var last := rows[|rows| - 1];
      FirstPerMachineFacts(init);
      assert rows == init + [last];
      assert Machines(rows) == Machines(init) + [last.machine];
      if last.machine !in Machines(init) {
        var f := FirstPerMachine(init);
        assert Machines(f + [last]) == Machines(f) + [last.machine];
      }
    }
  }

  /** A row whose machine no earlier row names is kept. */
  lemma {:induction false} FirstRowIsKept(rows: seq<CondorRow>, i: nat)
    requires i < |rows| && forall k :: 0 <= k < i ==> rows[k].machine != rows[i].machine
    ensures rows[i] in FirstPerMachine(rows)
    decreases |rows|
  {
    var init := rows[..|rows| - 1];
    if i < |rows| - 1 {
      FirstRowIsKept(init, i);
    } else {
      assert rows[i].machine !in Machines(init);
    }
  }

  lemma MachinesAppend(f: seq<CondorRow>, r: CondorRow)
    ensures Machines(f + [r]) == Machines(f) + [r.machine]
  {
  }

  /** One more row either repeats a machine already kept or is kept. */
  lemma FirstPerMachineStep(rows: seq<CondorRow>, i: nat)
    requires i < |rows|
    ensures FirstPerMachine(rows[..i + 1]) ==
      if rows[i].machine in Machines(rows[..i]) then FirstPerMachine(rows[..i]) else FirstPerMachine(rows[..i]) + [rows[i]]
  {
    assert rows[..i + 1][..i] == rows[..i];
  }

  /** What the HTCondor loop knows after `i` rows: `kept` is the rows kept
      so far, `order` their machines (the dictionary's insertion order), and
      the dictionary holds exactly those machines, each with its first row. */
  ghost predicate KeepState(rows: seq<CondorRow>, i: nat, kept: seq<CondorRow>, order: seq<string>, machines: map<string, StdRow>)
  {
    && i <= |rows|
    && kept == FirstPerMachine(rows[..i])
    && order == Machines(kept)
    && (forall m :: m in machines <==> m in order)
    && (forall k :: 0 <= k < |order| ==> machines[order[k]] == CondorStd(kept[k]))
    && (forall m :: m in order <==> m in Machines(rows[..i]))
  }

  /** A row whose machine is already in the dictionary changes nothing. */
  lemma KeepStateSeen(rows: seq<CondorRow>, i: nat, kept: seq<CondorRow>, order: seq<string>, machines: map<string, StdRow>)
    requires i < |rows| && KeepState(rows, i, kept, order, machines)
    requires rows[i].machine in machines
    ensures KeepState(rows, i + 1, kept, order, machines)
  {
    var row := rows[i];
    assert row.machine in Machines(rows[..i]);
    assert kept == FirstPerMachine(rows[..i + 1]) by {
      FirstPerMachineStep(rows, i);
    }
    assert Machines(rows[..i + 1]) == Machines(rows[..i]) + [row.machine] by {
      assert rows[..i + 1] == rows[..i] + [row];
      MachinesAppend(rows[..i], row);
    }
    forall m
      ensures m in order <==> m in Machines(rows[..i + 1])
    {
    }
  }

  /** A row with a new machine is added at the end of the insertion order. */
  lemma KeepStateNew(rows: seq<CondorRow>, i: nat, kept: seq<CondorRow>, order: seq<string>, machines: map<string, StdRow>)
    requires i < |rows| && KeepState(rows, i, kept, order, machines)
    requires rows[i].machine !in machines
    ensures KeepState(rows, i + 1, kept + [rows[i]], order + [rows[i].machine], machines[rows[i].machine := CondorStd(rows[i])])
  {
    var row := rows[i];
    var order' := order + [row.machine];
    var machines' := machines[row.machine := CondorStd(row)];
    var kept' := kept + [row];
    assert row.machine !in Machines(rows[..i]);
    assert kept' == FirstPerMachine(rows[..i + 1]) by {
      FirstPerMachineStep(rows, i);
    }
    assert order' == Machines(kept') by {
      MachinesAppend(kept, row);
    }
    assert Machines(rows[..i + 1]) == Machines(rows[..i]) + [row.machine] by {
      assert rows[..i + 1] == rows[..i] + [row];
      MachinesAppend(rows[..i], row);
    }
    forall m
      ensures m in machines' <==> m in order'
      ensures m in order' <==> m in Machines(rows[..i + 1])
    {
    }
    forall k | 0 <= k < |order'|
      ensures machines'[order'[k]] == CondorStd(kept'[k])
    {
      if k < |order| {
        assert order[k] in order;
      }
    }
  }

  /** The HTCondor branch: a dictionary keyed by machine, filled first row
      wins, then read back in insertion order. */
  method KeepFirstPerMachine(rows: seq<CondorRow>) returns (out: seq<StdRow>)
    ensures |out| == |FirstPerMachine(rows)|
    ensures forall k :: 0 <= k < |out| ==> out[k] == CondorStd(FirstPerMachine(rows)[k])
  {
    var machines: map<string, StdRow> := map[];
    var order: seq<string> := [];
    ghost var kept: seq<CondorRow> := [];
    for i := 0 to |rows|
      invariant KeepState(rows, i, kept, order, machines)
    {
      var row := rows[i];
      if row.machine in machines {
        KeepStateSeen(rows, i, kept, order, machines);
      } else {
        KeepStateNew(rows, i, kept, order, machines);
        machines := machines[row.machine := CondorStd(row)];
        order := order + [row.machine];
        kept := kept + [row];
      }
    }
    assert rows[..|rows|] == rows;
    out := Values(machines, order);
  }

  /** `list(machines.values())`: the entries in insertion order. */
  method Values(machines: map<string, StdRow>, order: seq<string>) returns (out: seq<StdRow>)
    requires forall m :: m in order ==> m in machines
    ensures |out| == |order|
    ensures forall j :: 0 <= j < |order| ==> out[j] == machines[order[j]]
  {
    out := [];
    for k := 0 to |order|
      invariant |out| == k
      invariant forall j :: 0 <= j < k ==> out[j] == machines[order[j]]
    {
      out := out + [machines[order[k]]];
    }
  }
}
