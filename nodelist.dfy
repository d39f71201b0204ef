/** SLURM hostlist expansion, `expand_nodelist`, which three scripts carry
    as identical copies: analyze_utilization.py, analyze_split_utilization.py
    and analyze_packing.py. A hostlist is a word-character prefix followed by
    one bracket group of comma-separated entries, each a single number or a
    range `a-b`. */
module Nodelist {
  import opened Common

  /** Python's `s.split(sep)`: always at least one piece. */
  function Split(s: string, sep: char): (r: seq<string>)
    ensures |r| >= 1
    ensures forall k :: 0 <= k < |r| ==> sep !in r[k]
    decreases |s|
  {
    var head := BeforeFirst(s, sep);
    if |head| == |s| then [s] else [head] + Split(s[|head| + 1..], sep)
  }

  /** `sep.join(parts)`. */
  function Join(parts: seq<string>, sep: char): string
    requires |parts| >= 1
  {
    if |parts| == 1 then parts[0] else parts[0] + [sep] + Join(parts[1..], sep)
  }

  /** Splitting loses nothing: joining the pieces gives the text back. */
  lemma {:induction false} SplitJoin(s: string, sep: char)
    ensures Join(Split(s, sep), sep) == s
    decreases |s|
  {
    var head := BeforeFirst(s, sep);
    if |head| < |s| {
      SplitJoin(s[|head| + 1..], sep);
      assert s == head + [sep] + s[|head| + 1..];
    }
  }

  /** Text without the separator splits into itself alone. */
  lemma SplitWithoutSep(s: string, sep: char)
    requires sep !in s
    ensures Split(s, sep) == [s]
  {
    assert forall i :: 0 <= i < |s| ==> s[i] != sep;
  }

  /** Splitting peels off the text before the first separator. */
  lemma SplitCons(a: string, b: string, sep: char)
    requires sep !in a
    ensures Split(a + [sep] + b, sep) == [a] + Split(b, sep)
  {
    var s := a + [sep] + b;
    BeforeFirstOfPrefix(a, [sep] + b, sep);
    assert s == a + ([sep] + b);
    assert s[|a| + 1..] == b;
  }

  /** The one-separator case: `(a + sep + b).split(sep) == [a, b]`. */
  lemma SplitOnce(a: string, b: string, sep: char)
    requires sep !in a && sep !in b
    ensures Split(a + [sep] + b, sep) == [a, b]
  {
    SplitCons(a, b, sep);
    SplitWithoutSep(b, sep);
  }

  lemma {:induction false} BeforeFirstOfPrefix(a: string, rest: string, sep: char)
    requires sep !in a && |rest| > 0 && rest[0] == sep
    ensures BeforeFirst(a + rest, sep) == a
  {
    if a != [] {
      assert (a + rest)[1..] == a[1..] + rest;
      assert a[0] in a;
      BeforeFirstOfPrefix(a[1..], rest, sep);
    } else {
      assert a + rest == rest;
    }
  }

  // ---------------------------------------------------------------------
  // The pattern (\w+)\[([\d,\-]+)\] matched at the start of the text

  predicate IsRangeChar(c: char)
  {
    IsDigit(c) || c == ',' || c == '-'
  }

  /** The longest leading run of `\w` characters. */
  function WordRun(s: string): (r: string)
    ensures |r| <= |s| && r == s[..|r|]
    ensures forall i :: 0 <= i < |r| ==> IsWordChar(r[i])
    ensures |r| < |s| ==> !IsWordChar(s[|r|])
  {
    if s == [] || !IsWordChar(s[0]) then [] else [s[0]] + WordRun(s[1..])
  }

  /** The longest leading run of `[\d,\-]` characters. */
  function RangeRun(s: string): (r: string)
    ensures |r| <= |s| && r == s[..|r|]
    ensures forall i :: 0 <= i < |r| ==> IsRangeChar(r[i])
    ensures |r| < |s| ==> !IsRangeChar(s[|r|])
  {
    if s == [] || !IsRangeChar(s[0]) then [] else [s[0]] + RangeRun(s[1..])
  }

  /** `re.match(range_pattern, s)`: the prefix group and the bracket body.
      Both runs are greedy and the character after each cannot extend it,
      so backtracking never finds another match. */
  function MatchRange(s: string): (m: Option<(string, string)>)
    ensures m.Some? ==> |m.value.0| > 0 && |m.value.1| > 0
    ensures m.Some? ==> forall c :: c in m.value.1 ==> IsRangeChar(c)
  {
    var prefix := WordRun(s);
    var rest := s[|prefix|..];
    if |prefix| == 0 || |rest| == 0 || rest[0] != '[' then None
    else
      var body := RangeRun(rest[1..]);
      if |body| == 0 || |rest| <= 1 + |body| || rest[1 + |body|] != ']' then None
      else Some((prefix, body))
  }

  /** One comma-separated entry of the bracket body. */
  datatype Entry = Single(text: string) | Span(first: nat, last: nat)

  const ValueError: string := "ValueError"

  /** `'-' in part` chooses a range, whose two bounds go through `int()`;
      an empty bound or a second dash is the ValueError that ends the script.
      An entry without a dash is kept as text. */
  function ParseEntry(part: string): Result<Entry>
  {
    if '-' !in part then Ok(Single(part))
    else
      var bounds := Split(part, '-');
      if |bounds| != 2 || bounds[0] == [] || bounds[1] == [] || !AllDigits(bounds[0]) || !AllDigits(bounds[1]) then Err(ValueError)
      else Ok(Span(DigitsValue(bounds[0]), DigitsValue(bounds[1])))
  }

  /** `[f"{prefix}{i}" for i in range(first, last + 1)]`. */
  function RangeNames(prefix: string, first: nat, last: nat): (r: seq<string>)
    ensures |r| == if first <= last then last - first + 1 else 0
    ensures forall k :: 0 <= k < |r| ==> r[k] == prefix + NatToString(first + k)
  {
    if first > last then []
    else seq(last - first + 1, k requires 0 <= k < last - first + 1 => prefix + NatToString(first + k))
  }

  function EntryNames(prefix: string, e: Entry): seq<string>
  {
    match e
    case Single(text) => [prefix + text]
    case Span(first, last) => RangeNames(prefix, first, last)
  }

  /** The names produced by the entries, in entry order; the first failing
      entry makes the whole expansion fail. */
  function ExpandEntries(prefix: string, parts: seq<string>): Result<seq<string>>
  {
    if parts == [] then Ok([])
    else
      match ExpandEntries(prefix, parts[..|parts| - 1])
      case Err(e) => Err(e)
      case Ok(names) =>
        match ParseEntry(parts[|parts| - 1])
        case Err(e) => Err(e)
        case Ok(entry) => Ok(names + EntryNames(prefix, entry))
  }

  /** What `expand_nodelist` returns for a nodelist cell. */
  function Expansion(x: Option<string>): Result<seq<string>>
  {
    if x.None? || x.value == [] then Ok([])
    else
      match MatchRange(x.value)
      case None => Ok([x.value])
      case Some((prefix, body)) => ExpandEntries(prefix, Split(body, ','))
  }

  /** One more entry appends its names to what the earlier entries gave. */
  lemma ExpandEntriesSnoc(prefix: string, parts: seq<string>, part: string, names: seq<string>, e: Entry)
    requires ExpandEntries(prefix, parts) == Ok(names) && ParseEntry(part) == Ok(e)
    ensures ExpandEntries(prefix, parts + [part]) == Ok(names + EntryNames(prefix, e))
  {
    assert (parts + [part])[..|parts|] == parts;
  }

  /** Once an entry fails, no later entry can rescue the expansion. */
  lemma {:induction false} FailureIsFinal(prefix: string, parts: seq<string>, i: nat)
    requires i <= |parts| && ExpandEntries(prefix, parts[..i]).Err?
    ensures ExpandEntries(prefix, parts) == ExpandEntries(prefix, parts[..i])
    decreases |parts| - i
  {
    if i < |parts| {
      assert parts[..i + 1][..i] == parts[..i];
      FailureIsFinal(prefix, parts, i + 1);
    } else {
      assert parts[..i] == parts;
    }
  }

  /** `expand_nodelist`: the entry loop with its inner range loop. */
  method ExpandNodelist(x: Option<string>) returns (r: Result<seq<string>>)
    ensures r == Expansion(x)
    ensures (x.None? || x.value == []) ==> r == Ok([])
    ensures x.Some? && x.value != [] && MatchRange(x.value).None? ==> r == Ok([x.value])
  {
    if x.None? || x.value == [] {
      return Ok([]);
    }
    var m := MatchRange(x.value);
    if m.None? {
      return Ok([x.value]);
    }
    var (prefix, body) := m.value;
    r := ExpandGroup(prefix, Split(body, ','));
  }

  /** The loop over the entries of the bracket group. */
  method ExpandGroup(prefix: string, parts: seq<string>) returns (r: Result<seq<string>>)
    ensures r == ExpandEntries(prefix, parts)
  {
    var nodes: seq<string> := [];
    var i := 0;
    while i < |parts|
      invariant 0 <= i <= |parts|
      invariant ExpandEntries(prefix, parts[..i]) == Ok(nodes)
    {
      var entry := ParseEntry(parts[i]);
      assert parts[..i + 1] == parts[..i] + [parts[i]];
      if entry.Err? {
        assert ExpandEntries(prefix, parts[..i + 1]) == Err(entry.message);
        FailureIsFinal(prefix, parts, i + 1);
        return Err(entry.message);
      }
      var names;
      if entry.value.Single? {
        names := [prefix + entry.value.text];
      } else {
        names := ExpandRange(prefix, entry.value.first, entry.value.last);
      }
      ExpandEntriesSnoc(prefix, parts[..i], parts[i], nodes, entry.value);
      nodes := nodes + names;
      i := i + 1;
    }
    assert parts[..i] == parts;
    r := Ok(nodes);
  }

  /** The list comprehension over `range(first, last + 1)`, written as a loop. */
  method ExpandRange(prefix: string, first: nat, last: nat) returns (names: seq<string>)
    ensures names == RangeNames(prefix, first, last)
  {
    names := [];
    var n := first;
    while n <= last
      invariant first <= n && (n <= last + 1 || n == first)
      invariant |names| == n - first
      invariant forall k :: 0 <= k < |names| ==> names[k] == prefix + NatToString(first + k)
      decreases last - n
    {
      names := names + [prefix + NatToString(n)];
      n := n + 1;
    }
  }

  // ---------------------------------------------------------------------
  // What the expansion promises

  /** A name with no bracket group is a one-node list holding the name itself. */
  lemma PlainNameIsSingleton(s: string)
    requires s != [] && '[' !in s
    ensures Expansion(Some(s)) == Ok([s])
  {
    var prefix := WordRun(s);
    if |prefix| < |s| {
      assert s[|prefix|..][0] == s[|prefix|];
      assert s[|prefix|] in s;
    }
  }

  lemma {:induction false} WordRunOf(p: string, rest: string)
    requires forall i :: 0 <= i < |p| ==> IsWordChar(p[i])
    requires |rest| > 0 && !IsWordChar(rest[0])
    ensures WordRun(p + rest) == p
  {
    if p == [] {
      assert p + rest == rest;
    } else {
      assert (p + rest)[1..] == p[1..] + rest;
      WordRunOf(p[1..], rest);
    }
  }

  lemma {:induction false} RangeRunOf(b: string, rest: string)
    requires forall i :: 0 <= i < |b| ==> IsRangeChar(b[i])
    requires |rest| > 0 && !IsRangeChar(rest[0])
    ensures RangeRun(b + rest) == b
  {
    if b == [] {
      assert b + rest == rest;
    } else {
      assert (b + rest)[1..] == b[1..] + rest;
      RangeRunOf(b[1..], rest);
    }
  }

  /** The pattern picks the prefix and the body out of `prefix[body]tail`,
      whatever the tail holds. */
  lemma MatchBracketGroup(prefix: string, body: string, tail: string)
    requires |prefix| > 0 && forall i :: 0 <= i < |prefix| ==> IsWordChar(prefix[i])
    requires |body| > 0 && forall i :: 0 <= i < |body| ==> IsRangeChar(body[i])
    ensures MatchRange(prefix + "[" + body + "]" + tail) == Some((prefix, body))
  {
    var s := prefix + "[" + body + "]" + tail;
    assert s == prefix + ("[" + body + "]" + tail);
    WordRunOf(prefix, "[" + body + "]" + tail);
    var rest := s[|prefix|..];
    assert rest == "[" + body + "]" + tail;
    assert rest[1..] == body + ("]" + tail);
    RangeRunOf(body, "]" + tail);
  }

  /** A range entry expands to every number from its first to its last bound,
      in increasing order and written without leading zeros; only the first
      bracket group is read, whatever follows it. */
  lemma RangeGroupExpansion(prefix: string, a: string, b: string, tail: string)
    requires |prefix| > 0 && forall i :: 0 <= i < |prefix| ==> IsWordChar(prefix[i])
    requires |a| > 0 && AllDigits(a) && |b| > 0 && AllDigits(b)
    ensures Expansion(Some(prefix + "[" + a + "-" + b + "]" + tail)) == Ok(RangeNames(prefix, DigitsValue(a), DigitsValue(b)))
  {
    var body := a + "-" + b;
    assert prefix + "[" + a + "-" + b + "]" + tail == prefix + "[" + body + "]" + tail;
    ParseRangeEntry(a, b);
    RangeBodyChars(a, b);
    OneEntryGroup(prefix, body, tail, Span(DigitsValue(a), DigitsValue(b)));
  }

  /** `a-b` with two digit strings is all range characters and holds no
      comma. */
  lemma RangeBodyChars(a: string, b: string)
    requires AllDigits(a) && AllDigits(b)
    ensures forall i :: 0 <= i < |a + "-" + b| ==> IsRangeChar((a + "-" + b)[i])
    ensures ',' !in a + "-" + b
  {
    NoSepInDigits(a, ',');
    NoSepInDigits(b, ',');
  }

  /** A single entry is appended as written, leading zeros included, and only
      the first bracket group is read. */
  lemma SingleGroupExpansion(prefix: string, d: string, tail: string)
    requires |prefix| > 0 && forall i :: 0 <= i < |prefix| ==> IsWordChar(prefix[i])
    requires |d| > 0 && AllDigits(d)
    ensures Expansion(Some(prefix + "[" + d + "]" + tail)) == Ok([prefix + d])
  {
    NoSepInDigits(d, '-');
    NoSepInDigits(d, ',');
    OneEntryGroup(prefix, d, tail, Single(d));
  }

  /** A bracket group holding one entry expands to that entry's names. */
  lemma OneEntryGroup(prefix: string, body: string, tail: string, e: Entry)
    requires |prefix| > 0 && forall i :: 0 <= i < |prefix| ==> IsWordChar(prefix[i])
    requires |body| > 0 && forall i :: 0 <= i < |body| ==> IsRangeChar(body[i])
    requires ',' !in body && ParseEntry(body) == Ok(e)
    ensures Expansion(Some(prefix + "[" + body + "]" + tail)) == Ok(EntryNames(prefix, e))
  {
    GroupExpansion(prefix, body, tail);
    SplitWithoutSep(body, ',');
    OneEntry(prefix, body, e);
  }

  /** A bracket group expands entry by entry, its body split at commas. */
  lemma GroupExpansion(prefix: string, body: string, tail: string)
    requires |prefix| > 0 && forall i :: 0 <= i < |prefix| ==> IsWordChar(prefix[i])
    requires |body| > 0 && forall i :: 0 <= i < |body| ==> IsRangeChar(body[i])
    ensures Expansion(Some(prefix + "[" + body + "]" + tail)) == ExpandEntries(prefix, Split(body, ','))
  {
    var s := prefix + "[" + body + "]" + tail;
    assert |s| > 0;
    MatchBracketGroup(prefix, body, tail);
  }

  lemma OneEntry(prefix: string, p: string, e: Entry)
    requires ParseEntry(p) == Ok(e)
    ensures ExpandEntries(prefix, [p]) == Ok(EntryNames(prefix, e))
  {
    var none: seq<string> := [];
    ExpandEntriesSnoc(prefix, none, p, none, e);
    assert none + [p] == [p];
    assert none + EntryNames(prefix, e) == EntryNames(prefix, e);
  }

  /** `a-b` with two digit strings parses to the range of their values. */
  lemma ParseRangeEntry(a: string, b: string)
    requires |a| > 0 && AllDigits(a) && |b| > 0 && AllDigits(b)
    ensures ParseEntry(a + "-" + b) == Ok(Span(DigitsValue(a), DigitsValue(b)))
  {
    NoSepInDigits(a, '-');
    NoSepInDigits(b, '-');
    SplitOnce(a, b, '-');
    assert a + "-" + b == a + ['-'] + b;
    assert (a + "-" + b)[|a|] == '-';
  }

  lemma NoSepInDigits(s: string, sep: char)
    requires AllDigits(s) && !IsDigit(sep)
    ensures sep !in s
  {
  }

  /** The example in the docstring. */
  lemma DocumentedExample()
    ensures Expansion(Some("node[1935-1937,1939-1940,1950]"))
         == Ok(["node1935", "node1936", "node1937", "node1939", "node1940", "node1950"])
  {
    ExampleExpansion();
    ExampleNames();
  }

  lemma ExampleExpansion()
    ensures Expansion(Some("node[1935-1937,1939-1940,1950]"))
         == Ok(RangeNames("node", 1935, 1937) + RangeNames("node", 1939, 1940) + ["node" + "1950"])
  {
    ExampleNumbers();
    TwoRangesAndSingle("node", "1935", "1937", "1939", "1940", "1950");
    ExampleText();
  }

  lemma ExampleNumbers()
    ensures AllDigits("1935") && DigitsValue("1935") == 1935
    ensures AllDigits("1937") && DigitsValue("1937") == 1937
    ensures AllDigits("1939") && DigitsValue("1939") == 1939
    ensures AllDigits("1940") && DigitsValue("1940") == 1940
    ensures AllDigits("1950") && DigitsValue("1950") == 1950
  {
    FourDigits('1', '9', '3', '5');
    FourDigits('1', '9', '3', '7');
    FourDigits('1', '9', '3', '9');
    FourDigits('1', '9', '4', '0');
    FourDigits('1', '9', '5', '0');
  }

  /** The value of a four-digit string, digit by digit. */
  lemma FourDigits(a: char, b: char, c: char, d: char)
    requires IsDigit(a) && IsDigit(b) && IsDigit(c) && IsDigit(d)
    ensures AllDigits([a, b, c, d])
    ensures DigitsValue([a, b, c, d])
         == (a as int - '0' as int) * 1000 + (b as int - '0' as int) * 100 + (c as int - '0' as int) * 10 + (d as int - '0' as int)
  {
    var s := [a, b, c, d];
    assert [a][..0] == [];
    assert DigitsValue([a]) == a as int - '0' as int;
    assert [a, b][..1] == [a];
    assert DigitsValue([a, b]) == DigitsValue([a]) * 10 + (b as int - '0' as int);
    assert [a, b, c][..2] == [a, b];
    assert DigitsValue([a, b, c]) == DigitsValue([a, b]) * 10 + (c as int - '0' as int);
    assert s[..3] == [a, b, c];
  }

  lemma ExampleText()
    ensures "node" + "[" + "1935" + "-" + "1937" + "," + "1939" + "-" + "1940" + "," + "1950" + "]"
         == "node[1935-1937,1939-1940,1950]"
  {
  }

  lemma ExampleNames()
    ensures RangeNames("node", 1935, 1937) + RangeNames("node", 1939, 1940) + ["node" + "1950"]
         == ["node1935", "node1936", "node1937", "node1939", "node1940", "node1950"]
  {
    ExampleFirstNames();
    ExampleSecondNames();
    assert "node" + "1950" == "node1950";
  }

  /** The docstring's shape: two ranges then a single entry. The entries
      expand in the order written and their names are concatenated. */
  lemma TwoRangesAndSingle(prefix: string, a1: string, b1: string, a2: string, b2: string, d: string)
    requires |prefix| > 0 && forall i :: 0 <= i < |prefix| ==> IsWordChar(prefix[i])
    requires |a1| > 0 && AllDigits(a1) && |b1| > 0 && AllDigits(b1)
    requires |a2| > 0 && AllDigits(a2) && |b2| > 0 && AllDigits(b2)
    requires |d| > 0 && AllDigits(d)
    ensures Expansion(Some(prefix + "[" + a1 + "-" + b1 + "," + a2 + "-" + b2 + "," + d + "]"))
         == Ok(RangeNames(prefix, DigitsValue(a1), DigitsValue(b1))
               + RangeNames(prefix, DigitsValue(a2), DigitsValue(b2)) + [prefix + d])
  {
    var r1 := a1 + "-" + b1;
    var r2 := a2 + "-" + b2;
    RegroupText(prefix, a1, b1, a2, b2, d);
    RangeEntryChars(a1, b1);
    RangeEntryChars(a2, b2);
    ParseRangeEntry(a1, b1);
    ParseRangeEntry(a2, b2);
    NoSepInDigits(d, '-');
    NoSepInDigits(d, ',');
    ThreeEntryGroup(prefix, r1, r2, d, Span(DigitsValue(a1), DigitsValue(b1)), Span(DigitsValue(a2), DigitsValue(b2)), Single(d));
  }

  lemma RegroupText(prefix: string, a1: string, b1: string, a2: string, b2: string, d: string)
    ensures prefix + "[" + a1 + "-" + b1 + "," + a2 + "-" + b2 + "," + d + "]"
         == prefix + "[" + ((a1 + "-" + b1) + [','] + (a2 + "-" + b2) + [','] + d) + "]" + ""
  {
  }

  /** `a-b` is made of range characters and holds no comma. */
  lemma RangeEntryChars(a: string, b: string)
    requires AllDigits(a) && AllDigits(b)
    ensures forall i :: 0 <= i < |a + "-" + b| ==> IsRangeChar((a + "-" + b)[i])
    ensures ',' !in a + "-" + b
  {
    var r := a + "-" + b;
    assert forall i :: 0 <= i < |r| ==> IsRangeChar(r[i]) && r[i] != ',';
  }

  /** A bracket group of three entries expands to their names in order. */
  lemma ThreeEntryGroup(prefix: string, p1: string, p2: string, p3: string, e1: Entry, e2: Entry, e3: Entry)
    requires |prefix| > 0 && forall i :: 0 <= i < |prefix| ==> IsWordChar(prefix[i])
    requires forall i :: 0 <= i < |p1| ==> IsRangeChar(p1[i])
    requires forall i :: 0 <= i < |p2| ==> IsRangeChar(p2[i])
    requires forall i :: 0 <= i < |p3| ==> IsRangeChar(p3[i])
    requires ',' !in p1 && ',' !in p2 && ',' !in p3
    requires ParseEntry(p1) == Ok(e1) && ParseEntry(p2) == Ok(e2) && ParseEntry(p3) == Ok(e3)
    ensures Expansion(Some(prefix + "[" + (p1 + [','] + p2 + [','] + p3) + "]" + ""))
         == Ok(EntryNames(prefix, e1) + EntryNames(prefix, e2) + EntryNames(prefix, e3))
  {
    var body := p1 + [','] + p2 + [','] + p3;
    assert forall i :: 0 <= i < |body| ==> IsRangeChar(body[i]);
    assert |body| > 0;
    GroupExpansion(prefix, body, "");
    SplitThree(p1, p2, p3, ',');
    ThreeEntries(prefix, p1, p2, p3, e1, e2, e3);
  }

  lemma TwoEntries(prefix: string, p1: string, p2: string, e1: Entry, e2: Entry)
    requires ParseEntry(p1) == Ok(e1) && ParseEntry(p2) == Ok(e2)
    ensures ExpandEntries(prefix, [p1, p2]) == Ok(EntryNames(prefix, e1) + EntryNames(prefix, e2))
  {
    OneEntry(prefix, p1, e1);
    ExpandEntriesSnoc(prefix, [p1], p2, EntryNames(prefix, e1), e2);
    assert [p1] + [p2] == [p1, p2];
  }

  lemma ThreeEntries(prefix: string, p1: string, p2: string, p3: string, e1: Entry, e2: Entry, e3: Entry)
    requires ParseEntry(p1) == Ok(e1) && ParseEntry(p2) == Ok(e2) && ParseEntry(p3) == Ok(e3)
    ensures ExpandEntries(prefix, [p1, p2, p3])
         == Ok(EntryNames(prefix, e1) + EntryNames(prefix, e2) + EntryNames(prefix, e3))
  {
    TwoEntries(prefix, p1, p2, e1, e2);
    ExpandEntriesSnoc(prefix, [p1, p2], p3, EntryNames(prefix, e1) + EntryNames(prefix, e2), e3);
    assert [p1, p2] + [p3] == [p1, p2, p3];
  }
  lemma SplitThree(a: string, b: string, c: string, sep: char)
    requires sep !in a && sep !in b && sep !in c
    ensures Split(a + [sep] + b + [sep] + c, sep) == [a, b, c]
  {
    var t := b + [sep] + c;
    calc {
      Split(a + [sep] + b + [sep] + c, sep);
      { assert a + [sep] + b + [sep] + c == a + [sep] + t; }
      Split(a + [sep] + t, sep);
      { SplitCons(a, t, sep); }
      [a] + Split(t, sep);
      { SplitOnce(b, c, sep); }
      [a] + [b, c];
    }
    assert [a] + [b, c] == [a, b, c];
  }

  lemma ExampleFirstNames()
    ensures RangeNames("node", 1935, 1937) == ["node1935", "node1936", "node1937"]
  {
    NodeName(1935, "node1935");
    NodeName(1936, "node1936");
    NodeName(1937, "node1937");
  }

  lemma ExampleSecondNames()
    ensures RangeNames("node", 1939, 1940) == ["node1939", "node1940"]
  {
    NodeName(1939, "node1939");
    NodeName(1940, "node1940");
  }

  lemma NodeName(n: nat, name: string)
    requires 1000 <= n < 10000
    requires name == "node" + [DigitChar(n / 10 / 10 / 10), DigitChar(n / 10 / 10 % 10), DigitChar(n / 10 % 10), DigitChar(n % 10)]
    ensures "node" + NatToString(n) == name
  {
    FourDigitString(n);
  }

  /** `str(n)` of a four-digit number, digit by digit. */
  lemma FourDigitString(n: nat)
    requires 1000 <= n < 10000
    ensures NatToString(n) == [DigitChar(n / 10 / 10 / 10), DigitChar(n / 10 / 10 % 10), DigitChar(n / 10 % 10), DigitChar(n % 10)]
  {
    var q1 := n / 10;
    var q2 := q1 / 10;
    var q3 := q2 / 10;
    assert NatToString(q3) == [DigitChar(q3)];
    assert NatToString(q2) == NatToString(q3) + [DigitChar(q2 % 10)];
    assert NatToString(q1) == NatToString(q2) + [DigitChar(q1 % 10)];
  }
}
