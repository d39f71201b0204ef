/** Shared vocabulary of the job-accounting model.

    A missing CSV cell and a pandas NaN are both `None`; a Python exception
    that ends a script is an `Err`. Sums run over sequences in list order,
    and strings are sequences of characters compared with ASCII rules. */
module Common {

  datatype Option<+T> = None | Some(value: T)

  datatype Result<+T> = Ok(value: T) | Err(message: string)

  /** Sum of a sequence of integers, accumulated in list order. */
  function Sum(s: seq<int>): int
  {
    if s == [] then 0 else Sum(s[..|s| - 1]) + s[|s| - 1]
  }

  /** Sum of a sequence of reals, accumulated in list order. */
  function SumReal(s: seq<real>): real
  {
    if s == [] then 0.0 else SumReal(s[..|s| - 1]) + s[|s| - 1]
  }

  /** Summing a concatenation is summing its halves. */
  lemma {:induction false} SumAppend(a: seq<int>, b: seq<int>)
    ensures Sum(a + b) == Sum(a) + Sum(b)
    decreases |b|
  {
    if b == [] {
      assert a + b == a;
    } else {
      assert (a + b)[..|a + b| - 1] == a + b[..|b| - 1];
      SumAppend(a, b[..|b| - 1]);
    }
  }

  /** The real-valued counterpart of SumAppend. */
  lemma {:induction false} SumRealAppend(a: seq<real>, b: seq<real>)
    ensures SumReal(a + b) == SumReal(a) + SumReal(b)
    decreases |b|
  {
    if b == [] {
      assert a + b == a;
    } else {
      assert (a + b)[..|a + b| - 1] == a + b[..|b| - 1];
      SumRealAppend(a, b[..|b| - 1]);
    }
  }

  /** Python's `\d` restricted to ASCII. */
  predicate IsDigit(c: char)
  {
    '0' <= c <= '9'
  }

  /** Python's `[a-zA-Z]`. */
  predicate IsLetter(c: char)
  {
    ('a' <= c <= 'z') || ('A' <= c <= 'Z')
  }

  /** Python's `\w` restricted to ASCII. */
  predicate IsWordChar(c: char)
  {
    IsLetter(c) || IsDigit(c) || c == '_'
  }

  predicate AllDigits(s: string)
  {
    forall i :: 0 <= i < |s| ==> IsDigit(s[i])
  }

  /** `str.lower()` on one ASCII character. */
  function LowerChar(c: char): char
  {
    if 'A' <= c <= 'Z' then (c as int + 32) as char else c
  }

  /** `str.lower()` with ASCII case rules. */
  function ToLower(s: string): (r: string)
    ensures |r| == |s|
    ensures forall i :: 0 <= i < |s| ==> r[i] == LowerChar(s[i])
  {
    if s == [] then [] else ToLower(s[..|s| - 1]) + [LowerChar(s[|s| - 1])]
  }

  /** Python's `sub in s`. */
  predicate Contains(s: string, sub: string)
    decreases |s|
  {
    |sub| <= |s| && (s[..|sub|] == sub || Contains(s[1..], sub))
  }

  /** An occurrence at a known position. */
  lemma {:induction false} ContainsAt(s: string, sub: string, i: nat)
    requires i + |sub| <= |s| && s[i..i + |sub|] == sub
    ensures Contains(s, sub)
  {
    if i > 0 {
      assert s[1..][i - 1..i - 1 + |sub|] == sub;
      ContainsAt(s[1..], sub, i - 1);
    }
  }

  /** Where an occurrence is. */
  lemma {:induction false} ContainsWitness(s: string, sub: string) returns (i: nat)
    requires Contains(s, sub)
    ensures i + |sub| <= |s| && s[i..i + |sub|] == sub
    decreases |s|
  {
    if s[..|sub|] == sub {
      i := 0;
    } else {
      var k := ContainsWitness(s[1..], sub);
      i := k + 1;
      assert s[i..i + |sub|] == s[1..][k..k + |sub|];
    }
  }

  /** A text lacking one of the characters of `sub` cannot hold `sub`. */
  lemma {:induction false} NotContainsMissingChar(s: string, sub: string, c: char)
    requires c in sub && c !in s
    ensures !Contains(s, sub)
  {
    if Contains(s, sub) {
      var i := ContainsWitness(s, sub);
      assert false;
    }
  }

  /** Lower-casing leaves a text without capitals unchanged, and so
      lower-casing twice is lower-casing once. */
  lemma ToLowerNoUpper(s: string)
    requires forall c :: c in s ==> !('A' <= c <= 'Z')
    ensures ToLower(s) == s
  {
    assert forall i :: 0 <= i < |s| ==> s[i] in s;
  }

  lemma ToLowerIdempotent(s: string)
    ensures ToLower(ToLower(s)) == ToLower(s)
  {
    ToLowerNoUpper(ToLower(s));
  }

  /** `'gpu' in str(x).lower()`: the node-type rule several scripts share.
      A missing nodelist prints as 'nan', which holds no 'gpu'. */
  predicate MentionsGpu(x: Option<string>)
  {
    x.Some? && Contains(ToLower(x.value), "gpu")
  }

  /** The text before the first occurrence of `sep`, i.e. `s.split(sep)[0]`. */
  function BeforeFirst(s: string, sep: char): (r: string)
    ensures |r| <= |s| && r == s[..|r|]
    ensures sep !in r
    ensures |r| < |s| ==> s[|r|] == sep
  {
    if s == [] then []
    else if s[0] == sep then []
    else [s[0]] + BeforeFirst(s[1..], sep)
  }

  function DigitChar(d: nat): char
    requires d < 10
  {
    ('0' as int + d) as char
  }

  /** Python's `str(n)` for a non-negative integer. */
  function NatToString(n: nat): string
    decreases n
  {
    if n < 10 then [DigitChar(n)] else NatToString(n / 10) + [DigitChar(n % 10)]
  }

  /** The value of a string of decimal digits, as Python's `int()` reads it:
      leading zeros are allowed and ignored. */
  function DigitsValue(s: string): nat
    requires AllDigits(s)
  {
    if s == [] then 0 else DigitsValue(s[..|s| - 1]) * 10 + (s[|s| - 1] as int - '0' as int)
  }

  /** `int(NatToString(n)) == n`, and the text has no leading zero. */
  lemma {:induction false} NatToStringRoundTrip(n: nat)
    ensures |NatToString(n)| > 0 && AllDigits(NatToString(n))
    ensures DigitsValue(NatToString(n)) == n
    ensures |NatToString(n)| > 1 ==> NatToString(n)[0] != '0'
    decreases n
  {
    if n >= 10 {
      NatToStringRoundTrip(n / 10);
      var s := NatToString(n);
      assert s[..|s| - 1] == NatToString(n / 10);
    }
  }

  /** f"{n:0Wd}" for a non-negative n: `str(n)` left-padded with zeros. */
  function ZeroPad(n: nat, width: nat): (r: string)
  {
    var digits := NatToString(n);
    if |digits| >= width then digits else seq(width - |digits|, _ => '0') + digits
  }

  /** Zero padding never loses the value and reaches the requested width. */
  lemma ZeroPadValue(n: nat, width: nat)
    ensures |ZeroPad(n, width)| >= width && AllDigits(ZeroPad(n, width))
    ensures DigitsValue(ZeroPad(n, width)) == n
  {
    NatToStringRoundTrip(n);
    var digits := NatToString(n);
    if |digits| < width {
      LeadingZerosValue(width - |digits|, digits);
    }
  }

  lemma {:induction false} LeadingZerosValue(k: nat, s: string)
    requires AllDigits(s)
    ensures AllDigits(seq(k, _ => '0') + s)
    ensures DigitsValue(seq(k, _ => '0') + s) == DigitsValue(s)
    decreases |s|
  {
    var z: string := seq(k, _ => '0');
    if s == [] {
      assert z + s == z;
      ZerosValue(k);
    } else {
      assert (z + s)[..|z + s| - 1] == z + s[..|s| - 1];
      LeadingZerosValue(k, s[..|s| - 1]);
    }
  }

  lemma {:induction false} ZerosValue(k: nat)
    ensures AllDigits(seq(k, _ => '0'))
    ensures DigitsValue(seq(k, _ => '0')) == 0
  {
    if k > 0 {
      var z: string := seq(k, _ => '0');
      assert z[..k - 1] == seq(k - 1, _ => '0');
      ZerosValue(k - 1);
    }
  }

  /** The sampling rule shared by the tick-based scripts: a job occupies
      its resources from its start up to, but not including, its end. */
  predicate ActiveAt(start: int, end: int, t: int)
  {
    start <= t < end
  }

  function MaxInt(a: int, b: int): int
  {
    if a >= b then a else b
  }

  function MaxReal(a: real, b: real): real
  {
    if a >= b then a else b
  }

  /** pandas `.clip(lo, hi)` on a non-missing value. */
  function Clip(x: real, lo: real, hi: real): (r: real)
    requires lo <= hi
    ensures lo <= r <= hi
    ensures lo <= x <= hi ==> r == x
  {
    if x < lo then lo else if x > hi then hi else x
  }

  /** Dropping the last element of a sequence removes one occurrence of
      it. */
  lemma MultisetOfLast<T>(s: seq<T>)
    requires s != []
    ensures multiset(s) == multiset(s[..|s| - 1]) + multiset{s[|s| - 1]}
  {
    assert s == s[..|s| - 1] + [s[|s| - 1]];
  }

  /** Two reals that agree once multiplied by the same non-zero factor
      are equal. */
  lemma MulCancel(x: real, y: real, z: real)
    requires z != 0.0 && x * z == y * z
    ensures x == y
  {
    assert (x - y) * z == 0.0;
  }

  /** The share of a capacity left unused, in percent, is 100 minus the
      share used. */
  lemma ComplementRatio(c: real, cap: real)
    requires cap != 0.0
    ensures (cap - c) / cap * 100.0 == 100.0 - c / cap * 100.0
  {
    var q := c / cap;
    assert q * cap == c;
    assert (1.0 - q) * cap == cap - c;
    assert ((cap - c) / cap) * cap == cap - c;
    MulCancel((cap - c) / cap, 1.0 - q, cap);
  }

  /** Number of occurrences of `k` in `keys`. */
  function CountOf(keys: seq<int>, k: int): (c: nat)
    ensures c <= |keys|
  {
    if keys == [] then 0
    else CountOf(keys[..|keys| - 1], k) + (if keys[|keys| - 1] == k then 1 else 0)
  }

  /** A key that occurs is counted at least once. */
  lemma {:induction false} CountOfPositive(keys: seq<int>, i: nat)
    requires i < |keys|
    ensures CountOf(keys, keys[i]) > 0
  {
    if i < |keys| - 1 {
      CountOfPositive(keys[..|keys| - 1], i);
    }
  }

  /** The table a `for key in range(lo, hi)` loop builds when it appends
      a row `(key, count)` only for keys that occur. */
  function BucketRows(keys: seq<int>, lo: int, hi: int): seq<(int, nat)>
    decreases hi - lo
  {
    if hi <= lo then []
    else
      var c := CountOf(keys, hi - 1);
      BucketRows(keys, lo, hi - 1) + (if c > 0 then [(hi - 1, c)] else [])
  }

  /** The rows are in ascending key order, each holds the count of its key
      and that count is positive, and every key in [lo, hi) that occurs has
      a row. */
  lemma BucketRowsFacts(keys: seq<int>, lo: int, hi: int)
    ensures var rows := BucketRows(keys, lo, hi);
      && (forall a, b :: 0 <= a < b < |rows| ==> rows[a].0 < rows[b].0)
      && (forall a :: 0 <= a < |rows| ==> lo <= rows[a].0 < hi && rows[a].1 == CountOf(keys, rows[a].0) && rows[a].1 > 0)
      && (forall k :: lo <= k < hi && CountOf(keys, k) > 0 ==> exists a :: 0 <= a < |rows| && rows[a].0 == k)
  {
    BucketRowsSorted(keys, lo, hi);
    BucketRowsCounted(keys, lo, hi);
    BucketRowsComplete(keys, lo, hi);
  }

  /** A row of `BucketRows(keys, lo, hi)`: its key is in range and its
      count is the key's positive count. */
  predicate BucketRowOk(keys: seq<int>, lo: int, hi: int, row: (int, nat))
  {
    lo <= row.0 < hi && row.1 == CountOf(keys, row.0) && row.1 > 0
  }

  lemma {:induction false} BucketRowsCounted(keys: seq<int>, lo: int, hi: int)
    ensures forall a :: 0 <= a < |BucketRows(keys, lo, hi)| ==> BucketRowOk(keys, lo, hi, BucketRows(keys, lo, hi)[a])
    decreases hi - lo
  {
    if lo < hi {
      BucketRowsCounted(keys, lo, hi - 1);
      var prev := BucketRows(keys, lo, hi - 1);
      var rows := BucketRows(keys, lo, hi);
      var c := CountOf(keys, hi - 1);
      if c > 0 {
        assert rows == prev + [(hi - 1, c)];
        forall a | 0 <= a < |rows|
          ensures BucketRowOk(keys, lo, hi, rows[a])
        {
          if a < |prev| {
            assert rows[a] == prev[a];
          }
        }
      } else {
        assert rows == prev;
      }
    }
  }

  lemma {:induction false} BucketRowsSorted(keys: seq<int>, lo: int, hi: int)
    ensures forall a, b :: 0 <= a < b < |BucketRows(keys, lo, hi)| ==> BucketRows(keys, lo, hi)[a].0 < BucketRows(keys, lo, hi)[b].0
    decreases hi - lo
  {
    if lo < hi {
      BucketRowsSorted(keys, lo, hi - 1);
      BucketRowsCounted(keys, lo, hi - 1);
      var prev := BucketRows(keys, lo, hi - 1);
      var rows := BucketRows(keys, lo, hi);
      var c := CountOf(keys, hi - 1);
      if c > 0 {
        assert rows == prev + [(hi - 1, c)];
        forall a, b | 0 <= a < b < |rows|
          ensures rows[a].0 < rows[b].0
        {
          assert rows[a] == prev[a];
          if b < |prev| {
            assert rows[b] == prev[b];
          }
        }
      } else {
        assert rows == prev;
      }
    }
  }

  predicate HasBucketRow(rows: seq<(int, nat)>, k: int)
  {
    exists a :: 0 <= a < |rows| && rows[a].0 == k
  }

  lemma {:induction false} BucketRowsComplete(keys: seq<int>, lo: int, hi: int)
    ensures forall k :: lo <= k < hi && CountOf(keys, k) > 0 ==> HasBucketRow(BucketRows(keys, lo, hi), k)
    decreases hi - lo
  {
    if lo < hi {
      BucketRowsComplete(keys, lo, hi - 1);
      var prev := BucketRows(keys, lo, hi - 1);
      var rows := BucketRows(keys, lo, hi);
      var c := CountOf(keys, hi - 1);
      if c > 0 {
        assert rows == prev + [(hi - 1, c)];
      } else {
        assert rows == prev;
      }
      forall k | lo <= k < hi && CountOf(keys, k) > 0
        ensures HasBucketRow(rows, k)
      {
        if k == hi - 1 {
          assert rows[|prev|].0 == k;
        } else {
          var a :| 0 <= a < |prev| && prev[a].0 == k;
          assert rows[a] == prev[a];
        }
      }
    }
  }

  /** The loop itself: one pass per key in [lo, hi). */
  method NonEmptyBuckets(keys: seq<int>, lo: int, hi: int) returns (rows: seq<(int, nat)>)
    ensures rows == BucketRows(keys, lo, hi)
  {
    rows := [];
    if hi <= lo {
      return;
    }
    for key := lo to hi
      invariant rows == BucketRows(keys, lo, key)
    {
      var c := CountOf(keys, key);
      if c > 0 {
        rows := rows + [(key, c)];
      }
    }
  }
}
