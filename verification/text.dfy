/** Character-level string operations used throughout the compiler: the
    `String.replace(char, char)`, `String.replace("(", "")`, `indexOf`,
    `lastIndexOf` and decimal `int`-to-text conversions that the Java code
    takes from the standard library. */
module Text {
  import Wrappers

  /** `s.replace(from, to)` for single characters. */
  function ReplaceChar(s: string, from: char, to: char): (r: string)
    ensures |r| == |s|
    ensures forall i :: 0 <= i < |s| ==> r[i] == (if s[i] == from then to else s[i])
  {
    if |s| == 0 then "" else ReplaceChar(s[..|s| - 1], from, to) + [if s[|s| - 1] == from then to else s[|s| - 1]]
  }

  /** Number of occurrences of `c` in `s`. */
  function Count(s: string, c: char): (n: nat)
    ensures n <= |s|
    ensures n == 0 <==> c !in s
  {
    if |s| == 0 then 0 else Count(s[..|s| - 1], c) + (if s[|s| - 1] == c then 1 else 0)
  }

  /** `s.replace(String.valueOf(c), "")`: every occurrence of `c` deleted. */
  function RemoveChar(s: string, c: char): (r: string)
    ensures |r| == |s| - Count(s, c)
    ensures c !in r
    ensures forall x :: x != c ==> (x in r <==> x in s)
  {
    if |s| == 0 then "" else RemoveChar(s[..|s| - 1], c) + (if s[|s| - 1] == c then "" else [s[|s| - 1]])
  }

  /** `s.indexOf(c)`: the least index holding `c`, or -1. */
  function IndexOf(s: string, c: char): (r: int)
    ensures -1 <= r < |s|
    ensures r == -1 <==> c !in s
    ensures r >= 0 ==> s[r] == c && forall j | 0 <= j < r :: s[j] != c
  {
    if |s| == 0 then -1
    else if s[0] == c then 0
    else var k := IndexOf(s[1..], c); if k == -1 then -1 else k + 1
  }

  /** `s.lastIndexOf(c)`: the greatest index holding `c`, or -1. */
  function LastIndexOf(s: string, c: char): (r: int)
    ensures -1 <= r < |s|
    ensures r == -1 <==> c !in s
    ensures r >= 0 ==> s[r] == c && c !in s[r + 1..]
  {
    if |s| == 0 then -1
    else if s[|s| - 1] == c then |s| - 1
    else LastIndexOf(s[..|s| - 1], c)
  }

  /** `s.indexOf(c, from)` for `from >= 0`: the least index `>= from`
      holding `c`, or -1. */
  function IndexOfFrom(s: string, c: char, from: nat): (r: int)
    ensures r == -1 || from <= r < |s|
    ensures r >= 0 ==> s[r] == c
    decreases |s| - from
  {
    if from >= |s| then -1
    else if s[from] == c then from
    else IndexOfFrom(s, c, from + 1)
  }

  /** `IndexOfFrom` passes over no occurrence of `c`. */
  lemma {:induction false} IndexOfFromSkips(s: string, c: char, from: nat)
    ensures var r := IndexOfFrom(s, c, from);
            && (r >= 0 ==> forall j :: from <= j < r ==> s[j] != c)
            && (r == -1 ==> forall j :: from <= j < |s| ==> s[j] != c)
    decreases |s| - from
  {
    if from < |s| && s[from] != c {
      IndexOfFromSkips(s, c, from + 1);
    }
  }

  /** `IndexOfFrom` stops at the first occurrence at or after `from`. */
  lemma {:induction false} IndexOfFromFirst(s: string, c: char, from: nat, q: nat)
    requires from <= q < |s| && s[q] == c
    requires forall j :: from <= j < q ==> s[j] != c
    ensures IndexOfFrom(s, c, from) == q
    decreases q - from
  {
    if from < q {
      IndexOfFromFirst(s, c, from + 1, q);
    }
  }

  /** `n` copies of `c`. */
  function Repeat(c: char, n: nat): (r: string)
    ensures |r| == n
    ensures forall i :: 0 <= i < n ==> r[i] == c
  {
    if n == 0 then "" else [c] + Repeat(c, n - 1)
  }

  /** Items separated by `sep`, as a `StringBuilder` loop with a `first` flag
      prints them. */
  function Join(items: seq<string>, sep: string): string
  {
    if |items| == 0 then ""
    else if |items| == 1 then items[0]
    else items[0] + sep + Join(items[1..], sep)
  }

  function DigitChar(d: nat): (c: char)
    requires d < 10
  {
    "0123456789"[d]
  }

  function DigitValue(c: char): nat
  {
    if '0' <= c <= '9' then (c as int - '0' as int) as nat else 0
  }

  predicate IsDigit(c: char) {
    '0' <= c <= '9'
  }

  /** Decimal rendering of a natural number, as Java's string concatenation
      prints a non-negative `int`. */
  function NatToString(n: nat): (r: string)
    ensures |r| > 0
    ensures forall i :: 0 <= i < |r| ==> IsDigit(r[i])
    decreases n
  {
    if n < 10 then [DigitChar(n)] else NatToString(n / 10) + [DigitChar(n % 10)]
  }

  /** Decimal rendering of any `int`, with a leading '-' for negatives. */
  function IntToString(i: int): string
  {
    if i < 0 then "-" + NatToString(-i) else NatToString(i)
  }

  /** The error of an array access at `index` in an array of `length`
      elements. */
  function ArrayIndexError(index: int, length: nat): Wrappers.Exception {
    Wrappers.IndexOutOfBounds("Index " + IntToString(index) + " out of bounds for length " + NatToString(length))
  }

  /** Reads back a string of decimal digits. */
  function ParseDigits(s: string): nat
  {
    if |s| == 0 then 0 else ParseDigits(s[..|s| - 1]) * 10 + DigitValue(s[|s| - 1])
  }

  lemma {:induction false} ParseNatToString(n: nat)
    ensures ParseDigits(NatToString(n)) == n
    decreases n
  {
    var s := NatToString(n);
    if n < 10 {
      assert s == [DigitChar(n)];
      assert s[..0] == [];
    } else {
      ParseNatToString(n / 10);
      assert s[..|s| - 1] == NatToString(n / 10);
      assert s[|s| - 1] == DigitChar(n % 10);
    }
  }

  /** Distinct numbers print differently. */
  lemma NatToStringInjective(m: nat, n: nat)
    requires NatToString(m) == NatToString(n)
    ensures m == n
  {
    ParseNatToString(m);
    ParseNatToString(n);
  }

  /** A fixed prefix followed by a decimal number identifies the number. */
  lemma PrefixedNumberInjective(prefix: string, m: nat, n: nat)
    requires prefix + NatToString(m) == prefix + NatToString(n)
    ensures m == n
  {
    assert NatToString(m) == (prefix + NatToString(m))[|prefix|..];
    assert NatToString(n) == (prefix + NatToString(n))[|prefix|..];
    NatToStringInjective(m, n);
  }

  lemma ReplaceCharAppend(a: string, b: string, from: char, to: char)
    ensures ReplaceChar(a + b, from, to) == ReplaceChar(a, from, to) + ReplaceChar(b, from, to)
  {
    var l := ReplaceChar(a + b, from, to);
    var rr := ReplaceChar(a, from, to) + ReplaceChar(b, from, to);
    assert |l| == |rr|;
    forall i | 0 <= i < |l| ensures l[i] == rr[i] {
      if i < |a| {
        assert (a + b)[i] == a[i];
      } else {
        assert (a + b)[i] == b[i - |a|];
      }
    }
  }

  /** `t` occurs in `s` starting at `pos`, character by character. */
  predicate TextAt(s: string, pos: nat, t: string)
  {
    pos + |t| <= |s| && forall i :: 0 <= i < |t| ==> s[pos + i] == t[i]
  }

  /** The same, as a slice of `s`. */
  lemma TextAtIsSlice(s: string, pos: nat, t: string)
    ensures TextAt(s, pos, t) <==> pos + |t| <= |s| && s[pos..pos + |t|] == t
  {
    if pos + |t| <= |s| {
      var w := s[pos..pos + |t|];
      assert forall i :: 0 <= i < |t| ==> w[i] == s[pos + i];
    }
  }

  /** Text that occurs at `pos` occurs piece by piece. */
  lemma TextAtSplit(s: string, pos: nat, a: string, b: string)
    requires TextAt(s, pos, a + b)
    ensures TextAt(s, pos, a) && TextAt(s, pos + |a|, b)
  {
    assert forall i :: 0 <= i < |a| ==> s[pos + i] == (a + b)[i] == a[i];
    assert forall i :: 0 <= i < |b| ==> s[pos + |a| + i] == (a + b)[|a| + i] == b[i];
  }

  /** Pieces laid end to end occur as their concatenation. */
  lemma TextAtJoin(s: string, pos: nat, a: string, b: string)
    requires TextAt(s, pos, a) && TextAt(s, pos + |a|, b)
    ensures TextAt(s, pos, a + b)
  {
    forall i | 0 <= i < |a + b| ensures s[pos + i] == (a + b)[i] {
      if i >= |a| {
        assert s[pos + |a| + (i - |a|)] == b[i - |a|];
      }
    }
  }
}
