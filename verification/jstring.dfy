/** The bootstrap `java.lang.String` of the runtime library: a final
    character array searched and copied by hand-written loops. A Java `char`
    is a Dafny `char`; where the code compares an `int` argument with a
    character, the character's code is compared. Where Java would throw,
    the operation returns the exception as an `Err`. */
module JString {
  import opened Wrappers
  import Text

  /** `String(char[] characters, int start, int length)`: a fresh array of
      `length` characters copied from `start` on. A negative length fails
      allocating the array; otherwise the copy fails at the first index it
      reads outside `characters`, which is `start` itself when that is out
      of range and the end of the array when the range runs past it. */
  method FromRange(chars: seq<char>, start: int, length: int) returns (r: Result<seq<char>>)
    ensures r.Ok? <==> length == 0 || (length > 0 && 0 <= start && start + length <= |chars|)
    ensures r.Ok? ==> |r.value| == length && forall i :: 0 <= i < length ==> r.value[i] == chars[start + i]
    ensures r.Ok? && length > 0 ==> r.value == chars[start..start + length]
    ensures length < 0 ==> r == Err(NegativeArraySize(Text.IntToString(length)))
    ensures length > 0 && (start < 0 || start >= |chars|) ==> r == Err(Text.ArrayIndexError(start, |chars|))
    ensures length > 0 && 0 <= start < |chars| < start + length ==> r == Err(Text.ArrayIndexError(|chars|, |chars|))
  {
    if length < 0 {
      return Err(NegativeArraySize(Text.IntToString(length)));
    }
    var copy := [];
    var i := 0;
    while i < length
      invariant 0 <= i <= length && |copy| == i
      invariant i > 0 ==> 0 <= start && start + i <= |chars|
      invariant forall k :: 0 <= k < i ==> 0 <= start + k < |chars| && copy[k] == chars[start + k]
    {
      if start + i < 0 || start + i >= |chars| {
        return Err(Text.ArrayIndexError(start + i, |chars|));
      }
      copy := copy + [chars[start + i]];
      i := i + 1;
    }
    if length > 0 {
      assert copy == chars[start..start + length];
    }
    return Ok(copy);
  }

  /** `String(char[] characters)`: a copy of the whole array. */
  method FromChars(chars: seq<char>) returns (r: seq<char>)
    ensures r == chars
  {
    var copy := FromRange(chars, 0, |chars|);
    r := copy.value;
    assert |chars| > 0 ==> r == chars[0..|chars|];
  }

  /** `String(String s, int start, int length)`: the same copy, taken from
      another string's characters. */
  method FromStringRange(s: seq<char>, start: int, length: int) returns (r: Result<seq<char>>)
    ensures r.Ok? <==> length == 0 || (length > 0 && 0 <= start && start + length <= |s|)
    ensures r.Ok? ==> |r.value| == length && forall i :: 0 <= i < length ==> r.value[i] == s[start + i]
    ensures r.Err? ==> (r.error.NegativeArraySize? <==> length < 0)
  {
    r := FromRange(s, start, length);
  }

  /** `isEmpty()`. */
  function IsEmpty(s: seq<char>): (r: bool)
    ensures r <==> s == []
  {
    |s| == 0
  }

  /** `charAt(index)`: the array read, an index error outside the string. */
  function CharAt(s: seq<char>, index: int): (r: Result<char>)
    ensures r.Ok? <==> 0 <= index < |s|
    ensures r.Ok? ==> r.value == s[index]
    ensures r.Err? ==> r.error == Text.ArrayIndexError(index, |s|)
  {
    if 0 <= index < |s| then Ok(s[index]) else Err(Text.ArrayIndexError(index, |s|))
  }

  /** `equals(Object)`: the comparison is commented out, so the answer is
      false for every argument, the receiver itself included. */
  function Equals(s: seq<char>, o: seq<char>): (r: bool)
    ensures !r
  {
    false
  }

  /** `hashCode()`: the length plus the first character's code; an empty
      string has no first character, and reading it fails. */
  function HashCode(s: seq<char>): (r: Result<int>)
    ensures r.Err? <==> |s| == 0
    ensures r.Err? ==> r.error == Text.ArrayIndexError(0, 0)
    ensures r.Ok? ==> r.value >= |s|
  {
    if |s| == 0 then Err(Text.ArrayIndexError(0, 0)) else Ok(|s| + s[0] as int)
  }

  /** Only the length and the first character reach the hash: strings that
      share both collide, whatever follows. */
  lemma HashCodeCollides(s: seq<char>, t: seq<char>)
    requires |s| == |t| && (|s| == 0 || s[0] == t[0])
    ensures HashCode(s) == HashCode(t)
  {
  }

  /** `startsWith(prefix)`: false for a longer prefix, otherwise a
      character-by-character comparison from index 0. */
  method StartsWith(s: seq<char>, prefix: seq<char>) returns (r: bool)
    ensures r <==> |prefix| <= |s| && s[..|prefix|] == prefix
  {
    if |prefix| > |s| {
      return false;
    }
    var i := 0;
    while i < |prefix|
      invariant 0 <= i <= |prefix|
      invariant s[..i] == prefix[..i]
    {
      if s[i] != prefix[i] {
        return false;
      }
      assert s[..i + 1] == s[..i] + [s[i]];
      assert prefix[..i + 1] == prefix[..i] + [prefix[i]];
      i := i + 1;
    }
    assert prefix[..i] == prefix;
    return true;
  }

  /** The comparison loop of `endsWith` as written: index `i` of the
      receiver is compared with index `i` of the suffix, not with the
      matching suffix position. */
  function EndsWithLoop(s: seq<char>, suffix: seq<char>, i: nat): (r: Result<bool>)
    decreases |s| - i
  {
    if i >= |s| then Ok(true)
    else if i >= |suffix| then Err(Text.ArrayIndexError(i, |suffix|))
    else if s[i] != suffix[i] then Ok(false)
    else EndsWithLoop(s, suffix, i + 1)
  }

  /** `endsWith(suffix)` as written. */
  function EndsWithAsWritten(s: seq<char>, suffix: seq<char>): (r: Result<bool>)
    ensures |suffix| > |s| ==> r == Ok(false)
  {
    if |suffix| > |s| then Ok(false) else EndsWithLoop(s, suffix, |s| - |suffix|)
  }

  /** The loop as written never confirms a proper non-empty suffix: it either
      finds a mismatch or runs past the end of the suffix. */
  lemma {:induction false} EndsWithLoopNeverConfirms(s: seq<char>, suffix: seq<char>, i: nat)
    requires |suffix| < |s| && i <= |s| - 1
    ensures EndsWithLoop(s, suffix, i) != Ok(true)
    decreases |s| - i
  {
    if i < |suffix| && s[i] == suffix[i] {
      EndsWithLoopNeverConfirms(s, suffix, i + 1);
    }
  }

  /** So `endsWith` as written answers true for a shorter non-empty
      suffix on no input at all: "ab" does end with "b", but the call fails
      reading index 1 of "b". */
  lemma EndsWithAsWrittenMissesSuffix(s: seq<char>, suffix: seq<char>)
    requires 0 < |suffix| < |s|
    ensures EndsWithAsWritten(s, suffix) != Ok(true)
    ensures EndsWithAsWritten("ab", "b") == Err(Text.ArrayIndexError(1, 1))
  {
    EndsWithLoopNeverConfirms(s, suffix, |s| - |suffix|);
  }

  /** `endsWith(suffix)` as evidently intended: the last `|suffix|`
      characters of the receiver are compared with the suffix. */
  method EndsWith(s: seq<char>, suffix: seq<char>) returns (r: bool)
    ensures r <==> |suffix| <= |s| && s[|s| - |suffix|..] == suffix
  {
    if |suffix| > |s| {
      return false;
    }
    var base := |s| - |suffix|;
    var i := base;
    while i < |s|
      invariant base <= i <= |s|
      invariant s[base..i] == suffix[..i - base]
    {
      if s[i] != suffix[i - base] {
        assert s[base..|s|][i - base] != suffix[i - base];
        return false;
      }
      assert s[base..i + 1] == s[base..i] + [s[i]];
      assert suffix[..i + 1 - base] == suffix[..i - base] + [suffix[i - base]];
      i := i + 1;
    }
    assert suffix[..|suffix|] == suffix;
    return true;
  }

  /** `indexOf(int c, int from)`: the least index at or after `from` whose
      character has code `c`, or -1. A negative `from` is below the array
      length, so the first read `characters[from]` fails. */
  method IndexOfChar(s: seq<char>, c: int, from: int) returns (r: Result<int>)
    ensures r.Err? <==> from < 0
    ensures r.Err? ==> r.error == Text.ArrayIndexError(from, |s|)
    ensures r.Ok? ==> r.value == -1 || from <= r.value < |s|
    ensures r.Ok? ==> (r.value == -1 <==> forall k :: from <= k < |s| ==> s[k] as int != c)
    ensures r.Ok? && r.value != -1 ==> s[r.value] as int == c && forall k :: from <= k < r.value ==> s[k] as int != c
  {
    if from < 0 {
      return Err(Text.ArrayIndexError(from, |s|));
    }
    var i := from;
    while i < |s|
      invariant from <= i
      invariant forall k :: from <= k < i && k < |s| ==> s[k] as int != c
    {
      if s[i] as int == c {
        return Ok(i);
      }
      i := i + 1;
    }
    return Ok(-1);
  }

  /** `indexOf(int c)`: the search from index 0 is the first occurrence. */
  method IndexOf(s: seq<char>, c: char) returns (r: int)
    ensures r == Text.IndexOf(s, c)
  {
    var q := IndexOfChar(s, c as int, 0);
    r := q.value;
  }

  /** `lastIndexOf(int c, int from)` as written: the loop runs only while
      `from` is at or past the end, where reading `characters[from]` fails;
      from any position inside the string it answers -1 at once. */
  function LastIndexOfAsWritten(s: seq<char>, c: int, from: int): (r: Result<int>)
    ensures r.Ok? <==> from < |s|
    ensures r.Ok? ==> r.value == -1
  {
    if from >= |s| then Err(Text.ArrayIndexError(from, |s|)) else Ok(-1)
  }

  /** `lastIndexOf(int c)` as written searches from the last index and so
      never finds anything: "a" holds 'a' at index 0, yet the answer is -1. */
  lemma LastIndexOfAsWrittenMisses(s: seq<char>, c: char)
    ensures LastIndexOfAsWritten(s, c as int, |s| - 1) == Ok(-1)
    ensures LastIndexOfAsWritten("a", 'a' as int, 0) == Ok(-1) && Text.LastIndexOf("a", 'a') == 0
  {
  }

  /** `lastIndexOf(int c, int from)` as evidently intended: walk down from
      `from` while it is a valid index. A `from` past the end fails on the
      first read, as the array access does. */
  method LastIndexOfChar(s: seq<char>, c: int, from: int) returns (r: Result<int>)
    ensures r.Err? <==> from >= |s|
    ensures r.Err? ==> r.error == Text.ArrayIndexError(from, |s|)
    ensures r.Ok? ==> r.value == -1 || 0 <= r.value <= from
    ensures r.Ok? ==> (r.value == -1 <==> forall k :: 0 <= k <= from ==> s[k] as int != c)
    ensures r.Ok? && r.value != -1 ==> s[r.value] as int == c && forall k :: r.value < k <= from ==> s[k] as int != c
  {
    if from >= |s| {
      return Err(Text.ArrayIndexError(from, |s|));
    }
    var i := from;
    while i >= 0
      invariant i <= from && (i == from || i >= -1)
      invariant forall k :: i < k <= from ==> s[k] as int != c
    {
      if s[i] as int == c {
        return Ok(i);
      }
      i := i - 1;
    }
    return Ok(-1);
  }

  /** `lastIndexOf(int c)` as evidently intended: the last occurrence. */
  method LastIndexOf(s: seq<char>, c: char) returns (r: int)
    ensures r == Text.LastIndexOf(s, c)
  {
    var q := LastIndexOfChar(s, c as int, |s| - 1);
    r := q.value;
  }

  /** `indexOf(String t, int from)`: each round copies `substring(from,
      from + |t|)`, which fails once the window leaves the string, and then
      asks `equals`, which never agrees; so the loop can only fail or run
      out. */
  function IndexOfStringFrom(s: seq<char>, t: seq<char>, from: int): (r: Result<int>)
    ensures r.Ok? ==> r.value == -1
    decreases |s| - from
  {
    if from >= |s| then Ok(-1)
    else if |t| > 0 && from < 0 then Err(Text.ArrayIndexError(from, |s|))
    else if from + |t| > |s| then Err(Text.ArrayIndexError(|s|, |s|))
    else IndexOfStringFrom(s, t, from + 1)
  }

  lemma {:induction false} IndexOfStringFromTail(s: seq<char>, t: seq<char>, from: nat)
    requires from < |s|
    ensures IndexOfStringFrom(s, t, from) == if |t| > 1 then Err(Text.ArrayIndexError(|s|, |s|)) else Ok(-1)
    decreases |s| - from
  {
    if from + |t| <= |s| && from + 1 < |s| {
      IndexOfStringFromTail(s, t, from + 1);
    }
  }

  /** `indexOf(String t)`: never a match; an error exactly when the string
      is non-empty and the pattern has two or more characters. */
  function IndexOfString(s: seq<char>, t: seq<char>): (r: Result<int>)
    ensures r == if |s| > 0 && |t| > 1 then Err(Text.ArrayIndexError(|s|, |s|)) else Ok(-1)
  {
    if |s| == 0 then IndexOfStringFrom(s, t, 0)
    else IndexOfStringFromTail(s, t, 0); IndexOfStringFrom(s, t, 0)
  }

  /** `lastIndexOf(String t, int from)`: the loop runs only at or past the
      end, where copying a non-empty window fails. */
  function LastIndexOfStringFrom(s: seq<char>, t: seq<char>, from: int): (r: Result<int>)
    ensures r.Ok? ==> r.value == -1
    ensures r.Err? <==> from >= |s| && |t| > 0
    decreases from - |s|
  {
    if from < |s| then Ok(-1)
    else if |t| > 0 then Err(Text.ArrayIndexError(from, |s|))
    else LastIndexOfStringFrom(s, t, from - 1)
  }

  /** `lastIndexOf(String t)`, from `length() - |t|`: always -1. */
  function LastIndexOfString(s: seq<char>, t: seq<char>): (r: Result<int>)
    ensures r == Ok(-1)
  {
    LastIndexOfStringFrom(s, t, |s| - |t|)
  }

  /** `contains(t)`: true when `indexOf(t)` is not negative, which it never
      is. */
  function Contains(s: seq<char>, t: seq<char>): (r: Result<bool>)
    ensures r.Ok? ==> !r.value
    ensures r.Err? <==> |s| > 0 && |t| > 1
  {
    var index :- IndexOfString(s, t);
    Ok(index >= 0)
  }

  /** `substring(begin)`: the characters from `begin` to the end. A
      `begin` past the end asks for a negative length; a negative one reads
      outside the string at once. */
  method SubstringFrom(s: seq<char>, begin: int) returns (r: Result<seq<char>>)
    ensures r.Ok? <==> 0 <= begin <= |s|
    ensures r.Ok? ==> r.value == s[begin..]
    ensures begin > |s| ==> r == Err(NegativeArraySize(Text.IntToString(|s| - begin)))
    ensures begin < 0 ==> r == Err(Text.ArrayIndexError(begin, |s|))
  {
    r := FromRange(s, begin, |s| - begin);
    if r.Ok? {
      assert r.value == s[begin..];
    }
  }

  /** `substring(begin, end)`: `end - begin` characters copied from
      `begin`. Equal bounds give the empty string wherever they lie; bounds
      the wrong way round ask for a negative length. */
  method Substring(s: seq<char>, begin: int, end: int) returns (r: Result<seq<char>>)
    ensures r.Ok? <==> begin == end || (begin < end && 0 <= begin && end <= |s|)
    ensures r.Ok? ==> r.value == if begin == end then [] else s[begin..end]
    ensures end < begin ==> r == Err(NegativeArraySize(Text.IntToString(end - begin)))
    ensures begin < end && (begin < 0 || begin >= |s|) ==> r == Err(Text.ArrayIndexError(begin, |s|))
    ensures 0 <= begin < |s| < end ==> r == Err(Text.ArrayIndexError(|s|, |s|))
  {
    r := FromRange(s, begin, end - begin);
  }

  /** `concat(t)`: a fresh array, the receiver's characters then t's. */
  method Concat(s: seq<char>, t: seq<char>) returns (r: seq<char>)
    ensures |r| == |s| + |t|
    ensures r[..|s|] == s && r[|s|..] == t
  {
    var result := seq(|s| + |t|, _ => '\0');
    var i := 0;
    while i < |s|
      invariant 0 <= i <= |s| && |result| == |s| + |t|
      invariant forall k :: 0 <= k < i ==> result[k] == s[k]
    {
      result := result[i := s[i]];
      i := i + 1;
    }
    i := 0;
    while i < |t|
      invariant 0 <= i <= |t| && |result| == |s| + |t|
      invariant forall k :: 0 <= k < |s| ==> result[k] == s[k]
      invariant forall k :: 0 <= k < i ==> result[|s| + k] == t[k]
    {
      result := result[|s| + i := t[i]];
      i := i + 1;
    }
    r := result;
    assert r[..|s|] == s;
    assert forall k :: 0 <= k < |t| ==> r[|s|..][k] == t[k];
  }

  /** `replace(char what, char with)`: every `what` becomes `with`. */
  method Replace(s: seq<char>, what: char, with: char) returns (r: seq<char>)
    ensures |r| == |s|
    ensures forall i :: 0 <= i < |s| ==> (r[i] == with <== s[i] == what) && (s[i] != what ==> r[i] == s[i])
    ensures r == Text.ReplaceChar(s, what, with)
  {
    var result := seq(|s|, _ => '\0');
    var i := 0;
    while i < |s|
      invariant 0 <= i <= |s| && |result| == |s|
      invariant forall k :: 0 <= k < i ==> result[k] == (if s[k] == what then with else s[k])
    {
      result := result[i := if s[i] == what then with else s[i]];
      i := i + 1;
    }
    r := result;
  }

  /** `replace(String what, String with)`: the search for `what` never
      succeeds, so the receiver comes back unchanged unless the search
      itself fails. */
  function ReplaceString(s: seq<char>, what: seq<char>, with: seq<char>): (r: Result<seq<char>>)
    ensures r.Ok? ==> r.value == s
    ensures r.Err? <==> |s| > 0 && |what| > 1
  {
    var index :- IndexOfString(s, what);
    // A successful search answers -1, so only the `return this` branch is taken.
    assert index == -1;
    Ok(s)
  }
}
