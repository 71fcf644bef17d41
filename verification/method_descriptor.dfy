/** Parsed JVM method descriptors of the compiler generation
    (`compiler/.../descriptor/ParsedMethodDescriptor`), the MethodDescriptor
    grammar of section 4.3.3 of The Java Virtual Machine Specification.

    The text is first validated against `\((FD)*\)(V|FD)`, FD being the
    field-descriptor pattern, and then scanned by hand: parameters run from
    index 1 up to the FIRST ')', each one ends at the first ';' after an 'L'.
    Because FD's `L.*;` lets a class name hold ';' and ')', the two views can
    disagree; the round trip below is therefore stated for class names free
    of both characters. */
module MethodDescriptor {
  import opened Wrappers
  import opened Text
  import opened FieldDescriptor

  /** `(FD)*` against a whole string: empty, or a field descriptor followed
      by more of them. */
  predicate MatchesFieldSeq(t: string)
    decreases |t|
  {
    |t| == 0 || exists j :: 1 <= j <= |t| && MatchesFieldPattern(t[..j]) && MatchesFieldSeq(t[j..])
  }

  /** `\((FD)*\)(V|FD)` against the whole descriptor; `k` is the ')' the
      regex settles on, which need not be the first one. */
  predicate MatchesMethodPattern(s: string) {
    && |s| > 0 && s[0] == '('
    && exists k :: 1 <= k < |s| && s[k] == ')' && MatchesFieldSeq(s[1..k])
                   && (s[k + 1..] == "V" || MatchesFieldPattern(s[k + 1..]))
  }

  /** Parameters in order, and the return type (`null` for void). */
  datatype MethodType = MethodType(parameterTypes: seq<Descriptor>, returnType: Option<Descriptor>)

  /** `charAt` beyond the end of the text. */
  function OutOfRange(s: string, p: int): Exception {
    IndexOutOfBounds("index " + IntToString(p) + ", length " + NatToString(|s|))
  }

  /** `while (s.charAt(p) == '[') p++`. */
  function SkipBrackets(s: string, p: nat): (r: Result<nat>)
    ensures r.Ok? ==> p <= r.value < |s| && s[r.value] != '['
    decreases |s| - p
  {
    if p >= |s| then Err(OutOfRange(s, p))
    else if s[p] == '[' then SkipBrackets(s, p + 1)
    else Ok(p)
  }

  /** What `SkipBrackets` passes over is all brackets. */
  lemma {:induction false} SkipBracketsSkipsRun(s: string, p: nat)
    requires SkipBrackets(s, p).Ok?
    ensures forall i :: p <= i < SkipBrackets(s, p).value ==> s[i] == '['
    decreases |s| - p
  {
    if s[p] == '[' {
      SkipBracketsSkipsRun(s, p + 1);
    }
  }

  /** `while (s.charAt(p) != c) p++`. */
  function ScanTo(s: string, p: nat, c: char): (r: Result<nat>)
    ensures r.Ok? ==> p <= r.value < |s| && s[r.value] == c
    decreases |s| - p
  {
    if p >= |s| then Err(OutOfRange(s, p))
    else if s[p] == c then Ok(p)
    else ScanTo(s, p + 1, c)
  }

  /** `ScanTo` passes over no occurrence of `c`. */
  lemma {:induction false} ScanToSkips(s: string, p: nat, c: char)
    requires ScanTo(s, p, c).Ok?
    ensures forall i :: p <= i < ScanTo(s, p, c).value ==> s[i] != c
    decreases |s| - p
  {
    if s[p] != c {
      ScanToSkips(s, p + 1, c);
    }
  }

  /** `parseFieldType`'s position arithmetic: the end (exclusive) of the
      field descriptor that starts at `start`. */
  function ScanFieldEnd(s: string, start: nat): (r: Result<nat>)
    ensures r.Ok? ==> start < r.value <= |s|
  {
    var last :- SkipBrackets(s, start);
    if s[last] == 'L' then
      var semicolon :- ScanTo(s, last, ';');
      Ok(semicolon + 1)
    else
      Ok(last + 1)
  }

  /** The parameter loop: scan, parse, repeat while before `close`. */
  function ScanParameters(s: string, pos: nat, close: int): (r: Result<seq<Descriptor>>)
    decreases |s| - pos
  {
    if pos >= close then Ok([])
    else
      var end :- ScanFieldEnd(s, pos);
      var d :- FieldDescriptor.Parse(s[pos..end]);
      var rest :- ScanParameters(s, end, close);
      Ok([d] + rest)
  }

  /** The return-type step: 'V' gives `null`, anything else is parsed as a
      field descriptor. */
  function ParseReturnType(s: string, pos: nat): (r: Result<Option<Descriptor>>)
    ensures r.Ok? ==> pos < |s|
    ensures r.Ok? && r.value.None? ==> s[pos] == 'V'
  {
    if pos >= |s| then Err(OutOfRange(s, pos))
    else if s[pos] == 'V' then Ok(None)
    else
      var ret :- FieldDescriptor.Parse(s[pos..]);
      Ok(Some(ret))
  }

  /** The constructor after validation: parameters up to the first ')',
      then the return type. */
  function ParseValidated(s: string): (r: Result<MethodType>)
  {
    var close := IndexOf(s, ')');
    var params :- ScanParameters(s, 1, close);
    var ret :- ParseReturnType(s, close + 1);
    Ok(MethodType(params, ret))
  }

  /** `new ParsedMethodDescriptor(s)`. */
  function Parse(s: string): (r: Result<MethodType>)
    ensures !MatchesMethodPattern(s) ==> r == Err(IllegalArgument("invalid descriptor: " + s))
    ensures r.Ok? ==> MatchesMethodPattern(s)
  {
    if !MatchesMethodPattern(s) then Err(IllegalArgument("invalid descriptor: " + s))
    else ParseValidated(s)
  }

  /** `getParameterWords()`: the parameters' word counts added up. */
  function ParameterWords(params: seq<Descriptor>): (n: nat)
    ensures |params| <= n <= 2 * |params|
  {
    if |params| == 0 then 0 else Words(params[0]) + ParameterWords(params[1..])
  }

  /** `getReturnWords()`: 0 for void. */
  function ReturnWords(m: MethodType): (n: nat)
    ensures n <= 2
    ensures n == 0 <==> m.returnType.None?
  {
    if m.returnType.None? then 0 else Words(m.returnType.value)
  }

  /** The parameters' texts laid end to end. */
  function ParameterText(params: seq<FieldType>): string
  {
    if |params| == 0 then "" else FieldDescriptor.ToString(params[0]) + ParameterText(params[1..])
  }

  /** The descriptor text of a method type. */
  function ToString(m: MethodType): string
  {
    "(" + ParameterText(m.parameterTypes) + ")"
      + (if m.returnType.None? then "V" else FieldDescriptor.ToString(m.returnType.value))
  }

  /** A class name the hand scanner reads the same way as the regex. */
  predicate ScannerSafe(d: FieldType) {
    d.leafClass.None? || (';' !in d.leafClass.value && ')' !in d.leafClass.value)
  }

  predicate AllScannerSafe(m: MethodType) {
    && (forall i :: 0 <= i < |m.parameterTypes| ==> ScannerSafe(m.parameterTypes[i]))
    && (m.returnType.Some? ==> ScannerSafe(m.returnType.value))
  }

  /** A descriptor's text has no ')' when its class name has none. */
  lemma FieldTextHasNoParen(d: Descriptor)
    requires ScannerSafe(d)
    ensures ')' !in FieldDescriptor.ToString(d)
    ensures |FieldDescriptor.ToString(d)| > 0 && FieldDescriptor.ToString(d)[0] != 'V'
  {
    var t := FieldDescriptor.ToString(d);
    var tail := if d.leafClass.Some? then d.leafClass.value + ";" else "";
    assert t == Repeat('[', d.dimension) + [d.leafBaseType] + tail;
    forall i | 0 <= i < |t| ensures t[i] != ')' {
      if i < d.dimension {
        assert t[i] == '[';
      } else if i == d.dimension {
        assert t[i] == d.leafBaseType;
      } else {
        assert t[i] == tail[i - d.dimension - 1];
      }
    }
    if d.dimension == 0 {
      assert t[0] == d.leafBaseType;
    }
  }

  lemma {:induction false} ParameterTextHasNoParen(params: seq<Descriptor>)
    requires forall i :: 0 <= i < |params| ==> ScannerSafe(params[i])
    ensures ')' !in ParameterText(params)
    decreases |params|
  {
    if |params| > 0 {
      FieldTextHasNoParen(params[0]);
      ParameterTextHasNoParen(params[1..]);
    }
  }

  lemma {:induction false} ParameterTextMatches(params: seq<Descriptor>)
    ensures MatchesFieldSeq(ParameterText(params))
    decreases |params|
  {
    if |params| > 0 {
      var t := ParameterText(params);
      var head := FieldDescriptor.ToString(params[0]);
      ToStringParses(params[0]);
      ParameterTextMatches(params[1..]);
      FieldTextLength(params[0]);
      assert t[..|head|] == head;
      assert t[|head|..] == ParameterText(params[1..]);
    }
  }

  lemma FieldTextLength(d: FieldType)
    ensures |FieldDescriptor.ToString(d)| > 0
  {
  }

  /** The rendering of a method type matches the validating pattern. */
  lemma ToStringMatches(m: MethodType)
    ensures MatchesMethodPattern(ToString(m))
  {
    var s := ToString(m);
    var p := ParameterText(m.parameterTypes);
    var k := |p| + 1;
    ParameterTextMatches(m.parameterTypes);
    assert s[1..k] == p;
    assert s[k] == ')';
    if m.returnType.Some? {
      ToStringParses(m.returnType.value);
      assert s[k + 1..] == FieldDescriptor.ToString(m.returnType.value);
    } else {
      assert s[k + 1..] == "V";
    }
  }

  /** `SkipBrackets` stops at the end of a run of `n` brackets. */
  lemma {:induction false} SkipBracketRun(s: string, p: nat, n: nat)
    requires p + n < |s| && s[p + n] != '['
    requires forall i :: p <= i < p + n ==> s[i] == '['
    ensures SkipBrackets(s, p) == Ok(p + n)
    decreases n
  {
    if n > 0 {
      SkipBracketRun(s, p + 1, n - 1);
    }
  }

  /** `ScanTo` stops at the first occurrence at or after `p`. */
  lemma {:induction false} ScanToFirst(s: string, p: nat, q: nat, c: char)
    requires p <= q < |s| && s[q] == c
    requires forall i :: p <= i < q ==> s[i] != c
    ensures ScanTo(s, p, c) == Ok(q)
    decreases q - p
  {
    if p < q {
      ScanToFirst(s, p + 1, q, c);
    }
  }

  /** Where a scanner-safe descriptor's text occurs: its brackets, its leaf
      letter, and for a class the first ';' after that letter closing it. */
  lemma LayoutOfText(s: string, pos: nat, d: Descriptor)
    requires ScannerSafe(d)
    requires TextAt(s, pos, FieldDescriptor.ToString(d))
    ensures pos + d.dimension < |s| && s[pos + d.dimension] == d.leafBaseType
    ensures forall i :: pos <= i < pos + d.dimension ==> s[i] == '['
    ensures d.leafBaseType != 'L' ==> |FieldDescriptor.ToString(d)| == d.dimension + 1
    ensures d.leafBaseType == 'L' ==>
              var q := pos + |FieldDescriptor.ToString(d)| - 1;
              && s[q] == ';'
              && forall i :: pos + d.dimension <= i < q ==> s[i] != ';'
  {
    var t := FieldDescriptor.ToString(d);
    var tail := if d.leafClass.Some? then d.leafClass.value + ";" else "";
    assert t == Repeat('[', d.dimension) + [d.leafBaseType] + tail;
    assert t[d.dimension] == d.leafBaseType;
    assert forall i :: pos <= i < pos + d.dimension ==> s[i] == t[i - pos] == '[';
    if d.leafBaseType == 'L' {
      var name := d.leafClass.value;
      var q := pos + |t| - 1;
      assert t[|t| - 1] == ';';
      forall i | pos + d.dimension <= i < q ensures s[i] != ';' {
        if i > pos + d.dimension {
          assert s[i] == t[i - pos] == name[i - pos - d.dimension - 1];
        }
      }
    }
  }

  /** Scanning a scanner-safe descriptor's text ends exactly after it. */
  lemma ScanFieldEndOfText(s: string, pos: nat, d: Descriptor)
    requires ScannerSafe(d)
    requires TextAt(s, pos, FieldDescriptor.ToString(d))
    ensures ScanFieldEnd(s, pos) == Ok(pos + |FieldDescriptor.ToString(d)|)
  {
    LayoutOfText(s, pos, d);
    SkipBracketRun(s, pos, d.dimension);
    if d.leafBaseType == 'L' {
      ScanToFirst(s, pos + d.dimension, pos + |FieldDescriptor.ToString(d)| - 1, ';');
    }
  }

  /** The parameter loop reads back every scanner-safe parameter list that
      ends right at `close`. */
  lemma {:induction false} ScanParametersOfText(s: string, pos: nat, close: nat, params: seq<Descriptor>)
    requires forall i :: 0 <= i < |params| ==> ScannerSafe(params[i])
    requires TextAt(s, pos, ParameterText(params))
    requires close == pos + |ParameterText(params)|
    ensures ScanParameters(s, pos, close) == Ok(params)
    decreases |params|
  {
    if |params| > 0 {
      var head := FieldDescriptor.ToString(params[0]);
      ParameterTextAfterHead(s, pos, params);
      SafeTail(params);
      ScanParametersOfText(s, pos + |head|, close, params[1..]);
      ScanParametersStep(s, pos, close, params[0], params[1..]);
      ConsTail(params);
    } else {
      assert ScanParameters(s, pos, close) == Ok([]);
    }
  }

  lemma ConsTail(params: seq<Descriptor>)
    requires |params| > 0
    ensures [params[0]] + params[1..] == params
  {
  }

  lemma SafeTail(params: seq<Descriptor>)
    requires |params| > 0 && forall i :: 0 <= i < |params| ==> ScannerSafe(params[i])
    ensures forall i :: 0 <= i < |params[1..]| ==> ScannerSafe(params[1..][i])
  {
    forall i | 0 <= i < |params[1..]| ensures ScannerSafe(params[1..][i]) {
      assert params[1..][i] == params[i + 1];
    }
  }

  /** The rest of a parameter text follows the first parameter's text. */
  lemma ParameterTextAfterHead(s: string, pos: nat, params: seq<Descriptor>)
    requires |params| > 0
    requires TextAt(s, pos, ParameterText(params))
    ensures var head := FieldDescriptor.ToString(params[0]);
            var rest := ParameterText(params[1..]);
            && |head| > 0 && TextAt(s, pos, head) && TextAt(s, pos + |head|, rest)
            && |ParameterText(params)| == |head| + |rest|
  {
    var head := FieldDescriptor.ToString(params[0]);
    var rest := ParameterText(params[1..]);
    assert ParameterText(params) == head + rest;
    FieldTextLength(params[0]);
    TextAtSplit(s, pos, head, rest);
  }

  /** One round of the parameter loop over a rendered descriptor. */
  lemma ScanParametersStep(s: string, pos: nat, close: int, d: Descriptor, rest: seq<Descriptor>)
    requires ScannerSafe(d)
    requires TextAt(s, pos, FieldDescriptor.ToString(d))
    requires pos < close
    requires ScanParameters(s, pos + |FieldDescriptor.ToString(d)|, close) == Ok(rest)
    ensures ScanParameters(s, pos, close) == Ok([d] + rest)
  {
    var t := FieldDescriptor.ToString(d);
    ScanFieldEndOfText(s, pos, d);
    ToStringParses(d);
    TextAtIsSlice(s, pos, t);
    ScanParametersRound(s, pos, close, pos + |t|, d, rest);
  }

  /** One round of the parameter loop. */
  lemma ScanParametersRound(s: string, pos: nat, close: int, end: nat, d: Descriptor, rest: seq<Descriptor>)
    requires pos < close
    requires ScanFieldEnd(s, pos) == Ok(end)
    requires FieldDescriptor.Parse(s[pos..end]) == Ok(d)
    requires ScanParameters(s, end, close) == Ok(rest)
    ensures ScanParameters(s, pos, close) == Ok([d] + rest)
  {
  }

  /** In a rendered method type, the first ')' is the one after the
      parameters. */
  lemma FirstParenOfText(m: MethodType)
    requires forall i :: 0 <= i < |m.parameterTypes| ==> ScannerSafe(m.parameterTypes[i])
    ensures IndexOf(ToString(m), ')') == |ParameterText(m.parameterTypes)| + 1
  {
    var s := ToString(m);
    var p := ParameterText(m.parameterTypes);
    ParameterTextHasNoParen(m.parameterTypes);
    var k := |p| + 1;
    assert s[k] == ')';
    assert s[..k] == "(" + p;
    assert ')' !in s[..k];
  }

  /** Round trip: a method type whose class names hold neither ';' nor ')'
      prints to text the constructor accepts and reads back unchanged. */
  lemma ToStringParsesBack(m: MethodType)
    requires AllScannerSafe(m)
    ensures Parse(ToString(m)) == Ok(m)
  {
    var s := ToString(m);
    ToStringMatches(m);
    FirstParenOfText(m);
    ParametersOfText(m);
    ReturnTypeOfText(m);
    ParseOfParts(s, m);
  }

  lemma ParametersOfText(m: MethodType)
    requires AllScannerSafe(m)
    ensures ScanParameters(ToString(m), 1, |ParameterText(m.parameterTypes)| + 1) == Ok(m.parameterTypes)
  {
    ParametersAt(m);
    ScanParametersOfText(ToString(m), 1, |ParameterText(m.parameterTypes)| + 1, m.parameterTypes);
  }

  /** A method type's text holds its parameter text from index 1 on. */
  lemma ParametersAt(m: MethodType)
    ensures TextAt(ToString(m), 1, ParameterText(m.parameterTypes))
  {
    var s := ToString(m);
    var p := ParameterText(m.parameterTypes);
    assert s[1..|p| + 1] == p;
    TextAtIsSlice(s, 1, p);
  }

  lemma ReturnTypeOfText(m: MethodType)
    requires AllScannerSafe(m)
    ensures ParseReturnType(ToString(m), |ParameterText(m.parameterTypes)| + 2) == Ok(m.returnType)
  {
    var s := ToString(m);
    var pos := |ParameterText(m.parameterTypes)| + 2;
    var r := if m.returnType.None? then "V" else FieldDescriptor.ToString(m.returnType.value);
    assert s[pos..] == r;
    if m.returnType.Some? {
      var d := m.returnType.value;
      FieldTextHasNoParen(d);
      ToStringParses(d);
    }
  }

  lemma ParseOfParts(s: string, m: MethodType)
    requires MatchesMethodPattern(s)
    requires ScanParameters(s, 1, IndexOf(s, ')')) == Ok(m.parameterTypes)
    requires ParseReturnType(s, IndexOf(s, ')') + 1) == Ok(m.returnType)
    ensures Parse(s) == Ok(m)
  {
    ParseIsValidated(s);
    assert ParseValidated(s) == Ok(m);
  }

  /** Past validation, the constructor is the hand scanner. */
  lemma ParseIsValidated(s: string)
    requires MatchesMethodPattern(s)
    ensures Parse(s) == ParseValidated(s)
  {
  }

  /** The parameter words of a method type read back from its text. */
  lemma WordsOfParsedText(m: MethodType)
    requires AllScannerSafe(m)
    ensures Parse(ToString(m)).Ok?
    ensures ParameterWords(Parse(ToString(m)).value.parameterTypes) == ParameterWords(m.parameterTypes)
    ensures ReturnWords(Parse(ToString(m)).value) == ReturnWords(m)
  {
    ToStringParsesBack(m);
  }

  /** With ')' inside a class name, the pattern accepts text that the hand
      scanner then splits at the wrong ')': "(LA)B;)V" passes validation. */
  lemma ParenInClassNameMatches()
    ensures MatchesMethodPattern("(LA)B;)V")
  {
    var s := "(LA)B;)V";
    var t := s[1..6];
    assert t == "LA)B;";
    assert t[..5] == t && t[5..] == "";
    assert MatchesFieldPattern(t[..5]);
    assert MatchesFieldSeq(t);
    assert s[7..] == "V";
  }

  /** ... and the constructor then fails on the return type "B;)V". */
  lemma ParenInClassNameFailsLate()
    ensures Parse("(LA)B;)V") == Err(IllegalArgument("invalid descriptor: B;)V"))
  {
    ParenInClassNameMatches();
    ParenExampleFirstParen();
    ParenExampleParameters();
    ParenExampleReturnType();
    FailureOfParts("(LA)B;)V", IllegalArgument("invalid descriptor: B;)V"));
  }

  lemma ParenExampleFirstParen()
    ensures IndexOf("(LA)B;)V", ')') == 3
  {
  }

  lemma ParenExampleParameters()
    ensures ScanParameters("(LA)B;)V", 1, 3).Ok?
  {
    var s := "(LA)B;)V";
    ScanToFirst(s, 1, 5, ';');
    assert ScanFieldEnd(s, 1) == Ok(6);
    assert s[1..6] == "LA)B;";
    assert MatchesFieldPattern(s[1..6]);
    var d := FieldDescriptor.Parse(s[1..6]).value;
    assert ScanParameters(s, 6, 3) == Ok([]);
    ScanParametersRound(s, 1, 3, 6, d, []);
  }

  lemma ParenExampleReturnType()
    ensures ParseReturnType("(LA)B;)V", 4) == Err(IllegalArgument("invalid descriptor: B;)V"))
  {
    var s := "(LA)B;)V";
    assert s[4..] == "B;)V";
    assert !MatchesFieldPattern("B;)V");
    ParseMeaning("B;)V");
  }

  lemma FailureOfParts(s: string, e: Exception)
    requires MatchesMethodPattern(s)
    requires ScanParameters(s, 1, IndexOf(s, ')')).Ok?
    requires ParseReturnType(s, IndexOf(s, ')') + 1) == Err(e)
    ensures Parse(s) == Err(e)
  {
    ParseIsValidated(s);
    assert ParseValidated(s) == Err(e);
  }
}
