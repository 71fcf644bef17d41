/** Method descriptors of the cross compiler (`cross/.../ParsedMethodDescriptor`):
    a hand scanner with no up-front validation that keeps parameter and
    return types as raw text. */
module CrossMethodDescriptor {
  import opened Wrappers
  import opened Text
  import FieldDescriptor
  import MethodDescriptor

  datatype CrossMethod = CrossMethod(parameterTypes: seq<string>, returnType: string)

  /** The letters `parseFieldType` accepts as a complete primitive type. */
  predicate IsScannedBaseType(c: char) {
    c == 'B' || c == 'C' || c == 'D' || c == 'F' || c == 'I' || c == 'J' || c == 'S' || c == 'Z'
  }

  /** Texts laid end to end. */
  function Concat(parts: seq<string>): string
  {
    if |parts| == 0 then "" else parts[0] + Concat(parts[1..])
  }

  /** `parseFieldType(s, start)`: skip '[', then a primitive letter ends the
      type, 'L' extends it to the next ';', anything else is refused. With no
      ';' left, `substring(start, 0)` fails, since `start` is at least 1. */
  function ParseFieldType(s: string, start: nat): (r: Result<string>)
    requires start >= 1
    ensures r.Ok? ==> 0 < |r.value| && start + |r.value| <= |s|
  {
    var last :- MethodDescriptor.SkipBrackets(s, start);
    var c := s[last];
    if IsScannedBaseType(c) then Ok(s[start..last + 1])
    else if c != 'L' then Err(Runtime("invalid field or method descriptor, found field type starting with " + [c]))
    else
      var semicolon := IndexOfFrom(s, ';', last);
      if semicolon == -1 then
        Err(IndexOutOfBounds("begin " + NatToString(start) + ", end 0, length " + NatToString(|s|)))
      else
        Ok(s[start..semicolon + 1])
  }

  /** A field type the scanner accepts is the text it starts at. */
  lemma ParseFieldTypeIsText(s: string, start: nat)
    requires start >= 1 && ParseFieldType(s, start).Ok?
    ensures TextAt(s, start, ParseFieldType(s, start).value)
  {
  }

  /** The parameter loop: parse at `pos` and advance by the text's length
      while `pos` is before `close`. */
  function ScanParameters(s: string, pos: nat, close: int): (r: Result<seq<string>>)
    requires pos >= 1
    ensures r.Ok? && pos < close ==> |r.value| > 0
    decreases |s| - pos
  {
    if pos >= close then Ok([])
    else
      var fd :- ParseFieldType(s, pos);
      var rest :- ScanParameters(s, pos + |fd|, close);
      Ok([fd] + rest)
  }

  /** `ps`, laid end to end from `pos`, is text of `s`, and no part of it
      is empty. */
  predicate LaidOut(s: string, pos: nat, ps: seq<string>)
  {
    && TextAt(s, pos, Concat(ps))
    && forall i :: 0 <= i < |ps| ==> |ps[i]| > 0
  }

  /** The parameters the loop collects are, laid end to end, exactly the
      text it consumed, and the loop stops at or after `close`. */
  lemma {:induction false} ScanParametersConsumes(s: string, pos: nat, close: int)
    requires 1 <= pos <= |s|
    requires ScanParameters(s, pos, close).Ok?
    ensures var ps := ScanParameters(s, pos, close).value;
            LaidOut(s, pos, ps) && pos + |Concat(ps)| >= close
    decreases |s| - pos
  {
    if pos < close {
      var fd, rest := ScanParametersUnfold(s, pos, close);
      ScanParametersConsumes(s, pos + |fd|, close);
      ConsumesStep(s, pos, fd, rest);
    } else {
      assert ScanParameters(s, pos, close).value == [];
    }
  }

  /** The text of one parameter followed by the texts of the rest. */
  lemma ConsumesStep(s: string, pos: nat, fd: string, rest: seq<string>)
    requires 0 < |fd| && TextAt(s, pos, fd)
    requires LaidOut(s, pos + |fd|, rest)
    ensures Concat([fd] + rest) == fd + Concat(rest)
    ensures LaidOut(s, pos, [fd] + rest)
  {
    var ps := [fd] + rest;
    assert ps[1..] == rest;
    TextAtJoin(s, pos, fd, Concat(rest));
    assert forall i :: 1 <= i < |ps| ==> ps[i] == rest[i - 1];
  }

  /** One round of the parameter loop, taken apart. */
  lemma ScanParametersUnfold(s: string, pos: nat, close: int) returns (fd: string, rest: seq<string>)
    requires 1 <= pos < close
    requires ScanParameters(s, pos, close).Ok?
    ensures ParseFieldType(s, pos) == Ok(fd) && TextAt(s, pos, fd)
    ensures ScanParameters(s, pos + |fd|, close) == Ok(rest)
    ensures ScanParameters(s, pos, close).value == [fd] + rest
  {
    fd := ParseFieldType(s, pos).value;
    rest := ScanParameters(s, pos + |fd|, close).value;
    ParseFieldTypeIsText(s, pos);
  }

  /** `new ParsedMethodDescriptor(s)`. */
  function Parse(s: string): (r: Result<CrossMethod>)
    ensures (|s| == 0 || s[0] != '(') ==> r == Err(Runtime("missing opening parenthesis in method descriptor: " + s))
    ensures |s| > 0 && s[0] == '(' && ')' !in s ==> r == Err(Runtime("missing closing parenthesis in method descriptor: " + s))
    ensures r.Ok? ==> r.value.returnType == s[IndexOf(s, ')') + 1..]
  {
    if |s| == 0 || s[0] != '(' then Err(Runtime("missing opening parenthesis in method descriptor: " + s))
    else
      var close := IndexOf(s, ')');
      if close == -1 then Err(Runtime("missing closing parenthesis in method descriptor: " + s))
      else
        var params :- ScanParameters(s, 1, close);
        Ok(CrossMethod(params, s[close + 1..]))
  }

  /** What the constructor accepts: the parameters are the text from index 1
      on, up to or past the first ')', and the return type is the raw rest. */
  lemma ParseConsumes(s: string)
    requires Parse(s).Ok?
    ensures var m := Parse(s).value;
            var close := IndexOf(s, ')');
            && 1 + |Concat(m.parameterTypes)| <= |s|
            && s[1..1 + |Concat(m.parameterTypes)|] == Concat(m.parameterTypes)
            && 1 + |Concat(m.parameterTypes)| >= close
            && m.returnType == s[close + 1..]
  {
    ScanParametersConsumes(s, 1, IndexOf(s, ')'));
    TextAtIsSlice(s, 1, Concat(Parse(s).value.parameterTypes));
  }

  /** The words one parameter occupies: 2 only for exactly "J" or "D". */
  function ParameterTextWords(p: string): nat
  {
    if p == "J" || p == "D" then 2 else 1
  }

  /** `getParameterWords()`. */
  function ParameterWords(params: seq<string>): (n: nat)
    ensures |params| <= n <= 2 * |params|
  {
    if |params| == 0 then 0 else ParameterTextWords(params[0]) + ParameterWords(params[1..])
  }

  /** The texts of the compiler generation's descriptors. */
  function Texts(params: seq<FieldDescriptor.Descriptor>): (r: seq<string>)
    ensures |r| == |params|
  {
    if |params| == 0 then [] else [FieldDescriptor.ToString(params[0])] + Texts(params[1..])
  }

  /** The cross scanner reads a scanner-safe descriptor's text back as that
      same text. */
  lemma ParseFieldTypeOfText(s: string, pos: nat, d: FieldDescriptor.Descriptor)
    requires pos >= 1
    requires MethodDescriptor.ScannerSafe(d)
    requires TextAt(s, pos, FieldDescriptor.ToString(d))
    ensures ParseFieldType(s, pos) == Ok(FieldDescriptor.ToString(d))
  {
    var t := FieldDescriptor.ToString(d);
    var last := pos + d.dimension;
    MethodDescriptor.LayoutOfText(s, pos, d);
    TextAtIsSlice(s, pos, t);
    MethodDescriptor.SkipBracketRun(s, pos, d.dimension);
    if d.leafBaseType == 'L' {
      IndexOfFromFirst(s, ';', last, pos + |t| - 1);
      ParseFieldTypeOfClass(s, pos, last, pos + |t| - 1);
    } else {
      ParseFieldTypeOfBase(s, pos, last);
    }
  }

  /** A primitive letter after the brackets ends the type. */
  lemma ParseFieldTypeOfBase(s: string, start: nat, last: nat)
    requires 1 <= start && MethodDescriptor.SkipBrackets(s, start) == Ok(last)
    requires IsScannedBaseType(s[last])
    ensures ParseFieldType(s, start) == Ok(s[start..last + 1])
  {
  }

  /** Any other letter after the brackets is refused, naming the letter;
      an 'L' with no ';' after it fails in `substring`. */
  lemma ParseFieldTypeRefuses(s: string, start: nat, last: nat)
    requires 1 <= start && MethodDescriptor.SkipBrackets(s, start) == Ok(last)
    requires !IsScannedBaseType(s[last]) && (s[last] != 'L' || ';' !in s[last..])
    ensures ParseFieldType(s, start).Err?
    ensures s[last] != 'L' ==>
      ParseFieldType(s, start).error == Runtime("invalid field or method descriptor, found field type starting with " + [s[last]])
  {
  }

  /** An 'L' after the brackets extends the type to the next ';'. */
  lemma ParseFieldTypeOfClass(s: string, start: nat, last: nat, semicolon: nat)
    requires 1 <= start && MethodDescriptor.SkipBrackets(s, start) == Ok(last)
    requires s[last] == 'L' && IndexOfFrom(s, ';', last) == semicolon
    ensures ParseFieldType(s, start) == Ok(s[start..semicolon + 1])
  {
  }

  lemma {:induction false} ConcatTexts(params: seq<FieldDescriptor.Descriptor>)
    ensures Concat(Texts(params)) == MethodDescriptor.ParameterText(params)
    decreases |params|
  {
    if |params| > 0 {
      ConcatTexts(params[1..]);
      assert Texts(params)[1..] == Texts(params[1..]);
    }
  }

  /** The cross scanner reads a scanner-safe parameter list that ends right
      at `close` as the texts of its parameters. */
  lemma {:induction false} ScanParametersOfText(s: string, pos: nat, close: nat, params: seq<FieldDescriptor.Descriptor>)
    requires pos >= 1
    requires forall i :: 0 <= i < |params| ==> MethodDescriptor.ScannerSafe(params[i])
    requires TextAt(s, pos, MethodDescriptor.ParameterText(params))
    requires close == pos + |MethodDescriptor.ParameterText(params)|
    ensures ScanParameters(s, pos, close) == Ok(Texts(params))
    decreases |params|
  {
    if |params| > 0 {
      var head := FieldDescriptor.ToString(params[0]);
      TextAfterHead(s, pos, params);
      MethodDescriptor.SafeTail(params);
      ScanParametersOfText(s, pos + |head|, close, params[1..]);
      ScanParametersStep(s, pos, close, params);
    } else {
      assert Texts(params) == [];
    }
  }

  /** The rest of the parameter text follows the first parameter's. */
  lemma TextAfterHead(s: string, pos: nat, params: seq<FieldDescriptor.Descriptor>)
    requires |params| > 0
    requires TextAt(s, pos, MethodDescriptor.ParameterText(params))
    ensures var head := FieldDescriptor.ToString(params[0]);
            var rest := MethodDescriptor.ParameterText(params[1..]);
            && TextAt(s, pos, head) && TextAt(s, pos + |head|, rest)
            && |MethodDescriptor.ParameterText(params)| == |head| + |rest|
  {
    var head := FieldDescriptor.ToString(params[0]);
    var rest := MethodDescriptor.ParameterText(params[1..]);
    assert MethodDescriptor.ParameterText(params) == head + rest;
    TextAtSplit(s, pos, head, rest);
  }

  /** One round of the parameter loop over a rendered parameter list. */
  lemma ScanParametersStep(s: string, pos: nat, close: nat, params: seq<FieldDescriptor.Descriptor>)
    requires pos >= 1 && |params| > 0
    requires MethodDescriptor.ScannerSafe(params[0])
    requires TextAt(s, pos, FieldDescriptor.ToString(params[0]))
    requires pos < close
    requires ScanParameters(s, pos + |FieldDescriptor.ToString(params[0])|, close) == Ok(Texts(params[1..]))
    ensures ScanParameters(s, pos, close) == Ok(Texts(params))
  {
    var head := FieldDescriptor.ToString(params[0]);
    var rest := Texts(params[1..]);
    ParseFieldTypeOfText(s, pos, params[0]);
    ScanParametersRound(s, pos, close, head, rest);
    assert Texts(params) == [head] + rest;
  }

  /** One round of the parameter loop, put together. */
  lemma ScanParametersRound(s: string, pos: nat, close: int, fd: string, rest: seq<string>)
    requires 1 <= pos < close
    requires ParseFieldType(s, pos) == Ok(fd)
    requires ScanParameters(s, pos + |fd|, close) == Ok(rest)
    ensures ScanParameters(s, pos, close) == Ok([fd] + rest)
  {
  }

  /** The return type text of a method type. */
  function ReturnText(m: MethodDescriptor.MethodType): string
  {
    if m.returnType.None? then "V" else FieldDescriptor.ToString(m.returnType.value)
  }

  /** On every descriptor both generations read the same way, the cross
      scanner yields exactly the texts of the compiler generation's parsed
      parameters and return type. */
  lemma AgreesWithCompilerParser(m: MethodDescriptor.MethodType)
    requires MethodDescriptor.AllScannerSafe(m)
    ensures Parse(MethodDescriptor.ToString(m)) == Ok(CrossMethod(Texts(m.parameterTypes), ReturnText(m)))
  {
    var s := MethodDescriptor.ToString(m);
    var close := |MethodDescriptor.ParameterText(m.parameterTypes)| + 1;
    MethodDescriptor.FirstParenOfText(m);
    MethodDescriptor.ParametersAt(m);
    ScanParametersOfText(s, 1, close, m.parameterTypes);
    ReturnTextAt(m);
    ParseOfParts(s, close, Texts(m.parameterTypes), ReturnText(m));
  }

  /** A method type's text ends, after the first ')', with its return type
      text. */
  lemma ReturnTextAt(m: MethodDescriptor.MethodType)
    ensures var s := MethodDescriptor.ToString(m);
            s[|MethodDescriptor.ParameterText(m.parameterTypes)| + 2..] == ReturnText(m)
  {
  }

  /** The constructor put together from the first ')', the parameter loop
      and the rest of the text. */
  lemma ParseOfParts(s: string, close: nat, ps: seq<string>, ret: string)
    requires |s| > 0 && s[0] == '(' && close < |s|
    requires IndexOf(s, ')') == close
    requires ScanParameters(s, 1, close) == Ok(ps)
    requires s[close + 1..] == ret
    ensures Parse(s) == Ok(CrossMethod(ps, ret))
  {
  }

  /** Both generations count the same parameter words: the cross rule "2 for
      exactly J or D" is the compiler rule "2 for a non-array long or
      double". */
  lemma {:induction false} ParameterWordsAgree(params: seq<FieldDescriptor.Descriptor>)
    ensures ParameterWords(Texts(params)) == MethodDescriptor.ParameterWords(params)
    decreases |params|
  {
    if |params| > 0 {
      ParameterWordsAgree(params[1..]);
      assert Texts(params)[1..] == Texts(params[1..]);
      var w := FieldDescriptor.Words(params[0]);
    }
  }
}
