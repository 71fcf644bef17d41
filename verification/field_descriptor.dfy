/** Parsed JVM field descriptors (`ParsedFieldDescriptor`), the FieldType
    grammar of section 4.3.2 of The Java Virtual Machine Specification as the
    compiler validates it: the regular expression `\[*([ZBSCIFJD]|L.*;)`
    matched against the whole text, where `.` is any character except a
    line terminator, so a class name may itself hold ';' or ')'. */
module FieldDescriptor {
  import opened Wrappers
  import opened Text

  /** The characters Java's regex `.` refuses when no flags are given. */
  predicate IsLineTerminator(c: char) {
    c == '\n' || c == '\r' || c == '\U{0085}' || c == '\U{2028}' || c == '\U{2029}'
  }

  predicate IsBaseType(c: char) {
    c in "ZBSCIFJD"
  }

  /** A class name that the `.*` part of the pattern accepts. */
  predicate IsPatternClassName(name: string) {
    forall i :: 0 <= i < |name| ==> !IsLineTerminator(name[i])
  }

  /** The leaf alternative `[ZBSCIFJD]|L.*;` against a whole string. */
  predicate MatchesLeaf(s: string) {
    || (|s| == 1 && IsBaseType(s[0]))
    || (|s| >= 2 && s[0] == 'L' && s[|s| - 1] == ';' && IsPatternClassName(s[1..|s| - 1]))
  }

  /** The whole pattern. A leaf never starts with '[', so the greedy `\[*`
      is the only way to split the brackets off. */
  predicate MatchesFieldPattern(s: string)
    decreases |s|
  {
    if |s| > 0 && s[0] == '[' then MatchesFieldPattern(s[1..]) else MatchesLeaf(s)
  }

  /** The three fields of a parsed descriptor; `leafClass` is `null` in the
      code for primitive leaves. */
  datatype FieldType = FieldType(dimension: nat, leafBaseType: char, leafClass: Option<string>)

  /** The states a parsed descriptor can be in. */
  predicate Valid(d: FieldType) {
    || (IsBaseType(d.leafBaseType) && d.leafClass.None?)
    || (d.leafBaseType == 'L' && d.leafClass.Some? && IsPatternClassName(d.leafClass.value))
  }

  type Descriptor = d: FieldType | Valid(d) witness FieldType(0, 'I', None)

  /** The number of leading '[' characters: the constructor's
      `while (remainder.startsWith("["))` loop. */
  function LeadingBrackets(s: string): (n: nat)
    ensures n <= |s|
    ensures n < |s| ==> s[n] != '['
    decreases |s|
  {
    if |s| > 0 && s[0] == '[' then 1 + LeadingBrackets(s[1..]) else 0
  }

  /** What `LeadingBrackets` counts is all brackets. */
  lemma {:induction false} LeadingBracketsAreBrackets(s: string)
    ensures forall i :: 0 <= i < LeadingBrackets(s) ==> s[i] == '['
    decreases |s|
  {
    if |s| > 0 && s[0] == '[' {
      LeadingBracketsAreBrackets(s[1..]);
      assert forall i :: 1 <= i < LeadingBrackets(s) ==> s[i] == s[1..][i - 1];
    }
  }

  /** `toString()`: the brackets, the leaf letter, and for classes the name
      and ';'. */
  function ToString(d: FieldType): string
  {
    Repeat('[', d.dimension) + [d.leafBaseType] + (if d.leafClass.Some? then d.leafClass.value + ";" else "")
  }

  /** The constructor's field extraction from text the pattern accepts: the
      bracket count, the first character after them, and for 'L' the text
      between it and the final character. */
  function Decompose(s: string): (d: FieldType)
    requires MatchesFieldPattern(s)
  {
    PatternSplits(s);
    var n := LeadingBrackets(s);
    var remainder := s[n..];
    FieldType(n, remainder[0], if remainder[0] == 'L' then Some(remainder[1..|remainder| - 1]) else None)
  }

  /** What `Decompose` extracts is a valid descriptor that prints back to
      the original text. */
  lemma DecomposeRoundTrip(s: string)
    requires MatchesFieldPattern(s)
    ensures Valid(Decompose(s))
    ensures ToString(Decompose(s)) == s
  {
    PatternSplits(s);
    var n := LeadingBrackets(s);
    var rem := s[n..];
    assert MatchesLeaf(rem);
    var d := Decompose(s);
    assert d == FieldType(n, rem[0], if rem[0] == 'L' then Some(rem[1..|rem| - 1]) else None);
    BracketPrefix(s, n);
    var tail := if d.leafClass.Some? then d.leafClass.value + ";" else "";
    assert ToString(d) == s[..n] + ([rem[0]] + tail);
    assert rem == [rem[0]] + tail;
    assert s == s[..n] + rem;
  }

  /** The leading brackets of `s` are `Repeat('[', n)`. */
  lemma BracketPrefix(s: string, n: nat)
    requires n == LeadingBrackets(s)
    ensures s[..n] == Repeat('[', n)
  {
    LeadingBracketsAreBrackets(s);
  }

  /** `new ParsedFieldDescriptor(s)`. */
  function Parse(s: string): Result<Descriptor>
  {
    if !MatchesFieldPattern(s) then Err(IllegalArgument("invalid descriptor: " + s))
    else
      DecomposeRoundTrip(s);
      Ok(Decompose(s))
  }

  /** The constructor accepts exactly the pattern, counts the leading
      brackets as the dimension and keeps everything it read: `toString`
      gives the input back. */
  lemma ParseMeaning(s: string)
    ensures Parse(s).Ok? <==> MatchesFieldPattern(s)
    ensures Parse(s).Err? ==> Parse(s).error == IllegalArgument("invalid descriptor: " + s)
    ensures Parse(s).Ok? ==> Parse(s).value.dimension == LeadingBrackets(s)
    ensures Parse(s).Ok? ==> ToString(Parse(s).value) == s
  {
    if MatchesFieldPattern(s) {
      DecomposeRoundTrip(s);
    }
  }

  /** The pattern is the bracket prefix followed by a leaf. */
  lemma {:induction false} PatternSplits(s: string)
    ensures MatchesFieldPattern(s) <==> MatchesLeaf(s[LeadingBrackets(s)..])
    decreases |s|
  {
    if |s| > 0 && s[0] == '[' {
      PatternSplits(s[1..]);
      assert s[1..][LeadingBrackets(s[1..])..] == s[LeadingBrackets(s)..];
    }
  }

  /** `n` brackets followed by a text that does not start with '[' match
      the pattern exactly when that text is a leaf. */
  lemma {:induction false} BracketsThenLeafMatch(n: nat, leaf: string)
    requires |leaf| > 0 && leaf[0] != '['
    ensures MatchesFieldPattern(Repeat('[', n) + leaf) <==> MatchesLeaf(leaf)
    decreases n
  {
    if n > 0 {
      BracketsThenLeafMatch(n - 1, leaf);
      var x := Repeat('[', n) + leaf;
      assert Repeat('[', n) == ['['] + Repeat('[', n - 1);
      assert x[1..] == Repeat('[', n - 1) + leaf;
    } else {
      assert Repeat('[', n) + leaf == leaf;
    }
  }

  /** The number of leading brackets of `n` brackets followed by a leaf. */
  lemma {:induction false} LeadingBracketsOfRendering(n: nat, leaf: string)
    requires |leaf| > 0 && leaf[0] != '['
    ensures LeadingBrackets(Repeat('[', n) + leaf) == n
    decreases n
  {
    if n == 0 {
      assert Repeat('[', n) + leaf == leaf;
    } else {
      LeadingBracketsOfRendering(n - 1, leaf);
      assert (Repeat('[', n) + leaf)[1..] == Repeat('[', n - 1) + leaf;
    }
  }

  /** Every descriptor prints to text the parser accepts and reads back to
      the same descriptor: `toString` is the inverse of the constructor. */
  lemma ToStringParses(d: Descriptor)
    ensures MatchesFieldPattern(ToString(d))
    ensures Parse(ToString(d)) == Ok(d)
  {
    var leaf := [d.leafBaseType] + (if d.leafClass.Some? then d.leafClass.value + ";" else "");
    assert ToString(d) == Repeat('[', d.dimension) + leaf;
    if d.leafClass.Some? {
      assert leaf[1..|leaf| - 1] == d.leafClass.value;
    }
    assert MatchesLeaf(leaf);
    BracketsThenLeafMatch(d.dimension, leaf);
    LeadingBracketsOfRendering(d.dimension, leaf);
    var s := ToString(d);
    assert s[d.dimension..] == leaf;
  }

  /** Distinct descriptors print differently. */
  lemma ToStringInjective(a: Descriptor, b: Descriptor)
    requires ToString(a) == ToString(b)
    ensures a == b
  {
    ToStringParses(a);
    ToStringParses(b);
  }

  /** `equals(Object)`: all three fields coincide. */
  predicate Equals(a: Descriptor, b: Descriptor) {
    a.dimension == b.dimension && a.leafBaseType == b.leafBaseType && a.leafClass == b.leafClass
  }

  /** Two descriptors are equal exactly when they print the same text. */
  lemma EqualsIffSameText(a: Descriptor, b: Descriptor)
    ensures Equals(a, b) <==> ToString(a) == ToString(b)
  {
    if ToString(a) == ToString(b) {
      ToStringInjective(a, b);
    }
  }

  /** A descriptor prints as the single letter `c` exactly when it is the
      plain primitive `c`. */
  lemma SingleLetterText(d: FieldType, c: char)
    ensures ToString(d) == [c] <==> (d.dimension == 0 && d.leafBaseType == c && d.leafClass.None?)
  {
    var t := ToString(d);
    assert |t| == d.dimension + 1 + (if d.leafClass.Some? then |d.leafClass.value| + 1 else 0);
    if d.dimension == 0 && d.leafClass.None? {
      assert t == [d.leafBaseType];
    }
  }

  /** The leaf letter of a plain primitive, as its text. */
  lemma PrimitiveTexts(d: FieldType)
    ensures forall c :: ToString(d) == [c] <==> (d.dimension == 0 && d.leafBaseType == c && d.leafClass.None?)
  {
    forall c ensures ToString(d) == [c] <==> (d.dimension == 0 && d.leafBaseType == c && d.leafClass.None?) {
      SingleLetterText(d, c);
    }
  }

  predicate IsArray(d: Descriptor) {
    d.dimension > 0
  }

  /** `isReferenceType()`: an array, or a class leaf. */
  predicate IsReferenceType(d: Descriptor) {
    d.leafClass.Some? || IsArray(d)
  }

  /** `getLeafBytes()`, total on the leaf letters a descriptor can hold. */
  function LeafBytes(d: Descriptor): (n: nat)
    ensures n in {1, 2, 4, 8}
  {
    match d.leafBaseType
    case 'Z' => 1
    case 'B' => 1
    case 'S' => 2
    case 'C' => 2
    case 'J' => 8
    case 'D' => 8
    case _ => 4
  }

  /** `getBytes()`: 4 for references, the leaf size otherwise. */
  function Bytes(d: Descriptor): (n: nat)
    ensures n in {1, 2, 4, 8}
    ensures n == 8 <==> ToString(d) in {"J", "D"}
    ensures n == 1 <==> ToString(d) in {"Z", "B"}
    ensures n == 2 <==> ToString(d) in {"S", "C"}
  {
    PrimitiveTexts(d);
    if IsReferenceType(d) then 4 else LeafBytes(d)
  }

  /** `getWords()`: 2 only for the non-array J and D. */
  function Words(d: Descriptor): (n: nat)
    ensures n == 1 || n == 2
    ensures n == 2 <==> ToString(d) in {"J", "D"}
    ensures n == 2 <==> Bytes(d) == 8
  {
    PrimitiveTexts(d);
    if IsReferenceType(d) then 1 else if d.leafBaseType == 'J' || d.leafBaseType == 'D' then 2 else 1
  }

  /** `isLeafSigned()`: B, S, I and D count as signed. */
  predicate IsLeafSigned(d: Descriptor) {
    d.leafBaseType == 'B' || d.leafBaseType == 'S' || d.leafBaseType == 'I' || d.leafBaseType == 'D'
  }

  /** `isSigned()`: references never are. */
  function IsSigned(d: Descriptor): (r: bool)
    ensures r <==> ToString(d) in {"B", "S", "I", "D"}
  {
    PrimitiveTexts(d);
    if IsReferenceType(d) then false else IsLeafSigned(d)
  }

  /** `getLoadInstruction()`: the RV32 load matching the field's width and
      signedness; none for 8-byte values. */
  function LoadInstruction(d: Descriptor): (r: Result<string>)
    ensures r.Err? <==> Words(d) == 2
    ensures r.Err? ==> r.error == UnsupportedOperation("no load instruction for " + ToString(d))
    ensures r == Ok("lb") <==> ToString(d) == "B"
    ensures r == Ok("lbu") <==> ToString(d) == "Z"
    ensures r == Ok("lh") <==> ToString(d) == "S"
    ensures r == Ok("lhu") <==> ToString(d) == "C"
    ensures r == Ok("lw") <==> (Bytes(d) == 4)
  {
    match Bytes(d)
    case 1 => Ok(if IsSigned(d) then "lb" else "lbu")
    case 2 => Ok(if IsSigned(d) then "lh" else "lhu")
    case 4 => Ok("lw")
    case _ => Err(UnsupportedOperation("no load instruction for " + ToString(d)))
  }

  /** `getStoreInstruction()`: the RV32 store of the field's width. */
  function StoreInstruction(d: Descriptor): (r: Result<string>)
    ensures r.Err? <==> Words(d) == 2
    ensures r.Err? ==> r.error == UnsupportedOperation("no store instruction for " + ToString(d))
    ensures r == Ok("sb") <==> Bytes(d) == 1
    ensures r == Ok("sh") <==> Bytes(d) == 2
    ensures r == Ok("sw") <==> Bytes(d) == 4
  {
    match Bytes(d)
    case 1 => Ok("sb")
    case 2 => Ok("sh")
    case 4 => Ok("sw")
    case _ => Err(UnsupportedOperation("no store instruction for " + ToString(d)))
  }

  /** Loads and stores agree: both exist or neither does, and they name the
      same width letter (`lb`/`lbu` with `sb`, and so on). */
  lemma LoadStoreAgree(d: Descriptor)
    ensures LoadInstruction(d).Ok? <==> StoreInstruction(d).Ok?
    ensures LoadInstruction(d).Ok? ==> LoadInstruction(d).value[1] == StoreInstruction(d).value[1]
  {
  }
}
