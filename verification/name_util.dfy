/** Class-name conversions and assembly-label mangling of the compiler
    generation (`compiler/.../NameUtil`). Source-level names use '.', JVM
    internal names use '/', and labels use '_' for both. */
module NameUtil {
  import opened Text

  /** `normalizeClassName`: source-level to internal form. */
  function Normalize(name: string): (r: string)
    ensures |r| == |name| && '.' !in r
    ensures forall i :: 0 <= i < |name| ==> r[i] == (if name[i] == '.' then '/' else name[i])
  {
    ReplaceChar(name, '.', '/')
  }

  /** `denormalizeClassName`: internal to source-level form. */
  function Denormalize(name: string): (r: string)
    ensures |r| == |name| && '/' !in r
    ensures forall i :: 0 <= i < |name| ==> r[i] == (if name[i] == '/' then '.' else name[i])
  {
    ReplaceChar(name, '/', '.')
  }

  /** Normalizing twice changes nothing more. */
  lemma NormalizeIdempotent(name: string)
    ensures Normalize(Normalize(name)) == Normalize(name)
  {
  }

  /** A source-level name without '/' survives the trip to internal form
      and back; an internal name without '.' survives the opposite trip. */
  lemma NormalizeRoundTrip(name: string)
    ensures '/' !in name ==> Denormalize(Normalize(name)) == name
    ensures '.' !in name ==> Normalize(Denormalize(name)) == name
  {
    if '/' !in name {
      assert forall i :: 0 <= i < |name| ==> name[i] != '/';
    }
    if '.' !in name {
      assert forall i :: 0 <= i < |name| ==> name[i] != '.';
    }
  }

  /** `mangleClassName(String)`: both separators become '_'. */
  function MangleClassName(className: string): (r: string)
    ensures |r| == |className| && '.' !in r && '/' !in r
    ensures forall i :: 0 <= i < |className| ==> r[i] == (if className[i] in "./" then '_' else className[i])
  {
    ReplaceChar(Normalize(className), '/', '_')
  }

  /** Mangling forgets which separator was used, and even whether a '_' was
      there to begin with: distinct class names can share a label. */
  lemma MangleClassNameCollides()
    ensures MangleClassName("a/b") == MangleClassName("a_b") == MangleClassName("a.b") == "a_b"
  {
  }

  /** The descriptor part of a mangled method name: '(' dropped, ')', ';'
      and '/' turned into '_'. */
  function MangleDescriptor(desc: string): (r: string)
    ensures |r| == |desc| - Count(desc, '(')
    ensures '(' !in r && ')' !in r && ';' !in r && '/' !in r
  {
    var d := RemoveChar(desc, '(');
    ReplaceChar(ReplaceChar(ReplaceChar(d, ')', '_'), ';', '_'), '/', '_')
  }

  /** The label-safe form of a character of a descriptor. */
  function LabelChar(c: char): char {
    if c == ')' || c == ';' || c == '/' then '_' else c
  }

  /** Apart from the dropped '(', a mangled descriptor is the descriptor
      read character by character through `LabelChar`. */
  lemma MangleDescriptorPointwise(desc: string)
    ensures var d := RemoveChar(desc, '(');
            forall i :: 0 <= i < |d| ==> MangleDescriptor(desc)[i] == LabelChar(d[i])
  {
  }

  /** `mangleMethodName(ClassInfo, MethodNode)`, given the class's name. */
  function MangleMethodName(className: string, methodName: string, desc: string): (r: string)
    ensures |r| == |className| + |methodName| + |desc| - Count(desc, '(') + 2
    ensures r[..|className|] == MangleClassName(className)
    ensures r[|className|] == '_' && r[|className| + 1 + |methodName|] == '_'
    ensures r[|className| + 1..|className| + 1 + |methodName|] == methodName
    ensures r[|className| + 2 + |methodName|..] == MangleDescriptor(desc)
  {
    MangleClassName(className) + "_" + methodName + "_" + MangleDescriptor(desc)
  }

  /** `mangleMethodName(MethodInsnNode)`: the same label, built from the
      call's owner, name and descriptor. */
  function MangleCallName(owner: string, name: string, desc: string): (r: string)
  {
    MangleClassName(owner) + "_" + name + "_" + MangleDescriptor(desc)
  }

  /** A call to a method gets the label of the method it calls. */
  lemma CallNameMatchesMethodName(className: string, methodName: string, desc: string)
    ensures MangleCallName(className, methodName, desc) == MangleMethodName(className, methodName, desc)
  {
  }

  /** `mangleFieldName`: class label, '_', field name. */
  function MangleFieldName(className: string, fieldName: string): (r: string)
    ensures |r| == |className| + 1 + |fieldName|
    ensures r[..|className|] == MangleClassName(className) && r[|className|] == '_'
    ensures r[|className| + 1..] == fieldName
  {
    MangleClassName(className) + "_" + fieldName
  }
}
