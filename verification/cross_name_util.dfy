/** Name conversions of the cross compiler (`cross/.../NameUtil`): the same
    rules as the compiler generation, with class mangling taking a ClassInfo
    and no call or field overloads. */
module CrossNameUtil {
  import opened Text
  import NameUtil

  function Normalize(name: string): (r: string)
    ensures |r| == |name| && '.' !in r
    ensures forall i :: 0 <= i < |name| ==> r[i] == (if name[i] == '.' then '/' else name[i])
  {
    ReplaceChar(name, '.', '/')
  }

  function Denormalize(name: string): (r: string)
    ensures |r| == |name| && '/' !in r
    ensures forall i :: 0 <= i < |name| ==> r[i] == (if name[i] == '/' then '.' else name[i])
  {
    ReplaceChar(name, '/', '.')
  }

  /** `mangleClassName(ClassInfo)`, given the class's name. */
  function MangleClassName(className: string): (r: string)
    ensures |r| == |className| && '.' !in r && '/' !in r
  {
    ReplaceChar(Normalize(className), '/', '_')
  }

  /** `mangleMethodName(ClassInfo, MethodNode)`. */
  function MangleMethodName(className: string, methodName: string, desc: string): string
  {
    var d := ReplaceChar(ReplaceChar(ReplaceChar(RemoveChar(desc, '('), ')', '_'), ';', '_'), '/', '_');
    MangleClassName(className) + "_" + methodName + "_" + d
  }

  /** Both generations produce identical text for every conversion, so
      labels agree between the two compilers. */
  lemma AgreesWithCompiler(className: string, methodName: string, desc: string)
    ensures Normalize(className) == NameUtil.Normalize(className)
    ensures Denormalize(className) == NameUtil.Denormalize(className)
    ensures MangleClassName(className) == NameUtil.MangleClassName(className)
    ensures MangleMethodName(className, methodName, desc) == NameUtil.MangleMethodName(className, methodName, desc)
  {
  }
}
