/** The bytecode-to-assembly translator of the cross generation
    (`cross/.../CodeTranslator`), a prototype that lowers static methods
    only.

    Its prologue, epilogue and most instruction templates print the same
    lines as the compiler generation's, so they are taken from module
    `CodeTranslator`; the DUP_X2, DUP2_X1, DUP2_X2, INEG and LSTORE/DSTORE
    templates are the as-printed ones. What differs is the instruction
    switch: there is no case for the opcode-less nodes (labels, frames,
    line numbers), LDC and LLOAD/DLOAD fall through into the next case,
    fields, arrays, objects and every call other than INVOKESTATIC are not
    lowered, and jump targets are named after the target label's bytecode
    offset.

    The calls whose definitions are not part of this model are inputs
    (`Hooks`). */
module CrossCodeTranslator {
  import opened Wrappers
  import opened Text
  import opened Asm
  import opened Bytecode
  import opened CodeTranslator
  import CrossMethodDescriptor
  import CrossNameUtil

  /** - `labelOffset`: `label.getLabel().getOffset()`, the bytecode offset
        of a label;
      - `callName`: `NameUtil.mangleMethodName(call)` of a call's owner,
        name and descriptor;
      - `returnWords`: `getReturnWords()` of a parsed descriptor.
      The last two are called by the cross generation but defined nowhere
      in it: its `NameUtil` has only the two-argument `mangleMethodName`
      and its `ParsedMethodDescriptor` has no `getReturnWords`. */
  datatype Hooks = Hooks(
    labelOffset: nat -> nat,
    callName: (string, string, string) -> string,
    returnWords: CrossMethodDescriptor.CrossMethod -> int)

  /** The method being translated (`MethodNode`) and the name of its class. */
  datatype MethodNode = MethodNode(className: string, name: string, access: nat, desc: string,
                                   maxLocals: nat, instructions: seq<Node>)

  /** What every instruction template sees. */
  datatype CrossEnv = CrossEnv(hooks: Hooks, mangledName: string)

  function MangledName(m: MethodNode): string {
    CrossNameUtil.MangleMethodName(m.className, m.name, m.desc)
  }

  // ---------------------------------------------------------------------
  // Jump targets

  /** `getTargetLabel`: the method's label, '_', and the target's offset. */
  function TargetLabel(env: CrossEnv, n: Node): (r: Result<string>)
    ensures r.Ok? <==> n.JumpInsnNode?
    ensures r.Ok? ==> r.value == env.mangledName + "_" + NatToString(env.hooks.labelOffset(n.target))
  {
    var l :- AsJump(n);
    Ok(env.mangledName + "_" + NatToString(env.hooks.labelOffset(l)))
  }

  /** Two jumps of a method name the same target exactly when their
      targets sit at the same bytecode offset. */
  lemma TargetLabelsAgreeIffSameOffset(env: CrossEnv, a: Node, b: Node)
    requires a.JumpInsnNode? && b.JumpInsnNode?
    ensures TargetLabel(env, a) == TargetLabel(env, b)
            <==> env.hooks.labelOffset(a.target) == env.hooks.labelOffset(b.target)
  {
    if TargetLabel(env, a) == TargetLabel(env, b) {
      PrefixedNumberInjective(env.mangledName + "_", env.hooks.labelOffset(a.target), env.hooks.labelOffset(b.target));
    }
  }

  function CrossBranch(env: CrossEnv, n: Node, instruction: string, implicitZero: bool): (r: Result<seq<Line>>)
  {
    var target :- TargetLabel(env, n);
    Ok(BranchLines(instruction, implicitZero, target))
  }

  // ---------------------------------------------------------------------
  // Static calls

  /** The text `getClass()` of an `ldc` constant prints as. */
  function ConstantClass(c: Constant): string {
    match c
    case IntegerConst(_) => "class java.lang.Integer"
    case FloatConst => "class java.lang.Float"
    case LongConst => "class java.lang.Long"
    case DoubleConst => "class java.lang.Double"
    case StringConst(_) => "class java.lang.String"
    case TypeConst => "class org.objectweb.asm.Type"
    case OtherConst(name) => "class " + name
  }

  /** INVOKESTATIC given the outcome of parsing the call's descriptor: the
      parameter words move to a0.., the callee is called by label, and a0
      (and a1) are pushed when `getReturnWords()` is 1 (or 2). */
  function StaticCall(env: CrossEnv, call: Node, parsed: Result<CrossMethodDescriptor.CrossMethod>): (r: Result<seq<Line>>)
    requires call.MethodInsnNode?
    ensures r.Ok? <==> parsed.Ok?
  {
    var d :- parsed;
    var returnWords := env.hooks.returnWords(d);
    Ok(InvokeNonvirtualLines(CrossMethodDescriptor.ParameterWords(d.parameterTypes),
                             if returnWords == 1 || returnWords == 2 then returnWords else 0,
                             env.hooks.callName(call.owner, call.name, call.desc)))
  }

  function InvokeStatic(env: CrossEnv, n: Node): (r: Result<seq<Line>>)
  {
    if !n.MethodInsnNode? then Err(CastError(n, "MethodInsnNode"))
    else StaticCall(env, n, CrossMethodDescriptor.Parse(n.desc))
  }

  // ---------------------------------------------------------------------
  // The instruction switch

  /** `translate(instruction)`; every opcode without a case, -1 among them,
      is an unknown opcode. */
  function TranslateNode(env: CrossEnv, n: Node): (r: Result<seq<Line>>)
  {
    var op := Opcode(n);
    if op <= LDC then TranslateConstant(n, op)
    else if op <= SASTORE then TranslateLocalOrArray(n, op)
    else if op <= IINC then TranslateStackOrArithmetic(n, op)
    else if op <= RETURN then TranslateControl(env, n, op)
    else TranslateObject(env, n, op)
  }

  function TranslateConstant(n: Node, op: int): Result<seq<Line>>
    requires op == Opcode(n)
  {
    if op == NOP then Ok([])
    else if op == ACONST_NULL then Ok(Push("x0"))
    else if ICONST_M1 <= op <= ICONST_5 then Ok(PushInt(op - ICONST_0))
    else if op == LCONST_0 || op == LCONST_1 then Ok(PushLong(op - LCONST_0))
    else if FCONST_0 <= op <= DCONST_1 then Err(NotYet)
    else if op == BIPUSH || op == SIPUSH then
      var v :- AsIntOperand(n);
      Ok(PushInt(v))
    else if op == LDC then
      if !n.LdcInsnNode? then Err(CastError(n, "LdcInsnNode"))
      else if n.cst.IntegerConst? then
        // no `break`: the ILOAD case runs next and casts the node again
        var index :- AsVar(n);
        Ok(PushInt(n.cst.intValue) + Load32(index))
      else Err(NotYetImplemented("ldc with anything other than Integer not supported yet; found: " + ConstantClass(n.cst)))
    else Err(UnknownOpcode(op))
  }

  function TranslateLocalOrArray(n: Node, op: int): Result<seq<Line>>
    requires op == Opcode(n)
  {
    if op == ILOAD || op == FLOAD || op == ALOAD then
      var index :- AsVar(n);
      Ok(Load32(index))
    else if op == LLOAD || op == DLOAD then
      // no `break`: after `load64` the array-load case throws
      if !n.VarInsnNode? then Err(CastError(n, "VarInsnNode")) else Err(NotYet)
    else if IALOAD <= op <= SALOAD then Err(NotYet)
    else if op == ISTORE || op == FSTORE || op == ASTORE || op == LSTORE || op == DSTORE then
      var index :- AsVar(n);
      Ok(Store32(index))
    else if IASTORE <= op <= SASTORE then Err(NotYet)
    else Err(UnknownOpcode(op))
  }

  function TranslateStackOrArithmetic(n: Node, op: int): Result<seq<Line>>
    requires op == Opcode(n)
  {
    if op == POP then Ok([Insn("add", [SP, SP, Imm(4)])])
    else if op == POP2 then Ok([Insn("add", [SP, SP, Imm(8)])])
    else if op == DUP then Ok(DupLines)
    else if op == DUP_X1 then Ok(DupX1Lines)
    else if op == DUP_X2 then Ok(DupX2LinesAsWritten)
    else if op == DUP2_X1 then Ok(Dup2X1LinesAsWritten)
    else if op == DUP2_X2 then Ok(Dup2X2LinesAsWritten)
    else if op == SWAP then Ok(SwapLines)
    else if WordOpMnemonic(op).Some? then Ok(WordOp(WordOpMnemonic(op).value))
    else if IADD <= op <= LXOR then Err(NotYet)
    else if op == IINC then
      if !n.IincInsnNode? then Err(CastError(n, "IincInsnNode"))
      else Ok(IincLines(n.varIndex, n.incr))
    else Err(UnknownOpcode(op))
  }

  function TranslateControl(env: CrossEnv, n: Node, op: int): Result<seq<Line>>
    requires op == Opcode(n)
  {
    var ret := ReturnLabel(env.mangledName);
    if I2L <= op <= D2F then Err(NotYet)
    else if op == I2B then Ok(NarrowLines("lb"))
    else if op == I2C then Ok(NarrowLines("lhu"))
    else if op == I2S then Ok(NarrowLines("lh"))
    else if LCMP <= op <= DCMPG then Err(NotYet)
    else if BranchKind(op).Some? then CrossBranch(env, n, BranchKind(op).value.0, BranchKind(op).value.1)
    else if op == GOTO then
      var target :- TargetLabel(env, n);
      Ok([Insn("j", [Sym(target)])])
    else if JSR <= op <= LOOKUPSWITCH then Err(NotYet)
    else if op == IRETURN || op == FRETURN || op == ARETURN then Ok(Pop("a0") + [Insn("j", [Sym(ret)])])
    else if op == LRETURN || op == DRETURN then Ok(Pop("a0") + Pop("a1") + [Insn("j", [Sym(ret)])])
    else if op == RETURN then Ok([Insn("j", [Sym(ret)])])
    else Err(UnknownOpcode(op))
  }

  function TranslateObject(env: CrossEnv, n: Node, op: int): Result<seq<Line>>
    requires op == Opcode(n)
  {
    if GETSTATIC <= op <= INVOKESPECIAL then Err(NotYet)
    else if op == INVOKESTATIC then InvokeStatic(env, n)
    else if (INVOKEINTERFACE <= op <= MONITOREXIT) || op == MULTIANEWARRAY then Err(NotYet)
    else if op == IFNULL then CrossBranch(env, n, "beq", true)
    else if op == IFNONNULL then CrossBranch(env, n, "bne", true)
    else Err(UnknownOpcode(op))
  }

  /** Every instruction in order; the first failure ends the translation. */
  function TranslateAll(env: CrossEnv, nodes: seq<Node>): (r: Result<seq<Line>>)
    decreases |nodes|
  {
    if |nodes| == 0 then Ok([])
    else
      var first :- TranslateNode(env, nodes[0]);
      var rest :- TranslateAll(env, nodes[1..]);
      Ok(first + rest)
  }

  /** A body translates exactly when each of its instructions does; a
      failing body fails with the error of its first failing instruction. */
  lemma {:induction false} TranslateAllIsEachNode(env: CrossEnv, nodes: seq<Node>)
    ensures TranslateAll(env, nodes).Ok? <==> forall i | 0 <= i < |nodes| :: TranslateNode(env, nodes[i]).Ok?
    ensures TranslateAll(env, nodes).Err? ==>
      exists i | 0 <= i < |nodes| :: && TranslateNode(env, nodes[i]) == Err(TranslateAll(env, nodes).error)
                                     && forall j | 0 <= j < i :: TranslateNode(env, nodes[j]).Ok?
    decreases |nodes|
  {
    if |nodes| > 0 {
      TranslateAllIsEachNode(env, nodes[1..]);
      assert forall i | 1 <= i < |nodes| :: nodes[i] == nodes[1..][i - 1];
      if TranslateNode(env, nodes[0]).Ok? && TranslateAll(env, nodes).Err? {
        var k :| 0 <= k < |nodes[1..]| && TranslateNode(env, nodes[1..][k]) == Err(TranslateAll(env, nodes).error)
                 && forall j | 0 <= j < k :: TranslateNode(env, nodes[1..][j]).Ok?;
        assert TranslateNode(env, nodes[k + 1]) == Err(TranslateAll(env, nodes).error);
      }
    }
  }

  /** The words spilled to the locals: `this` for an instance method, then
      the parameters as `getParameterWords()` counts them. */
  function SpillWords(m: MethodNode, d: CrossMethodDescriptor.CrossMethod): nat {
    (if HasFlag(m.access, ACC_STATIC) then 0 else 1) + CrossMethodDescriptor.ParameterWords(d.parameterTypes)
  }

  function CrossPrologue(m: MethodNode, words: nat): seq<Line> {
    [LabelDef(MangledName(m))] + FrameSetup(m.maxLocals) + Spill(words)
  }

  function CrossEpilogue(m: MethodNode): seq<Line> {
    [LabelDef(ReturnLabel(MangledName(m)))] + FrameTeardown(m.maxLocals) + [Insn("ret", []), Blank]
  }

  /** `translate()`: constructors and native methods print nothing, static
      initializers and instance methods are refused, and a static method
      becomes its prologue, its instructions and its epilogue. */
  function Translate(h: Hooks, m: MethodNode): (r: Result<seq<Line>>)
    ensures m.name == "<init>" ==> r == Ok([])
    ensures m.name == "<clinit>" ==> r == Err(UnsupportedOperation("static initializer not yet supported"))
    ensures m.name != "<init>" && m.name != "<clinit>" ==>
      && (HasFlag(m.access, ACC_NATIVE) ==> r == Ok([]))
      && (!HasFlag(m.access, ACC_NATIVE) && !HasFlag(m.access, ACC_STATIC) ==>
            r == Err(UnsupportedOperation("only static methods allowed: " + m.name)))
    ensures m.name != "<init>" && m.name != "<clinit>" && HasFlag(m.access, ACC_STATIC) && !HasFlag(m.access, ACC_NATIVE) ==>
      (r.Ok? <==> CrossMethodDescriptor.Parse(m.desc).Ok? && TranslateAll(CrossEnv(h, MangledName(m)), m.instructions).Ok?)
    ensures r.Ok? && r.value != [] ==>
      && HasFlag(m.access, ACC_STATIC) && !HasFlag(m.access, ACC_NATIVE)
      && CrossMethodDescriptor.Parse(m.desc).Ok?
      && TranslateAll(CrossEnv(h, MangledName(m)), m.instructions).Ok?
      && r.value == CrossPrologue(m, SpillWords(m, CrossMethodDescriptor.Parse(m.desc).value))
                    + TranslateAll(CrossEnv(h, MangledName(m)), m.instructions).value + CrossEpilogue(m)
  {
    if m.name == "<init>" then Ok([])
    else if m.name == "<clinit>" then Err(UnsupportedOperation("static initializer not yet supported"))
    else if HasFlag(m.access, ACC_NATIVE) then Ok([])
    else if !HasFlag(m.access, ACC_STATIC) then Err(UnsupportedOperation("only static methods allowed: " + m.name))
    else
      var d :- CrossMethodDescriptor.Parse(m.desc);
      var env := CrossEnv(h, MangledName(m));
      var body :- TranslateAll(env, m.instructions);
      Ok(CrossPrologue(m, SpillWords(m, d)) + body + CrossEpilogue(m))
  }

  // ---------------------------------------------------------------------
  // What the switch accepts

  /** Labels, frames and line numbers have opcode -1, for which the switch
      has no case. */
  lemma OpcodeLessNodeFails(env: CrossEnv, n: Node)
    requires Opcode(n) == -1
    ensures TranslateNode(env, n) == Err(UnknownOpcode(-1))
  {
  }

  /** Because of that, a body translates only if it holds no label, frame
      or line-number node, which excludes every method with a jump target. */
  lemma {:induction false} TranslatedBodyHasNoLabels(env: CrossEnv, nodes: seq<Node>)
    requires TranslateAll(env, nodes).Ok?
    ensures forall i | 0 <= i < |nodes| :: Opcode(nodes[i]) != -1
    decreases |nodes|
  {
    if |nodes| > 0 {
      TranslatedBodyHasNoLabels(env, nodes[1..]);
      forall i | 0 <= i < |nodes|
        ensures Opcode(nodes[i]) != -1
      {
        if i > 0 {
          assert nodes[i] == nodes[1..][i - 1];
        }
      }
    }
  }

  /** A translated static method has no labels, so none of its jumps can
      have a target inside it. */
  lemma TranslatedMethodHasNoLabels(h: Hooks, m: MethodNode)
    requires Translate(h, m).Ok? && Translate(h, m).value != []
    ensures forall i | 0 <= i < |m.instructions| :: Opcode(m.instructions[i]) != -1
    ensures LabelsOf(m.instructions) == []
  {
    TranslatedBodyHasNoLabels(CrossEnv(h, MangledName(m)), m.instructions);
    NoOpcodeLessNoLabels(m.instructions);
  }

  lemma {:induction false} NoOpcodeLessNoLabels(nodes: seq<Node>)
    requires forall i | 0 <= i < |nodes| :: Opcode(nodes[i]) != -1
    ensures LabelsOf(nodes) == []
    decreases |nodes|
  {
    if |nodes| > 0 {
      var init := nodes[..|nodes| - 1];
      assert forall i | 0 <= i < |init| :: init[i] == nodes[i];
      NoOpcodeLessNoLabels(init);
      assert Opcode(nodes[|nodes| - 1]) != -1;
    }
  }

  /** LDC and LLOAD/DLOAD never translate: an Integer `ldc` falls into the
      ILOAD case and fails its cast to `VarInsnNode`, any other constant is
      not implemented, and `load64` falls into the array loads, which are
      not implemented either. */
  lemma FallThroughsFail(env: CrossEnv, n: Node)
    requires Opcode(n) == LDC || Opcode(n) == LLOAD || Opcode(n) == DLOAD
    ensures TranslateNode(env, n).Err?
    ensures n.LdcInsnNode? && n.cst.IntegerConst? ==>
      TranslateNode(env, n) == Err(CastError(n, "VarInsnNode"))
    ensures n.VarInsnNode? && n.op != LDC ==> TranslateNode(env, n) == Err(NotYet)
  {
  }

  /** Translating two instruction lists one after the other is translating
      their concatenation. */
  lemma {:induction false} TranslateAllAppend(env: CrossEnv, a: seq<Node>, b: seq<Node>)
    ensures TranslateAll(env, a + b).Ok? <==> TranslateAll(env, a).Ok? && TranslateAll(env, b).Ok?
    ensures TranslateAll(env, a + b).Ok? ==>
      TranslateAll(env, a + b).value == TranslateAll(env, a).value + TranslateAll(env, b).value
    decreases |a|
  {
    if |a| == 0 {
      assert a + b == b;
    } else {
      assert (a + b)[0] == a[0];
      assert (a + b)[1..] == a[1..] + b;
      TranslateAllAppend(env, a[1..], b);
    }
  }
}
