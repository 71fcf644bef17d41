/** How far each instruction template of the compiler generation's
    translator moves the stack pointer, against how many words the JVM
    instruction pushes or pops (section 6.5 of The Java Virtual Machine
    Specification, the "Operand Stack" entry of each instruction, counting
    long and double values as two words).

    Since every operand-stack word is one 4-byte machine word, a template
    is right about the stack depth exactly when it moves sp by -4 per word
    gained. */
module TranslatorStack {
  import opened Wrappers
  import opened Asm
  import opened Bytecode
  import opened CodeTranslator
  import opened JavaInts
  import MethodDescriptor
  import FieldDescriptor
  import NameUtil

  /** Words an instruction leaves on the operand stack minus the words it
      takes, for the instructions the translator lowers; `None` for those
      it does not (and for the field instructions, see `FieldDelta`). */
  function JvmStackDelta(n: Node): Option<int> {
    var op := Opcode(n);
    if op == INVOKEVIRTUAL || op == INVOKESPECIAL || op == INVOKESTATIC then
      if n.MethodInsnNode? then CallDelta(op, MethodDescriptor.Parse(n.desc)) else None
    else WordDelta(op)
  }

  /** A call pops its arguments (and the receiver, unless static) and
      pushes its result. */
  function CallDelta(op: int, parsed: Result<MethodDescriptor.MethodType>): Option<int> {
    match parsed
    case Ok(d) =>
      Some(MethodDescriptor.ReturnWords(d) - MethodDescriptor.ParameterWords(d.parameterTypes)
           - (if op == INVOKESTATIC then 0 else 1))
    case Err(_) => None
  }

  /** The instructions whose stack effect the opcode alone decides. */
  function WordDelta(op: int): Option<int> {
    if op <= LDC then
      if op == -1 || op == NOP then Some(0)
      else if op == ACONST_NULL || (ICONST_M1 <= op <= ICONST_5) || op == BIPUSH || op == SIPUSH || op == LDC then Some(1)
      else if op == LCONST_0 || op == LCONST_1 then Some(2)
      else None
    else if op <= SALOAD then
      if op == ILOAD || op == FLOAD || op == ALOAD then Some(1)
      else if op == LLOAD || op == DLOAD then Some(2)
      else if op == LALOAD || op == DALOAD then Some(0)
      else if IALOAD <= op then Some(-1)
      else None
    else if op <= SASTORE then
      if op == ISTORE || op == FSTORE || op == ASTORE then Some(-1)
      else if op == LSTORE || op == DSTORE then Some(-2)
      else if op == LASTORE || op == DASTORE then Some(-4)
      else if IASTORE <= op then Some(-3)
      else None
    else if op <= SWAP then
      if op == POP then Some(-1)
      else if op == POP2 then Some(-2)
      else if op == DUP || op == DUP_X1 || op == DUP_X2 then Some(1)
      else if op == SWAP then Some(0)
      else Some(2)
    else if op <= IINC then
      if op == INEG || op == IINC then Some(0)
      else if op == IADD || op == ISUB || op == IMUL || op == IDIV || op == IREM
        || op == ISHL || op == ISHR || op == IUSHR || op == IAND || op == IOR || op == IXOR then Some(-1)
      else None
    else if op <= RETURN then
      if op == I2B || op == I2C || op == I2S || op == GOTO || op == RETURN then Some(0)
      else if IFEQ <= op <= IFLE then Some(-1)
      else if IF_ICMPEQ <= op <= IF_ACMPNE then Some(-2)
      else if op == IRETURN || op == FRETURN || op == ARETURN then Some(-1)
      else if op == LRETURN || op == DRETURN then Some(-2)
      else None
    else
      if op == NEW then Some(1)
      else if op == NEWARRAY || op == ANEWARRAY || op == ARRAYLENGTH then Some(0)
      else if op == IFNULL || op == IFNONNULL then Some(-1)
      else None
  }

  /** The field instructions, for a field of `words` words. */
  function FieldDelta(op: int, words: nat): int {
    var w: int := words;
    if op == GETSTATIC then w
    else if op == PUTSTATIC then -w
    else if op == GETFIELD then w - 1
    else -w - 1
  }

  // ---------------------------------------------------------------------
  // The templates one by one

  lemma PushPopMoves(r: string)
    ensures SpEffect(Push(r)) == -4
    ensures SpEffect(Pop(r)) == 4
  {
    SpEffectSingle(Push(r), 0);
    SpEffectSingle(Pop(r), 1);
  }

  lemma PushIntMoves(v: int)
    ensures SpEffect(PushInt(v)) == -4
  {
    SpEffectSingle(PushInt(v), 1);
  }

  lemma PushLongMoves(v: int)
    ensures SpEffect(PushLong(v)) == -8
  {
    PushIntMoves(Wrap32(v / 0x1_0000_0000));
    PushIntMoves(Wrap32(v));
    SpEffectAppend(PushInt(Wrap32(v / 0x1_0000_0000)), PushInt(Wrap32(v)));
  }

  lemma LocalsMove(index: int)
    ensures SpEffect(Load32(index)) == -4
    ensures SpEffect(Store32(index)) == 4
    ensures SpEffect(Load64(index)) == -8
    ensures SpEffect(Store64(index)) == 8
  {
    SpEffectSingle(Load32(index), 1);
    SpEffectSingle(Store32(index), 1);
    SpEffectSingle(Load32(index + 1), 1);
    SpEffectSingle(Store32(index + 1), 1);
    SpEffectAppend(Load32(index + 1), Load32(index));
    SpEffectAppend(Store32(index), Store32(index + 1));
  }

  lemma WordOpMoves(instruction: string)
    ensures SpEffect(WordOp(instruction)) == 4
  {
    SpEffectSingle(WordOp(instruction), 3);
  }

  /** Each stack shuffle moves sp by -4 per word the JVM instruction adds. */
  lemma ShufflesMove()
    ensures SpEffect(DupLines) == -4
    ensures SpEffect(DupX1Lines) == -4
    ensures SpEffect(DupX2Lines) == -4 && SpEffect(DupX2LinesAsWritten) == -4
    ensures SpEffect(Dup2X1Lines) == -8
    ensures SpEffect(Dup2X2Lines) == -8 && SpEffect(Dup2X2LinesAsWritten) == -8
    ensures SpEffect(SwapLines) == 0
    ensures SpEffect(NegLines) == 0
  {
    SpEffectSingle(DupLines, 1);
    SpEffectSingle(DupX1Lines, 2);
    SpEffectSingle(DupX2Lines, 3);
    SpEffectSingle(DupX2LinesAsWritten, 3);
    SpEffectSingle(Dup2X1Lines, 3);
    SpEffectSingle(Dup2X2Lines, 4);
    SpEffectSingle(Dup2X2LinesAsWritten, 4);
    SpEffectNone(SwapLines);
    SpEffectNone(NegLines);
  }

  lemma InPlaceMove(load: string, index: int, incr: int)
    ensures SpEffect(NarrowLines(load)) == 0
    ensures SpEffect(IincLines(index, incr)) == 0
  {
    SpEffectNone(NarrowLines(load));
    SpEffectNone(IincLines(index, incr));
  }

  lemma BranchMoves(instruction: string, implicitZero: bool, target: string)
    ensures SpEffect(BranchLines(instruction, implicitZero, target)) == if implicitZero then 4 else 8
  {
    var ls := BranchLines(instruction, implicitZero, target);
    if implicitZero {
      SpEffectSingle(ls, 1);
    } else {
      PushPopMoves("t1");
      PushPopMoves("t0");
      SpEffectAppend(Pop("t1"), Pop("t0"));
      var last := [Insn(instruction, [T0, T1, Sym(target)])];
      SpEffectNone(last);
      SpEffectAppend(Pop("t1") + Pop("t0"), last);
    }
  }

  lemma ReturnsMove(target: string)
    ensures SpEffect(Pop("a0") + [Insn("j", [Sym(target)])]) == 4
    ensures SpEffect(Pop("a0") + Pop("a1") + [Insn("j", [Sym(target)])]) == 8
    ensures SpEffect([Insn("j", [Sym(target)])]) == 0
  {
    var j := [Insn("j", [Sym(target)])];
    SpEffectSingle(Pop("a0") + j, 1);
    PushPopMoves("a0");
    PushPopMoves("a1");
    SpEffectAppend(Pop("a0"), Pop("a1"));
    SpEffectNone(j);
    SpEffectAppend(Pop("a0") + Pop("a1"), j);
  }

  lemma FieldTemplatesMove(offset: int, words: nat, mnemonic: string)
    requires words == 1 || words == 2
    ensures SpEffect(GetstaticLines(offset, words, mnemonic)) == -4 * FieldDelta(GETSTATIC, words)
    ensures SpEffect(PutstaticLines(offset, words, mnemonic)) == -4 * FieldDelta(PUTSTATIC, words)
    ensures SpEffect(GetfieldLines(offset, words, mnemonic)) == -4 * FieldDelta(GETFIELD, words)
    ensures SpEffect(PutfieldLines(offset, words, mnemonic)) == -4 * FieldDelta(PUTFIELD, words)
    ensures SpEffect(PutfieldLinesAsWritten(offset, words, mnemonic)) == -4 * FieldDelta(PUTFIELD, words)
  {
    SpEffectSingle(GetstaticLines(offset, words, mnemonic), 0);
    SpEffectSingle(PutstaticLines(offset, words, mnemonic), if words == 1 then 2 else 4);
    if words == 1 {
      SpEffectNone(GetfieldLines(offset, words, mnemonic));
    } else {
      SpEffectSingle(GetfieldLines(offset, words, mnemonic), 1);
    }
    SpEffectSingle(PutfieldLines(offset, words, mnemonic), if words == 1 then 3 else 5);
    SpEffectSingle(PutfieldLinesAsWritten(offset, words, mnemonic), if words == 1 then 3 else 5);
  }

  lemma ArrayTemplatesMove(shift: nat, doubleword: bool, mnemonic: string, header: int, vtable: string)
    ensures SpEffect(ArrayLoadLines(shift, doubleword, mnemonic, header)) == if doubleword then 0 else 4
    ensures SpEffect(ArrayStoreLines(shift, doubleword, mnemonic, header)) == if doubleword then 16 else 12
    ensures SpEffect(AllocateArrayLines(shift, header, vtable)) == 0
  {
    ArrayAccessMoves(shift, doubleword, mnemonic, header);
    AllocateArrayMoves(shift, header, vtable);
  }

  lemma ArrayAccessMoves(shift: nat, doubleword: bool, mnemonic: string, header: int)
    ensures SpEffect(ArrayLoadLines(shift, doubleword, mnemonic, header)) == if doubleword then 0 else 4
    ensures SpEffect(ArrayStoreLines(shift, doubleword, mnemonic, header)) == if doubleword then 16 else 12
  {
    if doubleword {
      SpEffectNone(ArrayLoadLines(shift, doubleword, mnemonic, header));
      SpEffectSingle(ArrayStoreLines(shift, doubleword, mnemonic, header), 4);
    } else {
      SpEffectSingle(ArrayLoadLines(shift, doubleword, mnemonic, header), 5);
      SpEffectSingle(ArrayStoreLines(shift, doubleword, mnemonic, header), 3);
    }
  }

  lemma AllocateArrayMoves(shift: nat, header: int, vtable: string)
    ensures SpEffect(AllocateArrayLines(shift, header, vtable)) == 0
  {
    var middle := [Insn("sll", [A0, A0, Imm(shift)]),
                   Insn("add", [A0, A0, Imm(header)]),
                   Insn("la", [A1, Sym(vtable)]),
                   Insn("call", [Sym("allocateMemory")])];
    SpEffectNone(middle);
    PushPopMoves("a0");
    SpEffectAppend(Pop("a0"), middle);
    SpEffectAppend(Pop("a0") + middle, Push("a0"));
  }

  lemma NewMoves(words: int, vtable: string)
    ensures SpEffect([Insn("li", [A0, Imm(words)]), Insn("la", [A1, Sym(vtable)]), Insn("call", [Sym("allocateMemory")])]
                     + Push("a0")) == -4
  {
    var ls := [Insn("li", [A0, Imm(words)]), Insn("la", [A1, Sym(vtable)]), Insn("call", [Sym("allocateMemory")])] + Push("a0");
    SpEffectSingle(ls, 3);
  }

  lemma CallsMove(words: nat, returnWords: nat, callee: string, index: int, header: int)
    requires returnWords <= 2
    ensures SpEffect(InvokeNonvirtualLines(words, returnWords, callee)) == 4 * words - 4 * returnWords
    ensures SpEffect(InvokeVirtualLines(words, returnWords, index, header)) == 4 * words - 4 * returnWords
  {
    var args := LoadArguments(words);
    SpEffectSingle(args, words);
    var result := PushResult(returnWords);
    if returnWords == 0 {
      SpEffectNone(result);
    } else {
      SpEffectSingle(result, 0);
    }
    var call := [Insn("call", [Sym(callee)])];
    SpEffectNone(call);
    SpEffectAppend(args, call);
    SpEffectAppend(args + call, result);
    var dispatch := [Insn("lw", [T0, Mem(0, "a0")]), Insn("lw", [T0, Mem(header + 4 * index, "t0")]), Insn("jalr", [T0])];
    SpEffectNone(dispatch);
    SpEffectAppend(args, dispatch);
    SpEffectAppend(args + dispatch, result);
  }

  // ---------------------------------------------------------------------
  // Every instruction

  lemma ConstantMoves(env: Env, n: Node)
    requires !NotYetLowered(Opcode(n)) && 0 <= Opcode(n) <= LDC
    requires TranslateConstant(env, n, Opcode(n)).Ok?
    ensures WordDelta(Opcode(n)).Some?
    ensures SpEffect(TranslateConstant(env, n, Opcode(n)).value) == -4 * WordDelta(Opcode(n)).value
  {
    var op := Opcode(n);
    var r := TranslateConstant(env, n, op).value;
    if op == NOP {
      assert r == [];
    } else if op == ACONST_NULL {
      assert r == Push("x0");
      PushPopMoves("x0");
    } else if ICONST_M1 <= op <= ICONST_5 {
      assert r == PushInt(op - ICONST_0);
      PushIntMoves(op - ICONST_0);
    } else if op == LCONST_0 || op == LCONST_1 {
      assert r == PushLong(op - LCONST_0);
      PushLongMoves(op - LCONST_0);
    } else if op == BIPUSH || op == SIPUSH {
      IntPushMoves(env, n);
    } else {
      LdcMoves(env, n);
    }
  }

  lemma IntPushMoves(env: Env, n: Node)
    requires Opcode(n) == BIPUSH || Opcode(n) == SIPUSH
    requires TranslateConstant(env, n, Opcode(n)).Ok?
    ensures SpEffect(TranslateConstant(env, n, Opcode(n)).value) == -4
  {
    assert TranslateConstant(env, n, Opcode(n)) == Ok(PushInt(n.operand));
    PushIntMoves(n.operand);
  }

  /** An `int` constant is pushed with `li`, a string constant's label
      with `la`. */
  lemma LdcMoves(env: Env, n: Node)
    requires Opcode(n) == LDC && TranslateConstant(env, n, LDC).Ok?
    ensures SpEffect(TranslateConstant(env, n, LDC).value) == -4
  {
    var r := TranslateConstant(env, n, LDC).value;
    match n.cst
    case IntegerConst(v) =>
      assert r == PushInt(v);
      PushIntMoves(v);
    case StringConst(text) =>
      assert r == [Insn("la", [T0, Sym(env.ctx.stringLabel(text))])] + Push("t0");
      SpEffectSingle(r, 1);
  }

  lemma LocalOrArrayMoves(env: Env, n: Node)
    requires !NotYetLowered(Opcode(n)) && LDC < Opcode(n) <= SASTORE
    requires TranslateLocalOrArray(env, n, Opcode(n)).Ok?
    requires env.templates.Intended? || !MovesWronglyAsPrinted(Opcode(n))
    ensures WordDelta(Opcode(n)).Some?
    ensures SpEffect(TranslateLocalOrArray(env, n, Opcode(n)).value) == -4 * WordDelta(Opcode(n)).value
  {
    var op := Opcode(n);
    if op in {ILOAD, FLOAD, ALOAD, LLOAD, DLOAD, ISTORE, FSTORE, ASTORE, LSTORE, DSTORE} {
      LocalsMove(n.varIndex);
    } else if op <= SALOAD {
      ArrayLoadMoves(env, n);
    } else {
      ArrayStoreMoves(env, n);
    }
  }

  lemma ArrayLoadMoves(env: Env, n: Node)
    requires !NotYetLowered(Opcode(n)) && IALOAD <= Opcode(n) <= SALOAD
    requires TranslateLocalOrArray(env, n, Opcode(n)).Ok?
    ensures WordDelta(Opcode(n)).Some?
    ensures SpEffect(TranslateLocalOrArray(env, n, Opcode(n)).value) == -4 * WordDelta(Opcode(n)).value
  {
    var op := Opcode(n);
    var h := env.ctx.arrayHeaderSize;
    if op in {IALOAD, FALOAD, AALOAD} {
      ArrayTemplatesMove(2, false, "lw", h, "");
    } else if op == BALOAD {
      ArrayTemplatesMove(0, false, "lb", h, "");
    } else if op == CALOAD {
      ArrayTemplatesMove(1, false, "lhu", h, "");
    } else if op == SALOAD {
      ArrayTemplatesMove(1, false, "lh", h, "");
    } else {
      ArrayTemplatesMove(3, true, "", h, "");
    }
  }

  lemma ArrayStoreMoves(env: Env, n: Node)
    requires !NotYetLowered(Opcode(n)) && IASTORE <= Opcode(n) <= SASTORE
    requires TranslateLocalOrArray(env, n, Opcode(n)).Ok?
    ensures WordDelta(Opcode(n)).Some?
    ensures SpEffect(TranslateLocalOrArray(env, n, Opcode(n)).value) == -4 * WordDelta(Opcode(n)).value
  {
    var op := Opcode(n);
    var h := env.ctx.arrayHeaderSize;
    if op in {IASTORE, FASTORE, AASTORE} {
      ArrayTemplatesMove(2, false, "sw", h, "");
    } else if op == BASTORE {
      ArrayTemplatesMove(0, false, "sb", h, "");
    } else if op == CASTORE || op == SASTORE {
      ArrayTemplatesMove(1, false, "sh", h, "");
    } else {
      ArrayTemplatesMove(3, true, "", h, "");
    }
  }

  lemma StackOrArithmeticMoves(env: Env, n: Node)
    requires !NotYetLowered(Opcode(n)) && SASTORE < Opcode(n) <= IINC
    requires TranslateStackOrArithmetic(env, n, Opcode(n)).Ok?
    requires env.templates.Intended? || !MovesWronglyAsPrinted(Opcode(n))
    ensures WordDelta(Opcode(n)).Some?
    ensures SpEffect(TranslateStackOrArithmetic(env, n, Opcode(n)).value) == -4 * WordDelta(Opcode(n)).value
  {
    var op := Opcode(n);
    var r := TranslateStackOrArithmetic(env, n, op).value;
    ShufflesMove();
    if op == POP || op == POP2 {
      SpEffectSingle(r, 0);
    } else if op == IINC {
      InPlaceMove("", n.varIndex, n.incr);
    } else if op != INEG && WordOpMnemonic(op).Some? {
      WordOpMoves(WordOpMnemonic(op).value);
    }
  }

  lemma ControlMoves(env: Env, n: Node)
    requires !NotYetLowered(Opcode(n)) && IINC < Opcode(n) <= RETURN
    requires TranslateControl(env, n, Opcode(n)).Ok?
    ensures WordDelta(Opcode(n)).Some?
    ensures SpEffect(TranslateControl(env, n, Opcode(n)).value) == -4 * WordDelta(Opcode(n)).value
  {
    var op := Opcode(n);
    if op == I2B || op == I2C || op == I2S {
      NarrowMoves(env, n);
    } else if BranchKind(op).Some? {
      ConditionalMoves(env, n);
    } else if op == GOTO {
      SpEffectNone(TranslateControl(env, n, op).value);
    } else {
      ReturnMoves(env, n);
    }
  }

  lemma NarrowMoves(env: Env, n: Node)
    requires Opcode(n) == I2B || Opcode(n) == I2C || Opcode(n) == I2S
    ensures WordDelta(Opcode(n)) == Some(0)
    ensures TranslateControl(env, n, Opcode(n)).Ok? && SpEffect(TranslateControl(env, n, Opcode(n)).value) == 0
  {
    var op := Opcode(n);
    var load := if op == I2B then "lb" else if op == I2C then "lhu" else "lh";
    assert TranslateControl(env, n, op) == Ok(NarrowLines(load));
    InPlaceMove(load, 0, 0);
  }

  lemma ConditionalMoves(env: Env, n: Node)
    requires !NotYetLowered(Opcode(n)) && IINC < Opcode(n) <= RETURN && BranchKind(Opcode(n)).Some?
    requires TranslateControl(env, n, Opcode(n)).Ok?
    ensures WordDelta(Opcode(n)).Some?
    ensures SpEffect(TranslateControl(env, n, Opcode(n)).value) == -4 * WordDelta(Opcode(n)).value
  {
    var op := Opcode(n);
    var kind := BranchKind(op).value;
    BranchKindDelta(op);
    assert TranslateControl(env, n, op) == Branch(env, n, kind.0, kind.1);
    var target := LabelName(env, n.target).value;
    assert Branch(env, n, kind.0, kind.1) == Ok(BranchLines(kind.0, kind.1, target));
    BranchMoves(kind.0, kind.1, target);
  }

  /** A conditional branch pops the one value it tests against zero, or
      the two values it compares. */
  lemma BranchKindDelta(op: int)
    requires BranchKind(op).Some?
    ensures op != I2B && op != I2C && op != I2S
    ensures WordDelta(op) == Some(if BranchKind(op).value.1 then -1 else -2)
  {
  }

  lemma ReturnMoves(env: Env, n: Node)
    requires IRETURN <= Opcode(n) <= RETURN && TranslateControl(env, n, Opcode(n)).Ok?
    ensures WordDelta(Opcode(n)).Some?
    ensures SpEffect(TranslateControl(env, n, Opcode(n)).value) == -4 * WordDelta(Opcode(n)).value
  {
    ReturnsMove(ReturnLabel(env.mangledName));
  }

  lemma ObjectMoves(env: Env, n: Node)
    requires !NotYetLowered(Opcode(n)) && RETURN < Opcode(n)
    requires Opcode(n) !in {GETSTATIC, PUTSTATIC, GETFIELD, PUTFIELD}
    requires TranslateObject(env, n, Opcode(n)).Ok?
    ensures JvmStackDelta(n).Some?
    ensures SpEffect(TranslateObject(env, n, Opcode(n)).value) == -4 * JvmStackDelta(n).value
  {
    var op := Opcode(n);
    if op in {INVOKEVIRTUAL, INVOKESPECIAL, INVOKESTATIC} {
      InvokeMoves(env, n);
    } else {
      WordDeltaIsJvm(n);
      AllocationMoves(env, n);
    }
  }

  lemma AllocationMoves(env: Env, n: Node)
    requires Opcode(n) in {NEW, NEWARRAY, ANEWARRAY, ARRAYLENGTH, IFNULL, IFNONNULL}
    requires TranslateObject(env, n, Opcode(n)).Ok?
    ensures WordDelta(Opcode(n)).Some?
    ensures SpEffect(TranslateObject(env, n, Opcode(n)).value) == -4 * WordDelta(Opcode(n)).value
  {
    var op := Opcode(n);
    var h := env.ctx.arrayHeaderSize;
    if op == NEW {
      var c := ResolveClass(env.ctx, n.desc).value;
      NewMoves(env.ctx.instanceWords(c.name), NameUtil.MangleClassName(c.name) + "_vtable");
    } else if op == NEWARRAY || op == ANEWARRAY {
      NewArrayMoves(env, n);
    } else if op == ARRAYLENGTH {
      FieldTemplatesMove(h - 4, 1, "lw");
    } else {
      BranchMoves(BranchKind(op).value.0, true, LabelName(env, n.target).value);
    }
  }

  /** NEWARRAY and ANEWARRAY replace the length by the new array. */
  lemma NewArrayMoves(env: Env, n: Node)
    requires Opcode(n) == NEWARRAY || Opcode(n) == ANEWARRAY
    requires TranslateObject(env, n, Opcode(n)).Ok?
    ensures SpEffect(TranslateObject(env, n, Opcode(n)).value) == 0
  {
    var h := env.ctx.arrayHeaderSize;
    if Opcode(n) == NEWARRAY {
      var t := NewarrayType(n.operand).value;
      ArrayTemplatesMove(t.1, false, "", h, env.ctx.arrayVtableLabel(t.0).value);
    } else {
      ArrayTemplatesMove(2, false, "", h, env.ctx.arrayVtableLabel("[" + n.desc).value);
    }
  }

  /** The reference effect of a call instruction is that of its parsed
      descriptor. */
  lemma InvokeDelta(n: Node)
    requires n.MethodInsnNode? && (n.op == INVOKEVIRTUAL || n.op == INVOKESPECIAL || n.op == INVOKESTATIC)
    ensures JvmStackDelta(n) == CallDelta(n.op, MethodDescriptor.Parse(n.desc))
  {
    assert Opcode(n) == n.op;
  }

  lemma NonvirtualCallMoves(call: Node, op: int, parsed: Result<MethodDescriptor.MethodType>)
    requires call.MethodInsnNode?
    requires NonvirtualCall(call, op == INVOKESTATIC, parsed).Ok?
    ensures CallDelta(op, parsed).Some?
    ensures SpEffect(NonvirtualCall(call, op == INVOKESTATIC, parsed).value) == -4 * CallDelta(op, parsed).value
  {
    var d := parsed.value;
    CallsMove(CallWords(d, op == INVOKESTATIC), MethodDescriptor.ReturnWords(d), NameUtil.MangleCallName(call.owner, call.name, call.desc), 0, 0);
  }

  lemma VirtualCallMoves(env: Env, call: Node, parsed: Result<MethodDescriptor.MethodType>)
    requires call.MethodInsnNode?
    requires VirtualCall(env, call, parsed).Ok?
    ensures CallDelta(INVOKEVIRTUAL, parsed).Some?
    ensures SpEffect(VirtualCall(env, call, parsed).value) == -4 * CallDelta(INVOKEVIRTUAL, parsed).value
  {
    var d := parsed.value;
    var index := env.ctx.vtableIndex(ResolveClass(env.ctx, call.owner).value.name, call.name).value;
    CallsMove(CallWords(d, false), MethodDescriptor.ReturnWords(d), "", index, env.ctx.arrayHeaderSize);
  }

  /** The call templates apply only to method instructions. */
  lemma InvokeIsCall(env: Env, n: Node)
    requires Opcode(n) in {INVOKEVIRTUAL, INVOKESPECIAL, INVOKESTATIC}
    ensures !n.MethodInsnNode? ==> Invoke(env, n) == Err(CastError(n, "MethodInsnNode"))
  {
  }

  lemma OpcodeOfCall(n: Node)
    requires n.MethodInsnNode?
    ensures Opcode(n) == n.op
  {
  }

  lemma InvokeMoves(env: Env, n: Node)
    requires Opcode(n) in {INVOKEVIRTUAL, INVOKESPECIAL, INVOKESTATIC}
    requires Invoke(env, n).Ok?
    ensures JvmStackDelta(n).Some?
    ensures SpEffect(Invoke(env, n).value) == -4 * JvmStackDelta(n).value
  {
    InvokeIsCall(env, n);
    OpcodeOfCall(n);
    InvokeDelta(n);
    var parsed := MethodDescriptor.Parse(n.desc);
    if n.op == INVOKEVIRTUAL {
      assert Invoke(env, n) == VirtualCall(env, n, parsed);
      VirtualCallMoves(env, n, parsed);
    } else {
      assert Invoke(env, n) == NonvirtualCall(n, n.op == INVOKESTATIC, parsed);
      NonvirtualCallMoves(n, n.op, parsed);
    }
  }

  /** The instructions whose printed template moves sp by the wrong
      amount. */
  predicate MovesWronglyAsPrinted(op: int) {
    op == INEG || op == DUP2_X1 || op == LSTORE || op == DSTORE
  }

  /** Every instruction the translator lowers, other than the field
      instructions, moves sp by -4 per word the JVM instruction adds to
      the operand stack: with the printed templates except INEG, DUP2_X1,
      LSTORE and DSTORE, and with the intended ones throughout. */
  lemma TranslateNodeMatchesJvmStack(env: Env, n: Node)
    requires TranslateNode(env, n).Ok?
    requires Opcode(n) !in {GETSTATIC, PUTSTATIC, GETFIELD, PUTFIELD}
    requires env.templates.Intended? || !MovesWronglyAsPrinted(Opcode(n))
    ensures JvmStackDelta(n).Some?
    ensures SpEffect(TranslateNode(env, n).value) == -4 * JvmStackDelta(n).value
  {
    var op := Opcode(n);
    if RETURN < op {
      ObjectMoves(env, n);
      return;
    }
    WordDeltaIsJvm(n);
    if op == -1 {
      if n.LabelNode? {
        SpEffectNone(TranslateNode(env, n).value);
      }
    } else if op <= LDC {
      ConstantMoves(env, n);
    } else if op <= SASTORE {
      LocalOrArrayMoves(env, n);
    } else if op <= IINC {
      StackOrArithmeticMoves(env, n);
    } else {
      ControlMoves(env, n);
    }
  }

  /** Outside the calls, the opcode alone decides the stack effect. */
  lemma WordDeltaIsJvm(n: Node)
    requires Opcode(n) != INVOKEVIRTUAL && Opcode(n) != INVOKESPECIAL && Opcode(n) != INVOKESTATIC
    ensures JvmStackDelta(n) == WordDelta(Opcode(n))
  {
  }

  /** The field instructions of either edition move sp by -4 per word
      gained, for the width of the field they resolve to. */
  lemma FieldAccessMatchesJvmStack(env: Env, n: Node)
    requires Opcode(n) in {GETSTATIC, PUTSTATIC, GETFIELD, PUTFIELD}
    requires FieldInstruction(env, n).Ok?
    ensures n.FieldInsnNode? && ResolveField(env.ctx, n.owner, n.name).Ok?
    ensures SpEffect(FieldInstruction(env, n).value)
            == -4 * FieldDelta(n.op, FieldWords(ResolveField(env.ctx, n.owner, n.name).value.desc))
  {
    var f := ResolveField(env.ctx, n.owner, n.name).value;
    var words := FieldWords(f.desc);
    var get := n.op == GETSTATIC || n.op == GETFIELD;
    var mnemonic :=
      if env.templates.Intended? && words == 2 then (if get then "lw" else "sw")
      else if get then FieldDescriptor.LoadInstruction(f.parsed).value
      else FieldDescriptor.StoreInstruction(f.parsed).value;
    FieldTemplatesMove(f.storageOffset, words, mnemonic);
  }

  // ---------------------------------------------------------------------
  // Whole method bodies

  /** The JVM stack effect of one instruction; for the field
      instructions, that of the field they resolve to. */
  function NodeDelta(env: Env, n: Node): Option<int> {
    var op := Opcode(n);
    if op in {GETSTATIC, PUTSTATIC, GETFIELD, PUTFIELD} then
      if n.FieldInsnNode? && ResolveField(env.ctx, n.owner, n.name).Ok? then
        Some(FieldDelta(op, FieldWords(ResolveField(env.ctx, n.owner, n.name).value.desc)))
      else None
    else JvmStackDelta(n)
  }

  /** The JVM stack effect of a run of instructions, if every one has one. */
  function BodyDelta(env: Env, nodes: seq<Node>): Option<int>
    decreases |nodes|
  {
    if |nodes| == 0 then Some(0)
    else match (NodeDelta(env, nodes[0]), BodyDelta(env, nodes[1..]))
      case (Some(d), Some(rest)) => Some(d + rest)
      case _ => None
  }

  /** Every instruction that translates, field instructions included. */
  lemma NodeMatchesJvmStack(env: Env, n: Node)
    requires TranslateNode(env, n).Ok?
    requires env.templates.Intended? || !MovesWronglyAsPrinted(Opcode(n))
    ensures NodeDelta(env, n).Some?
    ensures SpEffect(TranslateNode(env, n).value) == -4 * NodeDelta(env, n).value
  {
    var op := Opcode(n);
    if op in {GETSTATIC, PUTSTATIC, GETFIELD, PUTFIELD} {
      assert TranslateNode(env, n) == FieldInstruction(env, n);
      FieldAccessMatchesJvmStack(env, n);
    } else {
      TranslateNodeMatchesJvmStack(env, n);
    }
  }

  /** A translated method body moves sp by -4 per word its instructions
      leave on the JVM operand stack: with the intended templates always,
      with the printed ones when it holds no INEG, DUP2_X1, LSTORE or
      DSTORE. */
  lemma {:induction false} BodyMatchesJvmStack(env: Env, nodes: seq<Node>)
    requires TranslateAll(env, nodes).Ok?
    requires env.templates.Intended? || forall i | 0 <= i < |nodes| :: !MovesWronglyAsPrinted(Opcode(nodes[i]))
    ensures BodyDelta(env, nodes).Some?
    ensures SpEffect(TranslateAll(env, nodes).value) == -4 * BodyDelta(env, nodes).value
    decreases |nodes|
  {
    if |nodes| > 0 {
      var first := TranslateNode(env, nodes[0]).value;
      var rest := TranslateAll(env, nodes[1..]).value;
      assert env.templates.Intended? || !MovesWronglyAsPrinted(Opcode(nodes[0]));
      NodeMatchesJvmStack(env, nodes[0]);
      assert env.templates.Intended? || forall i | 0 <= i < |nodes[1..]| :: !MovesWronglyAsPrinted(Opcode(nodes[1..][i])) by {
        if !env.templates.Intended? {
          forall i | 0 <= i < |nodes[1..]| ensures !MovesWronglyAsPrinted(Opcode(nodes[1..][i])) {
            assert nodes[1..][i] == nodes[i + 1];
          }
        }
      }
      BodyMatchesJvmStack(env, nodes[1..]);
      SpEffectAppend(first, rest);
    }
  }

  // ---------------------------------------------------------------------
  // The templates that move sp by the wrong amount as printed

  /** With the printed templates, INEG pops a word the JVM instruction
      keeps, DUP2_X1 pushes one word too few, and LSTORE/DSTORE pop one
      word of the two. */
  lemma AsPrintedMovesWrongly(env: Env, n: Node)
    requires env.templates.AsPrinted? && MovesWronglyAsPrinted(Opcode(n))
    requires TranslateNode(env, n).Ok?
    ensures WordDelta(Opcode(n)).Some?
    ensures Opcode(n) == INEG || Opcode(n) == DUP2_X1 ==>
      SpEffect(TranslateNode(env, n).value) == -4 * WordDelta(Opcode(n)).value + 4
    ensures Opcode(n) == LSTORE || Opcode(n) == DSTORE ==>
      SpEffect(TranslateNode(env, n).value) == -4 * WordDelta(Opcode(n)).value - 4
  {
    if Opcode(n) == LSTORE || Opcode(n) == DSTORE {
      LongStoreAsPrintedMoves(env, n);
    } else {
      StackAsPrintedMoves(env, n);
    }
  }

  lemma LongStoreAsPrintedMoves(env: Env, n: Node)
    requires env.templates.AsPrinted? && (Opcode(n) == LSTORE || Opcode(n) == DSTORE)
    requires TranslateNode(env, n).Ok?
    ensures n.VarInsnNode? && TranslateNode(env, n) == Ok(Store32(n.varIndex))
    ensures SpEffect(TranslateNode(env, n).value) == 4
  {
    var op := Opcode(n);
    LongStoreLowered(op);
    assert TranslateNode(env, n) == TranslateLocalOrArray(env, n, op);
    assert TranslateLocalOrArray(env, n, op) == Ok(Store32(n.varIndex));
    LocalsMove(n.varIndex);
  }

  /** LSTORE and DSTORE are lowered, in the range of the local and array
      instructions. */
  lemma LongStoreLowered(op: int)
    requires op == LSTORE || op == DSTORE
    ensures !NotYetLowered(op) && LDC < op <= SASTORE
  {
  }

  lemma StackAsPrintedMoves(env: Env, n: Node)
    requires env.templates.AsPrinted? && (Opcode(n) == INEG || Opcode(n) == DUP2_X1)
    ensures TranslateNode(env, n) == Ok(if Opcode(n) == INEG then NegLinesAsWritten else Dup2X1LinesAsWritten)
    ensures SpEffect(TranslateNode(env, n).value) == if Opcode(n) == INEG then 4 else -4
  {
    assert TranslateNode(env, n) == TranslateStackOrArithmetic(env, n, Opcode(n));
    NegAsWrittenPops();
    Dup2X1AsWrittenGrowsByOne();
  }

  /** INEG as printed pops a word that the JVM instruction keeps. */
  lemma NegAsWrittenPops()
    ensures SpEffect(NegLinesAsWritten) == 4
    ensures SpEffect(NegLines) == -4 * JvmStackDelta(InsnNode(INEG)).value
  {
    WordOpMoves("neg");
    ShufflesMove();
  }

  /** LSTORE and DSTORE as printed (`store32`) pop one word of the two the
      JVM instruction takes; `store64` pops both. */
  lemma LongStoreAsWrittenPopsOneWord(index: int)
    ensures SpEffect(Store32(index)) == 4
    ensures SpEffect(Store64(index)) == -4 * JvmStackDelta(VarInsnNode(LSTORE, index)).value
  {
    LocalsMove(index);
  }

  /** DUP2_X1 as printed grows the stack by one word instead of two. */
  lemma Dup2X1AsWrittenGrowsByOne()
    ensures SpEffect(Dup2X1LinesAsWritten) == -4
    ensures SpEffect(Dup2X1Lines) == -4 * JvmStackDelta(InsnNode(DUP2_X1)).value
  {
    SpEffectSingle(Dup2X1LinesAsWritten, 3);
    ShufflesMove();
  }
}
