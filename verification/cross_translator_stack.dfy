/** The cross generation's templates against the operand-stack effect of
    the JVM instructions they lower (the reference `WordDelta`/`CallDelta`
    of module `TranslatorStack`), and its frame against the compiler
    generation's. */
module CrossTranslatorStack {
  import opened Wrappers
  import opened Asm
  import opened Bytecode
  import opened CrossCodeTranslator
  import opened TranslatorStack
  import CodeTranslator
  import MethodDescriptor
  import CrossMethodDescriptor

  // ---------------------------------------------------------------------
  // The frame

  /** A static method whose descriptor both generations read the same way
      gets exactly the compiler generation's prologue and epilogue around
      its body. */
  lemma SameFrameAsCompiler(h: Hooks, m: MethodNode, d: MethodDescriptor.MethodType)
    requires MethodDescriptor.AllScannerSafe(d) && m.desc == MethodDescriptor.ToString(d)
    requires Translate(h, m).Ok? && Translate(h, m).value != []
    ensures var info := CodeTranslator.MethodInfo(m.access, m.maxLocals, MangledName(m), d, m.instructions);
      Translate(h, m).value == CodeTranslator.Prologue(info)
                               + TranslateAll(CrossEnv(h, MangledName(m)), m.instructions).value
                               + CodeTranslator.Epilogue(info)
  {
    var info := CodeTranslator.MethodInfo(m.access, m.maxLocals, MangledName(m), d, m.instructions);
    CrossMethodDescriptor.AgreesWithCompilerParser(d);
    CrossMethodDescriptor.ParameterWordsAgree(d.parameterTypes);
    var parsed := CrossMethodDescriptor.Parse(m.desc).value;
    assert SpillWords(m, parsed) == CodeTranslator.ArgumentWords(info);
  }

  // ---------------------------------------------------------------------
  // Instructions whose effect the opcode decides

  lemma ConstantMoves(n: Node)
    requires Opcode(n) <= LDC && TranslateConstant(n, Opcode(n)).Ok?
    ensures WordDelta(Opcode(n)).Some?
    ensures SpEffect(TranslateConstant(n, Opcode(n)).value) == -4 * WordDelta(Opcode(n)).value
  {
    var op := Opcode(n);
    if op == NOP {
      assert TranslateConstant(n, op).value == [];
    } else if op == ACONST_NULL {
      PushPopMoves("x0");
    } else if ICONST_M1 <= op <= ICONST_5 {
      PushIntMoves(op - ICONST_0);
    } else if op == LCONST_0 || op == LCONST_1 {
      PushLongMoves(op - LCONST_0);
    } else if op == BIPUSH || op == SIPUSH {
      PushIntMoves(n.operand);
    }
  }

  lemma LocalMoves(n: Node)
    requires LDC < Opcode(n) <= SASTORE && TranslateLocalOrArray(n, Opcode(n)).Ok?
    requires Opcode(n) != LSTORE && Opcode(n) != DSTORE
    ensures WordDelta(Opcode(n)).Some?
    ensures SpEffect(TranslateLocalOrArray(n, Opcode(n)).value) == -4 * WordDelta(Opcode(n)).value
  {
    LocalsMove(n.varIndex);
  }

  lemma StackMoves(n: Node)
    requires SASTORE < Opcode(n) <= IINC && TranslateStackOrArithmetic(n, Opcode(n)).Ok?
    requires Opcode(n) != INEG && Opcode(n) != DUP2_X1
    ensures WordDelta(Opcode(n)).Some?
    ensures SpEffect(TranslateStackOrArithmetic(n, Opcode(n)).value) == -4 * WordDelta(Opcode(n)).value
  {
    var op := Opcode(n);
    var r := TranslateStackOrArithmetic(n, op).value;
    if op == POP || op == POP2 {
      SpEffectSingle(r, 0);
    } else if op == DUP_X2 {
      SpEffectSingle(CodeTranslator.DupX2LinesAsWritten, 3);
    } else if op == DUP2_X2 {
      SpEffectSingle(CodeTranslator.Dup2X2LinesAsWritten, 4);
    } else if op <= SWAP {
      ShufflesMove();
    } else if op == IINC {
      InPlaceMove("", n.varIndex, n.incr);
    } else {
      WordOpMoves(CodeTranslator.WordOpMnemonic(op).value);
    }
  }

  lemma ControlMoves(env: CrossEnv, n: Node)
    requires IINC < Opcode(n) <= RETURN && TranslateControl(env, n, Opcode(n)).Ok?
    ensures WordDelta(Opcode(n)).Some?
    ensures SpEffect(TranslateControl(env, n, Opcode(n)).value) == -4 * WordDelta(Opcode(n)).value
  {
    var op := Opcode(n);
    if op == I2B || op == I2C || op == I2S {
      NarrowMoves(env, n);
    } else if CodeTranslator.BranchKind(op).Some? {
      ConditionalMoves(env, n);
    } else if op == GOTO {
      SpEffectNone(TranslateControl(env, n, op).value);
    } else {
      ReturnMoves(env, n);
    }
  }

  lemma NarrowMoves(env: CrossEnv, n: Node)
    requires Opcode(n) == I2B || Opcode(n) == I2C || Opcode(n) == I2S
    ensures WordDelta(Opcode(n)) == Some(0)
    ensures TranslateControl(env, n, Opcode(n)).Ok? && SpEffect(TranslateControl(env, n, Opcode(n)).value) == 0
  {
    var op := Opcode(n);
    var load := if op == I2B then "lb" else if op == I2C then "lhu" else "lh";
    assert TranslateControl(env, n, op) == Ok(CodeTranslator.NarrowLines(load));
    InPlaceMove(load, 0, 0);
  }

  lemma ConditionalMoves(env: CrossEnv, n: Node)
    requires IINC < Opcode(n) <= RETURN && CodeTranslator.BranchKind(Opcode(n)).Some?
    requires TranslateControl(env, n, Opcode(n)).Ok?
    ensures WordDelta(Opcode(n)).Some?
    ensures SpEffect(TranslateControl(env, n, Opcode(n)).value) == -4 * WordDelta(Opcode(n)).value
  {
    var op := Opcode(n);
    var kind := CodeTranslator.BranchKind(op).value;
    var target := TargetLabel(env, n).value;
    assert TranslateControl(env, n, op) == Ok(CodeTranslator.BranchLines(kind.0, kind.1, target));
    BranchMoves(kind.0, kind.1, target);
  }

  lemma ReturnMoves(env: CrossEnv, n: Node)
    requires IRETURN <= Opcode(n) <= RETURN && TranslateControl(env, n, Opcode(n)).Ok?
    ensures WordDelta(Opcode(n)).Some?
    ensures SpEffect(TranslateControl(env, n, Opcode(n)).value) == -4 * WordDelta(Opcode(n)).value
  {
    ReturnsMove(CodeTranslator.ReturnLabel(env.mangledName));
  }

  lemma BranchOnNullMoves(env: CrossEnv, n: Node)
    requires (Opcode(n) == IFNULL || Opcode(n) == IFNONNULL) && TranslateObject(env, n, Opcode(n)).Ok?
    ensures WordDelta(Opcode(n)) == Some(-1)
    ensures SpEffect(TranslateObject(env, n, Opcode(n)).value) == 4
  {
    BranchMoves(if Opcode(n) == IFNULL then "beq" else "bne", true, TargetLabel(env, n).value);
  }

  /** Every instruction the cross generation lowers, other than the four
      whose printed template is off and the static call, moves sp by -4
      per word the JVM instruction adds to the operand stack. */
  lemma CrossNodeMatchesJvmStack(env: CrossEnv, n: Node)
    requires TranslateNode(env, n).Ok?
    requires Opcode(n) != INEG && Opcode(n) != DUP2_X1 && Opcode(n) != LSTORE && Opcode(n) != DSTORE
    requires Opcode(n) != INVOKESTATIC
    ensures WordDelta(Opcode(n)).Some?
    ensures SpEffect(TranslateNode(env, n).value) == -4 * WordDelta(Opcode(n)).value
  {
    var op := Opcode(n);
    if op <= LDC {
      ConstantMoves(n);
    } else if op <= SASTORE {
      LocalMoves(n);
    } else if op <= IINC {
      StackMoves(n);
    } else if op <= RETURN {
      ControlMoves(env, n);
    } else {
      BranchOnNullMoves(env, n);
    }
  }

  /** The templates the cross generation prints for INEG, DUP2_X1 and
      LSTORE/DSTORE move sp by one word more or less than the JVM
      instruction changes the stack depth. */
  lemma CrossAsWrittenMovesWrongly(env: CrossEnv, n: Node)
    requires TranslateNode(env, n).Ok?
    requires Opcode(n) == INEG || Opcode(n) == DUP2_X1 || Opcode(n) == LSTORE || Opcode(n) == DSTORE
    ensures WordDelta(Opcode(n)).Some?
    ensures Opcode(n) == INEG ==> SpEffect(TranslateNode(env, n).value) == -4 * WordDelta(INEG).value + 4
    ensures Opcode(n) == DUP2_X1 ==> SpEffect(TranslateNode(env, n).value) == -4 * WordDelta(DUP2_X1).value + 4
    ensures Opcode(n) == LSTORE || Opcode(n) == DSTORE ==>
      SpEffect(TranslateNode(env, n).value) == -4 * WordDelta(Opcode(n)).value - 4
  {
    var op := Opcode(n);
    if op == INEG {
      NegAsWrittenMoves(env, n);
    } else if op == DUP2_X1 {
      Dup2X1AsWrittenMoves(env, n);
    } else {
      WideStoreAsWrittenMoves(env, n);
    }
  }

  lemma NegAsWrittenMoves(env: CrossEnv, n: Node)
    requires Opcode(n) == INEG
    ensures TranslateNode(env, n) == Ok(CodeTranslator.NegLinesAsWritten)
    ensures SpEffect(TranslateNode(env, n).value) == 4
  {
    assert TranslateNode(env, n) == TranslateStackOrArithmetic(n, INEG);
    NegAsWrittenPops();
  }

  lemma Dup2X1AsWrittenMoves(env: CrossEnv, n: Node)
    requires Opcode(n) == DUP2_X1
    ensures TranslateNode(env, n) == Ok(CodeTranslator.Dup2X1LinesAsWritten)
    ensures SpEffect(TranslateNode(env, n).value) == -4
  {
    assert TranslateNode(env, n) == TranslateStackOrArithmetic(n, DUP2_X1);
    Dup2X1AsWrittenGrowsByOne();
  }

  lemma WideStoreAsWrittenMoves(env: CrossEnv, n: Node)
    requires (Opcode(n) == LSTORE || Opcode(n) == DSTORE) && TranslateNode(env, n).Ok?
    ensures n.VarInsnNode? && TranslateNode(env, n) == Ok(CodeTranslator.Store32(n.varIndex))
    ensures SpEffect(TranslateNode(env, n).value) == 4
  {
    assert TranslateNode(env, n) == TranslateLocalOrArray(n, Opcode(n));
    LocalsMove(n.varIndex);
  }

  // ---------------------------------------------------------------------
  // Static calls

  /** INVOKESTATIC pops the parameter words and pushes a0 (and a1) when
      `getReturnWords()` answers 1 (or 2), nothing for any other answer. */
  lemma StaticCallMoves(env: CrossEnv, n: Node)
    requires Opcode(n) == INVOKESTATIC && TranslateNode(env, n).Ok?
    ensures n.MethodInsnNode? && CrossMethodDescriptor.Parse(n.desc).Ok?
    ensures var d := CrossMethodDescriptor.Parse(n.desc).value;
      var rw := env.hooks.returnWords(d); var pw := CrossMethodDescriptor.ParameterWords(d.parameterTypes);
      && (0 <= rw <= 2 ==> SpEffect(TranslateNode(env, n).value) == -4 * (rw - pw))
      && (rw < 0 || rw > 2 ==> SpEffect(TranslateNode(env, n).value) == 4 * pw)
  {
    var d := CrossMethodDescriptor.Parse(n.desc).value;
    var rw := env.hooks.returnWords(d);
    CallsMove(CrossMethodDescriptor.ParameterWords(d.parameterTypes), if rw == 1 || rw == 2 then rw else 0,
              env.hooks.callName(n.owner, n.name, n.desc), 0, 0);
  }

  /** When the descriptor reads the same in both generations and
      `getReturnWords()` answers what the compiler generation's parser
      does, a static call moves sp by -4 per word the JVM call adds. */
  lemma StaticCallMatchesJvmStack(env: CrossEnv, n: Node, d: MethodDescriptor.MethodType)
    requires Opcode(n) == INVOKESTATIC && TranslateNode(env, n).Ok?
    requires n.MethodInsnNode? && n.desc == MethodDescriptor.ToString(d) && MethodDescriptor.AllScannerSafe(d)
    requires CrossMethodDescriptor.Parse(n.desc).Ok?
    requires env.hooks.returnWords(CrossMethodDescriptor.Parse(n.desc).value) == MethodDescriptor.ReturnWords(d)
    ensures CallDelta(INVOKESTATIC, Ok(d)).Some?
    ensures SpEffect(TranslateNode(env, n).value) == -4 * CallDelta(INVOKESTATIC, Ok(d)).value
  {
    StaticCallMoves(env, n);
    CrossMethodDescriptor.AgreesWithCompilerParser(d);
    CrossMethodDescriptor.ParameterWordsAgree(d.parameterTypes);
  }

  // ---------------------------------------------------------------------
  // Whole method bodies

  /** The words a return type text occupies: none for "V". */
  function ReturnTextWords(t: string): nat {
    if t == "V" then 0 else CrossMethodDescriptor.ParameterTextWords(t)
  }

  /** `getReturnWords()`, which the cross generation calls but does not
      define, answers the words of the descriptor's return type. */
  ghost predicate CountsReturnWords(h: Hooks) {
    forall d: CrossMethodDescriptor.CrossMethod :: h.returnWords(d) == ReturnTextWords(d.returnType)
  }

  /** The JVM stack effect of one instruction the cross generation lowers;
      a static call pops its parameter words and pushes its return words. */
  function CrossNodeDelta(n: Node): Option<int> {
    if Opcode(n) == INVOKESTATIC then
      if n.MethodInsnNode? && CrossMethodDescriptor.Parse(n.desc).Ok? then
        var d := CrossMethodDescriptor.Parse(n.desc).value;
        Some(ReturnTextWords(d.returnType) - CrossMethodDescriptor.ParameterWords(d.parameterTypes))
      else None
    else WordDelta(Opcode(n))
  }

  /** The JVM stack effect of a run of instructions, if every one has one. */
  function CrossBodyDelta(nodes: seq<Node>): Option<int>
    decreases |nodes|
  {
    if |nodes| == 0 then Some(0)
    else match (CrossNodeDelta(nodes[0]), CrossBodyDelta(nodes[1..]))
      case (Some(d), Some(rest)) => Some(d + rest)
      case _ => None
  }

  /** The instructions whose printed template moves sp by the wrong amount. */
  predicate CrossMovesWrongly(op: int) {
    op == INEG || op == DUP2_X1 || op == LSTORE || op == DSTORE
  }

  lemma CrossNodeMoves(env: CrossEnv, n: Node)
    requires TranslateNode(env, n).Ok? && !CrossMovesWrongly(Opcode(n)) && CountsReturnWords(env.hooks)
    ensures CrossNodeDelta(n).Some?
    ensures SpEffect(TranslateNode(env, n).value) == -4 * CrossNodeDelta(n).value
  {
    if Opcode(n) == INVOKESTATIC {
      StaticCallMoves(env, n);
      var d := CrossMethodDescriptor.Parse(n.desc).value;
      assert env.hooks.returnWords(d) == ReturnTextWords(d.returnType);
    } else {
      CrossNodeMatchesJvmStack(env, n);
    }
  }

  /** A body the cross generation translates moves sp by -4 per word its
      instructions leave on the JVM operand stack, when it holds none of
      the four instructions whose template is off and `getReturnWords()`
      counts the return type's words. */
  lemma {:induction false} CrossBodyMatchesJvmStack(env: CrossEnv, nodes: seq<Node>)
    requires TranslateAll(env, nodes).Ok? && CountsReturnWords(env.hooks)
    requires forall i | 0 <= i < |nodes| :: !CrossMovesWrongly(Opcode(nodes[i]))
    ensures CrossBodyDelta(nodes).Some?
    ensures SpEffect(TranslateAll(env, nodes).value) == -4 * CrossBodyDelta(nodes).value
    decreases |nodes|
  {
    if |nodes| > 0 {
      var first := TranslateNode(env, nodes[0]).value;
      var rest := TranslateAll(env, nodes[1..]).value;
      assert !CrossMovesWrongly(Opcode(nodes[0]));
      CrossNodeMoves(env, nodes[0]);
      forall i | 0 <= i < |nodes[1..]| ensures !CrossMovesWrongly(Opcode(nodes[1..][i])) {
        assert nodes[1..][i] == nodes[i + 1];
      }
      CrossBodyMatchesJvmStack(env, nodes[1..]);
      SpEffectAppend(first, rest);
    }
  }
}
