/** The bytecode-to-assembly translator of the compiler generation
    (`compiler/.../CodeTranslator`): one method body becomes a prologue,
    one template per instruction, and an epilogue.

    The JVM operand stack lives on the machine stack, one 4-byte word per
    stack slot, `sp` pointing at the top; local variable i lives at
    `4*i(s0)`. `Translate` prints every template as the translator does,
    including the ones that do not do what the JVM instruction does: DUP_X2,
    DUP2_X1, DUP2_X2, INEG, LSTORE/DSTORE and the field instructions (see
    `StackShuffles`, `TranslatorStack` and `TemplateRuns` for what they
    compute). The same switch with those templates corrected is the
    `Intended` edition, which states what the printed code should have
    been; the `Templates` value in `Env` chooses between the two.

    The compiler side the translator calls into, and the helpers whose
    definitions are not part of this model (the method's mangled label, a
    class's instance size, a vtable index lookup), are inputs. */
module CodeTranslator {
  import opened Wrappers
  import opened Text
  import opened JavaInts
  import opened Asm
  import opened Bytecode
  import FieldDescriptor
  import MethodDescriptor
  import NameUtil

  /** A field as the class table holds it (`FieldInfo`). */
  datatype FieldInfo = FieldInfo(access: nat, name: string, desc: string,
                                 parsed: FieldDescriptor.Descriptor, storageOffset: int)

  /** A resolved class, as far as the translator looks at it. */
  datatype ClassInfo = ClassInfo(name: string, superName: Option<string>, fields: seq<FieldInfo>)

  /** `CodeTranslator.Context`, with the calls it makes that the model
      takes as given:
      - `classes` and `resolveFailure`: `resolveClass`, which answers the
        class or fails;
      - `arrayHeaderSize`: `getArrayHeaderSize()`;
      - `stringLabel`: `getRuntimeObjectLabel` of a string constant;
      - `arrayVtableLabel`: `getRuntimeObjectLabel` of the vtable of the
        array metadata `resolveObjectMetadata(name)` answers, or its failure;
      - `instanceWords`: `fieldAllocator.getWordCount()` of a class;
      - `vtableIndex`: `vtableAllocator.findByName(name).vtableIndex` of a
        class, or its failure. */
  datatype Context = Context(
    classes: map<string, ClassInfo>,
    resolveFailure: string -> Exception,
    arrayHeaderSize: int,
    stringLabel: string -> string,
    arrayVtableLabel: string -> Result<string>,
    instanceWords: string -> int,
    vtableIndex: (string, string) -> Result<int>)

  /** A method to translate (`MethodInfo`); `mangledName` is the label
      `NameUtil.mangleMethodName(methodInfo)` gives it. */
  datatype MethodInfo = MethodInfo(access: nat, maxLocals: nat, mangledName: string,
                                   descriptor: MethodDescriptor.MethodType, instructions: seq<Node>)

  /** The templates the switch prints: the translator's own, or the
      corrected ones for DUP_X2, DUP2_X1, DUP2_X2, INEG, LSTORE/DSTORE and
      the field instructions. */
  datatype Templates = AsPrinted | Intended

  /** What every instruction template sees: the context, the method's
      label, the labels of its label nodes in order, and the edition of
      the templates. */
  datatype Env = Env(ctx: Context, mangledName: string, labels: seq<nat>, templates: Templates)

  function ReturnLabel(mangledName: string): string {
    mangledName + "__return"
  }

  function ResolveClass(ctx: Context, name: string): (r: Result<ClassInfo>)
    ensures r.Ok? <==> name in ctx.classes
  {
    if name in ctx.classes then Ok(ctx.classes[name]) else Err(ctx.resolveFailure(name))
  }

  const T0 := Reg("t0")
  const T1 := Reg("t1")
  const T2 := Reg("t2")
  const T3 := Reg("t3")
  const A0 := Reg("a0")
  const A1 := Reg("a1")

  function ArgReg(i: nat): Operand {
    Reg("a" + NatToString(i))
  }

  // ---------------------------------------------------------------------
  // Frame

  /** The four instructions after the method label: make room for the
      locals plus two saved registers, save `ra` and `s0`, point `s0` at
      the frame. */
  function FrameSetup(maxLocals: nat): seq<Line> {
    [Insn("addi", [SP, SP, Imm(-((maxLocals + 2) * 4))]),
     Insn("sw", [Reg("ra"), Mem(maxLocals * 4, "sp")]),
     Insn("sw", [Reg("s0"), Mem((maxLocals + 1) * 4, "sp")]),
     Insn("mv", [Reg("s0"), SP])]
  }

  /** Argument registers a0.. copied to the first local slots. */
  function Spill(words: nat): (r: seq<Line>)
    ensures |r| == words
  {
    if words == 0 then [] else Spill(words - 1) + [Insn("sw", [ArgReg(words - 1), Mem((words - 1) * 4, "s0")])]
  }

  /** Line `i` of a spill stores argument register `i` in local slot `i`. */
  lemma {:induction false} SpillLines(words: nat)
    ensures forall i | 0 <= i < words :: Spill(words)[i] == Insn("sw", [ArgReg(i), Mem(i * 4, "s0")])
  {
    if words > 0 {
      SpillLines(words - 1);
    }
  }

  /** Restore `s0` and `ra` from where the setup saved them, and release
      the frame. */
  function FrameTeardown(maxLocals: nat): seq<Line> {
    [Insn("lw", [Reg("s0"), Mem((maxLocals + 1) * 4, "sp")]),
     Insn("lw", [Reg("ra"), Mem(maxLocals * 4, "sp")]),
     Insn("add", [SP, SP, Imm((maxLocals + 2) * 4)])]
  }

  /** The number of argument words a method receives: its parameters, plus
      `this` unless it is static. */
  function ArgumentWords(m: MethodInfo): nat {
    (if HasFlag(m.access, ACC_STATIC) then 0 else 1) + MethodDescriptor.ParameterWords(m.descriptor.parameterTypes)
  }

  function Prologue(m: MethodInfo): seq<Line> {
    [LabelDef(m.mangledName)] + FrameSetup(m.maxLocals) + Spill(ArgumentWords(m))
  }

  function Epilogue(m: MethodInfo): seq<Line> {
    [LabelDef(ReturnLabel(m.mangledName))] + FrameTeardown(m.maxLocals) + [Insn("ret", []), Blank]
  }

  // ---------------------------------------------------------------------
  // Labels

  /** `getLabelName(label)`: the method's label, '_', and the position of
      the label among the method's label nodes. */
  function LabelName(env: Env, l: nat): (r: Result<string>)
    ensures r.Ok? <==> l in env.labels
    ensures r.Ok? ==> r.value == env.mangledName + "_" + NatToString(FirstIndex(env.labels, l))
    ensures r.Err? ==> r.error == Runtime("referring to unknown internal label")
  {
    var index := FirstIndex(env.labels, l);
    if index < 0 then Err(Runtime("referring to unknown internal label"))
    else Ok(env.mangledName + "_" + NatToString(index))
  }

  /** Two labels get the same name only if they are the same label. */
  lemma LabelNamesInjective(env: Env, l1: nat, l2: nat)
    requires LabelName(env, l1).Ok? && LabelName(env, l2).Ok?
    requires LabelName(env, l1).value == LabelName(env, l2).value
    ensures l1 == l2
  {
    var i1 := FirstIndex(env.labels, l1);
    var i2 := FirstIndex(env.labels, l2);
    PrefixedNumberInjective(env.mangledName + "_", i1, i2);
  }

  // ---------------------------------------------------------------------
  // Stack and local-variable templates

  /** `pushInt`: load the constant into t0 and push it. */
  function PushInt(value: int): seq<Line> {
    [Insn("li", [T0, Imm(value)])] + Push("t0")
  }

  /** `pushLong`: the high word `(int) (value >> 32)` first, then the low
      word `(int) value`. */
  function PushLong(value: int): seq<Line> {
    PushInt(Wrap32(value / 0x1_0000_0000)) + PushInt(Wrap32(value))
  }

  function Load32(index: int): seq<Line> {
    [Insn("lw", [T0, Mem(index * 4, "s0")])] + Push("t0")
  }

  function Store32(index: int): seq<Line> {
    Pop("t0") + [Insn("sw", [T0, Mem(index * 4, "s0")])]
  }

  /** `load64`: the word of local index+1 first, so that local `index`
      ends on top. */
  function Load64(index: int): seq<Line> {
    Load32(index + 1) + Load32(index)
  }

  /** `store64`: the inverse of `load64`. The translator as written never
      calls it and stores long and double locals with `store32`. */
  function Store64(index: int): seq<Line> {
    Store32(index) + Store32(index + 1)
  }

  /** `wordOp`: the two top words combined into one. */
  function WordOp(instruction: string): seq<Line> {
    [Insn("lw", [T0, Mem(4, "sp")]),
     Insn("lw", [T1, Mem(0, "sp")]),
     Insn(instruction, [T0, T0, T1]),
     Insn("add", [SP, SP, Imm(4)]),
     Insn("sw", [T0, Mem(0, "sp")])]
  }

  const DupLines: seq<Line> :=
    [Insn("lw", [T0, Mem(0, "sp")]), Insn("addi", [SP, SP, Imm(-4)]), Insn("sw", [T0, Mem(0, "sp")])]

  const DupX1Lines: seq<Line> :=
    [Insn("lw", [T0, Mem(0, "sp")]), Insn("lw", [T1, Mem(4, "sp")]), Insn("addi", [SP, SP, Imm(-4)]),
     Insn("sw", [T0, Mem(0, "sp")]), Insn("sw", [T1, Mem(4, "sp")]), Insn("sw", [T0, Mem(8, "sp")])]

  /** DUP_X2 as printed: the last store goes to `0(sp)` again. */
  const DupX2LinesAsWritten: seq<Line> :=
    [Insn("lw", [T0, Mem(0, "sp")]), Insn("lw", [T1, Mem(4, "sp")]), Insn("lw", [T2, Mem(8, "sp")]),
     Insn("addi", [SP, SP, Imm(-4)]),
     Insn("sw", [T0, Mem(0, "sp")]), Insn("sw", [T1, Mem(4, "sp")]), Insn("sw", [T2, Mem(8, "sp")]),
     Insn("sw", [T0, Mem(0, "sp")])]

  /** DUP_X2 with the copy of the top word stored below the third word. */
  const DupX2Lines: seq<Line> :=
    [Insn("lw", [T0, Mem(0, "sp")]), Insn("lw", [T1, Mem(4, "sp")]), Insn("lw", [T2, Mem(8, "sp")]),
     Insn("addi", [SP, SP, Imm(-4)]),
     Insn("sw", [T0, Mem(0, "sp")]), Insn("sw", [T1, Mem(4, "sp")]), Insn("sw", [T2, Mem(8, "sp")]),
     Insn("sw", [T0, Mem(12, "sp")])]

  /** DUP2_X1 as printed: the stack grows by one word only. */
  const Dup2X1LinesAsWritten: seq<Line> :=
    [Insn("lw", [T0, Mem(0, "sp")]), Insn("lw", [T1, Mem(4, "sp")]), Insn("lw", [T2, Mem(8, "sp")]),
     Insn("addi", [SP, SP, Imm(-4)]),
     Insn("sw", [T0, Mem(0, "sp")]), Insn("sw", [T1, Mem(4, "sp")]), Insn("sw", [T2, Mem(8, "sp")]),
     Insn("sw", [T0, Mem(12, "sp")]), Insn("sw", [T1, Mem(16, "sp")])]

  /** DUP2_X1 with the stack grown by the two words it gains. */
  const Dup2X1Lines: seq<Line> :=
    [Insn("lw", [T0, Mem(0, "sp")]), Insn("lw", [T1, Mem(4, "sp")]), Insn("lw", [T2, Mem(8, "sp")]),
     Insn("addi", [SP, SP, Imm(-8)]),
     Insn("sw", [T0, Mem(0, "sp")]), Insn("sw", [T1, Mem(4, "sp")]), Insn("sw", [T2, Mem(8, "sp")]),
     Insn("sw", [T0, Mem(12, "sp")]), Insn("sw", [T1, Mem(16, "sp")])]

  /** DUP2_X2 as printed: t3 is loaded from `8(sp)`, like t2. */
  const Dup2X2LinesAsWritten: seq<Line> :=
    [Insn("lw", [T0, Mem(0, "sp")]), Insn("lw", [T1, Mem(4, "sp")]), Insn("lw", [T2, Mem(8, "sp")]),
     Insn("lw", [T3, Mem(8, "sp")]),
     Insn("addi", [SP, SP, Imm(-8)]),
     Insn("sw", [T0, Mem(0, "sp")]), Insn("sw", [T1, Mem(4, "sp")]), Insn("sw", [T2, Mem(8, "sp")]),
     Insn("sw", [T3, Mem(12, "sp")]), Insn("sw", [T0, Mem(16, "sp")]), Insn("sw", [T1, Mem(20, "sp")])]

  /** DUP2_X2 with t3 loaded from the fourth word. */
  const Dup2X2Lines: seq<Line> :=
    [Insn("lw", [T0, Mem(0, "sp")]), Insn("lw", [T1, Mem(4, "sp")]), Insn("lw", [T2, Mem(8, "sp")]),
     Insn("lw", [T3, Mem(12, "sp")]),
     Insn("addi", [SP, SP, Imm(-8)]),
     Insn("sw", [T0, Mem(0, "sp")]), Insn("sw", [T1, Mem(4, "sp")]), Insn("sw", [T2, Mem(8, "sp")]),
     Insn("sw", [T3, Mem(12, "sp")]), Insn("sw", [T0, Mem(16, "sp")]), Insn("sw", [T1, Mem(20, "sp")])]

  const SwapLines: seq<Line> :=
    [Insn("lw", [T0, Mem(0, "sp")]), Insn("lw", [T1, Mem(4, "sp")]),
     Insn("sw", [T1, Mem(0, "sp")]), Insn("sw", [T0, Mem(4, "sp")])]

  /** INEG as printed: `wordOp("neg")`, which combines two words into one
      with a three-operand `neg`. */
  const NegLinesAsWritten: seq<Line> := WordOp("neg")

  /** INEG negating the top word in place. */
  const NegLines: seq<Line> :=
    [Insn("lw", [T0, Mem(0, "sp")]), Insn("neg", [T0, T0]), Insn("sw", [T0, Mem(0, "sp")])]

  /** `lb`/`lhu`/`lh t0, 0(sp)` then `sw t0, 0(sp)`: I2B, I2C, I2S. */
  function NarrowLines(load: string): seq<Line> {
    [Insn(load, [T0, Mem(0, "sp")]), Insn("sw", [T0, Mem(0, "sp")])]
  }

  function IincLines(index: int, incr: int): seq<Line> {
    [Insn("lw", [T0, Mem(index * 4, "s0")]),
     Insn("addi", [T0, T0, Imm(incr)]),
     Insn("sw", [T0, Mem(index * 4, "s0")])]
  }

  // ---------------------------------------------------------------------
  // Control transfer

  /** `branch`: compare the top word with zero, or the two top words with
      each other, and jump. */
  function BranchLines(instruction: string, implicitZero: bool, target: string): seq<Line> {
    (if implicitZero then [] else Pop("t1")) + Pop("t0")
      + [Insn(instruction, [T0, if implicitZero then Reg("x0") else T1, Sym(target)])]
  }

  function Branch(env: Env, n: Node, instruction: string, implicitZero: bool): (r: Result<seq<Line>>)
  {
    var l :- AsJump(n);
    var target :- LabelName(env, l);
    Ok(BranchLines(instruction, implicitZero, target))
  }

  // ---------------------------------------------------------------------
  // Field access

  /** `getFieldWords`: 2 exactly for the descriptors "J" and "D". */
  function FieldWords(desc: string): (n: nat)
    ensures n == 1 || n == 2
  {
    if desc == "J" || desc == "D" then 2 else 1
  }

  function GetstaticLines(offset: int, words: nat, load: string): seq<Line> {
    if words == 1 then
      [Insn("addi", [SP, SP, Imm(-4)]),
       Insn(load, [T0, SymPlus("staticFields", offset)]),
       Insn("sw", [T0, Mem(0, "sp")])]
    else
      [Insn("addi", [SP, SP, Imm(-8)]),
       Insn("lw", [T0, SymPlus("staticFields", offset)]),
       Insn("sw", [T0, Mem(0, "sp")]),
       Insn("lw", [T0, SymPlus("staticFields", offset + 4)]),
       Insn("sw", [T0, Mem(4, "sp")])]
  }

  function PutstaticLines(offset: int, words: nat, store: string): seq<Line> {
    if words == 1 then
      [Insn("lw", [T0, Mem(0, "sp")]),
       Insn(store, [T0, SymPlus("staticFields", offset)]),
       Insn("addi", [SP, SP, Imm(4)])]
    else
      [Insn("lw", [T0, Mem(0, "sp")]),
       Insn("sw", [T0, SymPlus("staticFields", offset)]),
       Insn("lw", [T0, Mem(4, "sp")]),
       Insn("sw", [T0, SymPlus("staticFields", offset + 4)]),
       Insn("addi", [SP, SP, Imm(8)])]
  }

  function GetfieldLines(offset: int, words: nat, load: string): seq<Line> {
    if words == 1 then
      [Insn("lw", [T1, Mem(0, "sp")]),
       Insn(load, [T0, Mem(offset, "t1")]),
       Insn("sw", [T0, Mem(0, "sp")])]
    else
      [Insn("lw", [T1, Mem(0, "sp")]),
       Insn("addi", [SP, SP, Imm(-4)]),
       Insn("lw", [T0, Mem(offset, "t1")]),
       Insn("sw", [T0, Mem(0, "sp")]),
       Insn("lw", [T0, Mem(offset + 4, "t1")]),
       Insn("sw", [T0, Mem(4, "sp")])]
  }

  /** PUTFIELD as printed: for one word, the store mnemonic is applied to
      `t0, 0(sp)`, so t0 is never loaded, and the object's field receives
      whatever t0 held, always through `sw`. */
  function PutfieldLinesAsWritten(offset: int, words: nat, store: string): seq<Line> {
    if words == 1 then
      [Insn("lw", [T1, Mem(4, "sp")]),
       Insn(store, [T0, Mem(0, "sp")]),
       Insn("sw", [T0, Mem(offset, "t1")]),
       Insn("addi", [SP, SP, Imm(8)])]
    else PutfieldLines(offset, words, store)
  }

  /** PUTFIELD with the value loaded into t0 and stored into the object
      with the field's store mnemonic. */
  function PutfieldLines(offset: int, words: nat, store: string): seq<Line> {
    if words == 1 then
      [Insn("lw", [T1, Mem(4, "sp")]),
       Insn("lw", [T0, Mem(0, "sp")]),
       Insn(store, [T0, Mem(offset, "t1")]),
       Insn("addi", [SP, SP, Imm(8)])]
    else
      [Insn("lw", [T1, Mem(8, "sp")]),
       Insn("lw", [T0, Mem(0, "sp")]),
       Insn("sw", [T0, Mem(offset, "t1")]),
       Insn("lw", [T0, Mem(4, "sp")]),
       Insn("sw", [T0, Mem(offset + 4, "t1")]),
       Insn("addi", [SP, SP, Imm(12)])]
  }

  /** The first field of the list with that name, skipping private ones
      unless they are allowed. */
  function FindField(fields: seq<FieldInfo>, name: string, allowPrivate: bool): (r: Option<FieldInfo>)
    ensures r.Some? ==> r.value in fields && r.value.name == name
    ensures r.Some? ==> allowPrivate || !HasFlag(r.value.access, ACC_PRIVATE)
    ensures r.None? <==> forall f | f in fields :: f.name != name || (!allowPrivate && HasFlag(f.access, ACC_PRIVATE))
  {
    if |fields| == 0 then None
    else if (allowPrivate || !HasFlag(fields[0].access, ACC_PRIVATE)) && fields[0].name == name then Some(fields[0])
    else
      var r := FindField(fields[1..], name, allowPrivate);
      assert forall f | f in fields :: f == fields[0] || f in fields[1..];
      r
  }

  /** `resolveField(classNode, name, allowPrivate)`: search the class, then
      its superclasses. Classes seen on the way are collected in `visited`;
      meeting one again is the endless recursion the code would run into. */
  function ResolveFieldIn(ctx: Context, c: ClassInfo, name: string, allowPrivate: bool, visited: set<string>): (r: Result<FieldInfo>)
    requires visited <= ctx.classes.Keys
    ensures r.Ok? ==> r.value.name == name
    ensures r.Ok? && (!allowPrivate || r.value !in c.fields) ==> !HasFlag(r.value.access, ACC_PRIVATE)
    ensures FindField(c.fields, name, allowPrivate).Some? ==> r == Ok(FindField(c.fields, name, allowPrivate).value)
    ensures FindField(c.fields, name, allowPrivate).None? && c.superName.None? ==>
      r == Err(Runtime("could not resolve field " + name + " in class " + c.name))
    decreases ctx.classes.Keys - visited
  {
    var own := FindField(c.fields, name, allowPrivate);
    if own.Some? then Ok(own.value)
    else if c.superName.None? then Err(Runtime("could not resolve field " + name + " in class " + c.name))
    else
      var s := c.superName.value;
      if s !in ctx.classes then Err(ctx.resolveFailure(s))
      else if s in visited then Err(StackOverflow(""))
      else
        var inherited := ResolveFieldIn(ctx, ctx.classes[s], name, false, visited + {s});
        inherited
  }

  /** `resolveField(FieldInsnNode)`: start at the owner, private fields
      allowed there. */
  function ResolveField(ctx: Context, owner: string, name: string): (r: Result<FieldInfo>)
  {
    var c :- ResolveClass(ctx, owner);
    ResolveFieldIn(ctx, c, name, true, {owner})
  }

  /** The four field instructions as printed: the load or store mnemonic
      is asked of the field's descriptor before the number of words is
      looked at, so a long or double field fails. */
  function FieldAccessAsWritten(env: Env, n: Node): (r: Result<seq<Line>>)
    requires Opcode(n) in {GETSTATIC, PUTSTATIC, GETFIELD, PUTFIELD}
  {
    if !n.FieldInsnNode? then Err(CastError(n, "FieldInsnNode"))
    else
      var f :- ResolveField(env.ctx, n.owner, n.name);
      var words := FieldWords(f.desc);
      if n.op == GETSTATIC || n.op == GETFIELD then
        var load :- FieldDescriptor.LoadInstruction(f.parsed);
        Ok(if n.op == GETSTATIC then GetstaticLines(f.storageOffset, words, load)
           else GetfieldLines(f.storageOffset, words, load))
      else
        var store :- FieldDescriptor.StoreInstruction(f.parsed);
        Ok(if n.op == PUTSTATIC then PutstaticLines(f.storageOffset, words, store)
           else PutfieldLinesAsWritten(f.storageOffset, words, store))
  }

  /** The four field instructions with the mnemonic asked for only when
      the field is one word wide; the two-word templates use `lw`/`sw`. */
  function FieldAccess(env: Env, n: Node): (r: Result<seq<Line>>)
    requires Opcode(n) in {GETSTATIC, PUTSTATIC, GETFIELD, PUTFIELD}
  {
    if !n.FieldInsnNode? then Err(CastError(n, "FieldInsnNode"))
    else
      var f :- ResolveField(env.ctx, n.owner, n.name);
      var words := FieldWords(f.desc);
      if n.op == GETSTATIC || n.op == GETFIELD then
        var load :- if words == 1 then FieldDescriptor.LoadInstruction(f.parsed) else Ok("lw");
        Ok(if n.op == GETSTATIC then GetstaticLines(f.storageOffset, words, load)
           else GetfieldLines(f.storageOffset, words, load))
      else
        var store :- if words == 1 then FieldDescriptor.StoreInstruction(f.parsed) else Ok("sw");
        Ok(if n.op == PUTSTATIC then PutstaticLines(f.storageOffset, words, store)
           else PutfieldLines(f.storageOffset, words, store))
  }

  /** The field instructions of the chosen edition. */
  function FieldInstruction(env: Env, n: Node): (r: Result<seq<Line>>)
    requires Opcode(n) in {GETSTATIC, PUTSTATIC, GETFIELD, PUTFIELD}
  {
    if env.templates.Intended? then FieldAccess(env, n) else FieldAccessAsWritten(env, n)
  }

  /** A long or double field: the field instructions as printed fail
      asking its descriptor for a load or store instruction, so the
      two-word templates are never reached. */
  lemma WideFieldAsWrittenFails(env: Env, n: Node)
    requires Opcode(n) in {GETSTATIC, PUTSTATIC, GETFIELD, PUTFIELD} && n.FieldInsnNode?
    requires ResolveField(env.ctx, n.owner, n.name).Ok?
    requires var f := ResolveField(env.ctx, n.owner, n.name).value;
      FieldDescriptor.ToString(f.parsed) == f.desc && FieldWords(f.desc) == 2
    ensures FieldAccessAsWritten(env, n).Err?
    ensures FieldAccessAsWritten(env, n).error.UnsupportedOperation?
  {
  }

  /** The same field with the corrected instructions: the two-word
      template of the instruction, with plain word loads and stores. */
  lemma WideFieldAccessPrintsTwoWords(env: Env, n: Node)
    requires Opcode(n) in {GETSTATIC, PUTSTATIC, GETFIELD, PUTFIELD} && n.FieldInsnNode?
    requires ResolveField(env.ctx, n.owner, n.name).Ok?
    requires FieldWords(ResolveField(env.ctx, n.owner, n.name).value.desc) == 2
    ensures var o := ResolveField(env.ctx, n.owner, n.name).value.storageOffset;
      FieldAccess(env, n) == Ok(
        if n.op == GETSTATIC then GetstaticLines(o, 2, "lw")
        else if n.op == GETFIELD then GetfieldLines(o, 2, "lw")
        else if n.op == PUTSTATIC then PutstaticLines(o, 2, "sw")
        else PutfieldLines(o, 2, "sw"))
  {
  }

  // ---------------------------------------------------------------------
  // Array access and allocation

  function ArrayLoadLines(shift: nat, doubleword: bool, load: string, header: int): seq<Line> {
    [Insn("lw", [T0, Mem(4, "sp")]),
     Insn("lw", [T1, Mem(0, "sp")]),
     Insn("sll", [T1, T1, Imm(shift)]),
     Insn("add", [T0, T0, T1])]
    + (if doubleword then
         [Insn("lw", [T2, Mem(header, "t0")]),
          Insn("lw", [T3, Mem(header + 4, "t0")]),
          Insn("sw", [T2, Mem(0, "sp")]),
          Insn("sw", [T3, Mem(4, "sp")])]
       else
         [Insn(load, [T2, Mem(header, "t0")]),
          Insn("addi", [SP, SP, Imm(4)]),
          Insn("sw", [T2, Mem(0, "sp")])])
  }

  function ArrayStoreLines(shift: nat, doubleword: bool, store: string, header: int): seq<Line> {
    (if doubleword then
       [Insn("lw", [T0, Mem(12, "sp")]),
        Insn("lw", [T1, Mem(8, "sp")]),
        Insn("lw", [T2, Mem(4, "sp")]),
        Insn("lw", [T3, Mem(0, "sp")]),
        Insn("addi", [SP, SP, Imm(16)])]
     else
       [Insn("lw", [T0, Mem(8, "sp")]),
        Insn("lw", [T1, Mem(4, "sp")]),
        Insn("lw", [T2, Mem(0, "sp")]),
        Insn("addi", [SP, SP, Imm(12)])])
    + [Insn("sll", [T1, T1, Imm(shift)]),
       Insn("add", [T0, T0, T1])]
    + (if doubleword then
         [Insn("sw", [T2, Mem(header, "t0")]),
          Insn("sw", [T3, Mem(header + 4, "t0")])]
       else
         [Insn(store, [T2, Mem(header, "t0")])])
  }

  /** The size-in-bytes shift of `allocateMemory`'s element count, then the
      header, the vtable and the call. */
  function AllocateArrayLines(shift: nat, header: int, vtable: string): seq<Line> {
    Pop("a0")
    + [Insn("sll", [A0, A0, Imm(shift)]),
       Insn("add", [A0, A0, Imm(header)]),
       Insn("la", [A1, Sym(vtable)]),
       Insn("call", [Sym("allocateMemory")])]
    + Push("a0")
  }

  /** The factor `sll` by `shift` multiplies with. */
  function ShiftFactor(shift: nat): nat {
    if shift == 0 then 1 else 2 * ShiftFactor(shift - 1)
  }

  /** NEWARRAY's element type code (section 6.5 of The Java Virtual Machine
      Specification, `newarray`) to the array class and the shift: the
      class is the one-dimensional array of a base type, and shifting the
      element count multiplies it by that base type's size. */
  function NewarrayType(code: int): (r: Option<(string, nat)>)
    ensures r.Some? <==> 4 <= code <= 11
    ensures r.Some? ==> |r.value.0| == 2 && r.value.0[0] == '[' && FieldDescriptor.IsBaseType(r.value.0[1])
    ensures r.Some? ==> ShiftFactor(r.value.1) == FieldDescriptor.LeafBytes(FieldDescriptor.FieldType(1, r.value.0[1], None))
  {
    if code == 4 then Some(("[Z", 0))
    else if code == 8 then Some(("[B", 0))
    else if code == 9 then Some(("[S", 1))
    else if code == 5 then Some(("[C", 1))
    else if code == 10 then Some(("[I", 2))
    else if code == 6 then Some(("[F", 2))
    else if code == 11 then Some(("[J", 3))
    else if code == 7 then Some(("[D", 3))
    else None
  }

  /** The array class NEWARRAY asks for is a valid field descriptor of
      dimension one, and distinct codes ask for distinct classes. */
  lemma NewarrayTypeParses(code: int, other: int)
    requires NewarrayType(code).Some?
    ensures var name := NewarrayType(code).value.0;
      FieldDescriptor.Parse(name) == Ok(FieldDescriptor.FieldType(1, name[1], None))
    ensures NewarrayType(other).Some? && other != code ==> NewarrayType(other).value.0 != NewarrayType(code).value.0
  {
    var name := NewarrayType(code).value.0;
    assert name[1..] == [name[1]];
    assert FieldDescriptor.MatchesFieldPattern(name);
    assert FieldDescriptor.LeadingBrackets(name[1..]) == 0;
  }

  // ---------------------------------------------------------------------
  // Invocation

  /** Argument words moved from the stack to a0.. (the deepest word to
      a0), then the words dropped from the stack. */
  function LoadArguments(words: nat): (r: seq<Line>)
    ensures |r| == words + 1
    ensures forall i | 0 <= i < words :: r[i] == Insn("lw", [ArgReg(i), Mem(4 * (words - 1 - i), "sp")])
    ensures r[words] == Insn("addi", [SP, SP, Imm(4 * words)])
  {
    seq(words, i requires 0 <= i < words => Insn("lw", [ArgReg(i), Mem(4 * (words - 1 - i), "sp")]))
      + [Insn("addi", [SP, SP, Imm(4 * words)])]
  }

  /** a0 (and a1) pushed back as the result. */
  function PushResult(returnWords: nat): seq<Line> {
    if returnWords == 1 then [Insn("addi", [SP, SP, Imm(-4)]), Insn("sw", [A0, Mem(0, "sp")])]
    else if returnWords == 2 then
      [Insn("addi", [SP, SP, Imm(-8)]), Insn("sw", [A0, Mem(0, "sp")]), Insn("sw", [A1, Mem(4, "sp")])]
    else []
  }

  function InvokeNonvirtualLines(words: nat, returnWords: nat, callee: string): seq<Line> {
    LoadArguments(words) + [Insn("call", [Sym(callee)])] + PushResult(returnWords)
  }

  /** The code pointer is read from the vtable at the array header size
      plus 4 per vtable slot. */
  function InvokeVirtualLines(words: nat, returnWords: nat, vtableIndex: int, header: int): seq<Line> {
    LoadArguments(words)
    + [Insn("lw", [T0, Mem(0, "a0")]),
       Insn("lw", [T0, Mem(header + 4 * vtableIndex, "t0")]),
       Insn("jalr", [T0])]
    + PushResult(returnWords)
  }

  /** The words a call takes from the stack: the parameters, and the
      receiver unless the method is static. */
  function CallWords(d: MethodDescriptor.MethodType, staticMethod: bool): nat {
    MethodDescriptor.ParameterWords(d.parameterTypes) + (if staticMethod then 0 else 1)
  }

  /** `invokenonvirtual`: INVOKESPECIAL and INVOKESTATIC call the
      method's label directly. */
  function InvokeNonvirtual(call: Node, staticMethod: bool): (r: Result<seq<Line>>)
    requires call.MethodInsnNode?
  {
    NonvirtualCall(call, staticMethod, MethodDescriptor.Parse(call.desc))
  }

  /** The body of `invokenonvirtual` given the outcome of parsing the
      call's descriptor. */
  function NonvirtualCall(call: Node, staticMethod: bool, parsed: Result<MethodDescriptor.MethodType>): (r: Result<seq<Line>>)
    requires call.MethodInsnNode?
    ensures r.Ok? <==> parsed.Ok?
  {
    var d :- parsed;
    Ok(InvokeNonvirtualLines(CallWords(d, staticMethod), MethodDescriptor.ReturnWords(d), NameUtil.MangleCallName(call.owner, call.name, call.desc)))
  }

  /** `invokevirtual`: the receiver's vtable slot for the method's name. */
  function InvokeVirtual(env: Env, call: Node): (r: Result<seq<Line>>)
    requires call.MethodInsnNode?
  {
    VirtualCall(env, call, MethodDescriptor.Parse(call.desc))
  }

  /** The body of `invokevirtual` given the outcome of parsing the call's
      descriptor; the owner and the vtable slot are looked up first. */
  function VirtualCall(env: Env, call: Node, parsed: Result<MethodDescriptor.MethodType>): (r: Result<seq<Line>>)
    requires call.MethodInsnNode?
    ensures r.Ok? ==> parsed.Ok?
  {
    var target :- ResolveClass(env.ctx, call.owner);
    var index :- env.ctx.vtableIndex(target.name, call.name);
    var d :- parsed;
    Ok(InvokeVirtualLines(CallWords(d, false), MethodDescriptor.ReturnWords(d),
                          index, env.ctx.arrayHeaderSize))
  }

  function Invoke(env: Env, n: Node): (r: Result<seq<Line>>)
    requires Opcode(n) in {INVOKEVIRTUAL, INVOKESPECIAL, INVOKESTATIC}
  {
    if !n.MethodInsnNode? then Err(CastError(n, "MethodInsnNode"))
    else if n.op == INVOKEVIRTUAL then InvokeVirtual(env, n)
    else InvokeNonvirtual(n, n.op == INVOKESTATIC)
  }

  // ---------------------------------------------------------------------
  // The instruction switch

  /** `new NotYetImplementedException()`, which carries no message. */
  const NotYet: Exception := NotYetImplemented("")

  function UnknownOpcode(op: int): Exception {
    Runtime("unknown opcode: " + IntToString(op))
  }

  /** The integer operations that `wordOp` prints, by opcode. */
  function WordOpMnemonic(op: int): Option<string> {
    if op == IADD then Some("add")
    else if op == ISUB then Some("sub")
    else if op == IMUL then Some("mul")
    else if op == IDIV then Some("div")
    else if op == IREM then Some("rem")
    else if op == INEG then Some("neg")
    else if op == ISHL then Some("sll")
    else if op == ISHR then Some("sra")
    else if op == IUSHR then Some("srl")
    else if op == IAND then Some("and")
    else if op == IOR then Some("or")
    else if op == IXOR then Some("xor")
    else None
  }

  /** The branch instructions: the machine instruction and whether the
      comparison is with zero. */
  function BranchKind(op: int): Option<(string, bool)> {
    if op == IFEQ || op == IFNULL then Some(("beq", true))
    else if op == IFNE || op == IFNONNULL then Some(("bne", true))
    else if op == IFLT then Some(("blt", true))
    else if op == IFGE then Some(("bge", true))
    else if op == IFGT then Some(("bgt", true))
    else if op == IFLE then Some(("ble", true))
    else if op == IF_ICMPEQ || op == IF_ACMPEQ then Some(("beq", false))
    else if op == IF_ICMPNE || op == IF_ACMPNE then Some(("bne", false))
    else if op == IF_ICMPLT then Some(("blt", false))
    else if op == IF_ICMPGE then Some(("bge", false))
    else if op == IF_ICMPGT then Some(("bgt", false))
    else if op == IF_ICMPLE then Some(("ble", false))
    else None
  }

  /** The opcodes that throw `NotYetImplementedException`: float and
      double constants and arithmetic, every long operation except
      constants, loads, array access, stores and returns, the conversions
      other than I2B/I2C/I2S, the comparisons, subroutines, switches,
      interface and dynamic calls, exceptions, type checks, monitors and
      multi-dimensional arrays. */
  predicate NotYetLowered(op: int) {
    (FCONST_0 <= op <= DCONST_1)
    || (IADD <= op <= LXOR && WordOpMnemonic(op).None?)
    || (I2L <= op <= D2F) || (LCMP <= op <= DCMPG)
    || (JSR <= op <= LOOKUPSWITCH) || op == INVOKEINTERFACE || op == INVOKEDYNAMIC
    || (ATHROW <= op <= MONITOREXIT) || op == MULTIANEWARRAY
  }

  /** `translate(instruction)`. */
  function TranslateNode(env: Env, n: Node): (r: Result<seq<Line>>)
  {
    var op := Opcode(n);
    if op == -1 then
      if n.LabelNode? then
        var name :- LabelName(env, n.id);
        Ok([LabelDef(name)])
      else if n.FrameNode? then Ok([])
      else Err(Runtime("unknown opcode-less instruction node: " + Describe(n)))
    else if NotYetLowered(op) then Err(NotYet)
    else if op <= LDC then TranslateConstant(env, n, op)
    else if op <= SASTORE then TranslateLocalOrArray(env, n, op)
    else if op <= IINC then TranslateStackOrArithmetic(env, n, op)
    else if op <= RETURN then TranslateControl(env, n, op)
    else TranslateObject(env, n, op)
  }

  function Describe(n: Node): string {
    if n.Pseudo? then n.description else KindName(n)
  }

  function TranslateConstant(env: Env, n: Node, op: int): Result<seq<Line>>
    requires op == Opcode(n) && !NotYetLowered(op)
  {
    if op == NOP then Ok([])
    else if op == ACONST_NULL then Ok(Push("x0"))
    else if ICONST_M1 <= op <= ICONST_5 then Ok(PushInt(op - ICONST_0))
    else if op == LCONST_0 || op == LCONST_1 then Ok(PushLong(op - LCONST_0))
    else if op == BIPUSH || op == SIPUSH then
      var v :- AsIntOperand(n);
      Ok(PushInt(v))
    else if op == LDC then
      if !n.LdcInsnNode? then Err(CastError(n, "LdcInsnNode"))
      else match n.cst
        case IntegerConst(v) => Ok(PushInt(v))
        case StringConst(s) => Ok([Insn("la", [T0, Sym(env.ctx.stringLabel(s))])] + Push("t0"))
        case OtherConst(c) => Err(NotYetImplemented("ldc with invalid constant type: class " + c))
        case _ => Err(NotYet)
    else Err(UnknownOpcode(op))
  }

  function TranslateLocalOrArray(env: Env, n: Node, op: int): Result<seq<Line>>
    requires op == Opcode(n) && !NotYetLowered(op)
  {
    var h := env.ctx.arrayHeaderSize;
    if op == ILOAD || op == FLOAD || op == ALOAD then
      var v :- AsVar(n);
      Ok(Load32(v))
    else if op == LLOAD || op == DLOAD then
      var v :- AsVar(n);
      Ok(Load64(v))
    else if op == IALOAD || op == FALOAD || op == AALOAD then Ok(ArrayLoadLines(2, false, "lw", h))
    else if op == BALOAD then Ok(ArrayLoadLines(0, false, "lb", h))
    else if op == CALOAD then Ok(ArrayLoadLines(1, false, "lhu", h))
    else if op == SALOAD then Ok(ArrayLoadLines(1, false, "lh", h))
    else if op == LALOAD || op == DALOAD then Ok(ArrayLoadLines(3, true, "", h))
    else if op == ISTORE || op == FSTORE || op == ASTORE then
      var v :- AsVar(n);
      Ok(Store32(v))
    else if op == LSTORE || op == DSTORE then
      var v :- AsVar(n);
      Ok(if env.templates.Intended? then Store64(v) else Store32(v))
    else if op == IASTORE || op == FASTORE || op == AASTORE then Ok(ArrayStoreLines(2, false, "sw", h))
    else if op == LASTORE || op == DASTORE then Ok(ArrayStoreLines(3, true, "", h))
    else if op == BASTORE then Ok(ArrayStoreLines(0, false, "sb", h))
    else if op == CASTORE || op == SASTORE then Ok(ArrayStoreLines(1, false, "sh", h))
    else Err(UnknownOpcode(op))
  }

  function TranslateStackOrArithmetic(env: Env, n: Node, op: int): Result<seq<Line>>
    requires op == Opcode(n) && !NotYetLowered(op)
  {
    if op == POP then Ok([Insn("add", [SP, SP, Imm(4)])])
    else if op == POP2 then Ok([Insn("add", [SP, SP, Imm(8)])])
    else if op == DUP then Ok(DupLines)
    else if op == DUP_X1 then Ok(DupX1Lines)
    else if op == DUP_X2 then Ok(if env.templates.Intended? then DupX2Lines else DupX2LinesAsWritten)
    else if op == DUP2_X1 then Ok(if env.templates.Intended? then Dup2X1Lines else Dup2X1LinesAsWritten)
    else if op == DUP2_X2 then Ok(if env.templates.Intended? then Dup2X2Lines else Dup2X2LinesAsWritten)
    else if op == SWAP then Ok(SwapLines)
    else if op == INEG then Ok(if env.templates.Intended? then NegLines else NegLinesAsWritten)
    else if WordOpMnemonic(op).Some? then Ok(WordOp(WordOpMnemonic(op).value))
    else if op == IINC then
      if !n.IincInsnNode? then Err(CastError(n, "IincInsnNode"))
      else Ok(IincLines(n.varIndex, n.incr))
    else Err(UnknownOpcode(op))
  }

  function TranslateControl(env: Env, n: Node, op: int): Result<seq<Line>>
    requires op == Opcode(n) && !NotYetLowered(op)
  {
    var ret := ReturnLabel(env.mangledName);
    if op == I2B then Ok(NarrowLines("lb"))
    else if op == I2C then Ok(NarrowLines("lhu"))
    else if op == I2S then Ok(NarrowLines("lh"))
    else if BranchKind(op).Some? then Branch(env, n, BranchKind(op).value.0, BranchKind(op).value.1)
    else if op == GOTO then
      var l :- AsJump(n);
      var target :- LabelName(env, l);
      Ok([Insn("j", [Sym(target)])])
    else if op == IRETURN || op == FRETURN || op == ARETURN then Ok(Pop("a0") + [Insn("j", [Sym(ret)])])
    else if op == LRETURN || op == DRETURN then Ok(Pop("a0") + Pop("a1") + [Insn("j", [Sym(ret)])])
    else if op == RETURN then Ok([Insn("j", [Sym(ret)])])
    else Err(UnknownOpcode(op))
  }

  function TranslateObject(env: Env, n: Node, op: int): Result<seq<Line>>
    requires op == Opcode(n) && !NotYetLowered(op)
  {
    var h := env.ctx.arrayHeaderSize;
    if op in {GETSTATIC, PUTSTATIC, GETFIELD, PUTFIELD} then FieldInstruction(env, n)
    else if op in {INVOKEVIRTUAL, INVOKESPECIAL, INVOKESTATIC} then Invoke(env, n)
    else if op == NEW then
      if !n.TypeInsnNode? then Err(CastError(n, "TypeInsnNode"))
      else
        var c :- ResolveClass(env.ctx, n.desc);
        Ok([Insn("li", [A0, Imm(env.ctx.instanceWords(c.name))]),
            Insn("la", [A1, Sym(NameUtil.MangleClassName(c.name) + "_vtable")]),
            Insn("call", [Sym("allocateMemory")])]
           + Push("a0"))
    else if op == NEWARRAY then
      var code :- AsIntOperand(n);
      match NewarrayType(code)
      case None => Err(Runtime("invalid newarray element type code: " + IntToString(code)))
      case Some((name, shift)) =>
        var vtable :- env.ctx.arrayVtableLabel(name);
        Ok(AllocateArrayLines(shift, h, vtable))
    else if op == ANEWARRAY then
      if !n.TypeInsnNode? then Err(CastError(n, "TypeInsnNode"))
      else
        var vtable :- env.ctx.arrayVtableLabel("[" + n.desc);
        Ok(AllocateArrayLines(2, h, vtable))
    else if op == ARRAYLENGTH then Ok(GetfieldLines(h - 4, 1, "lw"))
    else if op == IFNULL || op == IFNONNULL then Branch(env, n, BranchKind(op).value.0, true)
    else Err(UnknownOpcode(op))
  }

  /** Every instruction in order; the first failure ends the translation. */
  function TranslateAll(env: Env, nodes: seq<Node>): (r: Result<seq<Line>>)
    decreases |nodes|
  {
    if |nodes| == 0 then Ok([])
    else
      var first :- TranslateNode(env, nodes[0]);
      var rest :- TranslateAll(env, nodes[1..]);
      Ok(first + rest)
  }

  /** A body translates exactly when each of its instructions does; a
      failing body fails with the error of its first failing instruction. */
  lemma {:induction false} TranslateAllIsEachNode(env: Env, nodes: seq<Node>)
    ensures TranslateAll(env, nodes).Ok? <==> forall i | 0 <= i < |nodes| :: TranslateNode(env, nodes[i]).Ok?
    ensures TranslateAll(env, nodes).Err? ==>
      exists i | 0 <= i < |nodes| :: && TranslateNode(env, nodes[i]) == Err(TranslateAll(env, nodes).error)
                                     && forall j | 0 <= j < i :: TranslateNode(env, nodes[j]).Ok?
    decreases |nodes|
  {
    if |nodes| > 0 {
      TranslateAllIsEachNode(env, nodes[1..]);
      assert forall i | 1 <= i < |nodes| :: nodes[i] == nodes[1..][i - 1];
      if TranslateNode(env, nodes[0]).Ok? && TranslateAll(env, nodes).Err? {
        var k :| 0 <= k < |nodes[1..]| && TranslateNode(env, nodes[1..][k]) == Err(TranslateAll(env, nodes).error)
                 && forall j | 0 <= j < k :: TranslateNode(env, nodes[1..][j]).Ok?;
        assert TranslateNode(env, nodes[k + 1]) == Err(TranslateAll(env, nodes).error);
      }
    }
  }

  /** The environment of a method's instructions. */
  function MethodEnv(ctx: Context, m: MethodInfo, templates: Templates): Env {
    Env(ctx, m.mangledName, LabelsOf(m.instructions), templates)
  }

  /** `translate()`: nothing for a native method; otherwise the prologue,
      every instruction, and the epilogue. The translator's own output is
      `Translate(ctx, m, AsPrinted)`. */
  function Translate(ctx: Context, m: MethodInfo, templates: Templates): (r: Result<seq<Line>>)
    ensures HasFlag(m.access, ACC_NATIVE) ==> r == Ok([])
    ensures !HasFlag(m.access, ACC_NATIVE) ==>
      var body := TranslateAll(MethodEnv(ctx, m, templates), m.instructions);
      && (r.Ok? <==> body.Ok?)
      && (r.Ok? ==> r.value == Prologue(m) + body.value + Epilogue(m))
  {
    if HasFlag(m.access, ACC_NATIVE) then Ok([])
    else
      var body :- TranslateAll(MethodEnv(ctx, m, templates), m.instructions);
      Ok(Prologue(m) + body + Epilogue(m))
  }

  /** The opcodes whose template the `Intended` edition corrects. */
  predicate Corrected(op: int) {
    op == DUP_X2 || op == DUP2_X1 || op == DUP2_X2 || op == INEG || op == LSTORE || op == DSTORE
    || op == GETSTATIC || op == PUTSTATIC || op == GETFIELD || op == PUTFIELD
  }

  /** Outside the corrected templates, both editions print the same. */
  lemma EditionsAgree(env: Env, n: Node)
    requires !Corrected(Opcode(n))
    ensures TranslateNode(env.(templates := AsPrinted), n) == TranslateNode(env.(templates := Intended), n)
  {
    var op := Opcode(n);
    if op == -1 || NotYetLowered(op) {
    } else if op <= SASTORE {
      LowEditionsAgree(env, n);
    } else if op <= IINC {
      StackEditionsAgree(env, n);
    } else {
      HighEditionsAgree(env, n);
    }
  }

  lemma LowEditionsAgree(env: Env, n: Node)
    requires !Corrected(Opcode(n)) && !NotYetLowered(Opcode(n)) && Opcode(n) != -1 && Opcode(n) <= SASTORE
    ensures TranslateNode(env.(templates := AsPrinted), n) == TranslateNode(env.(templates := Intended), n)
  {
    var e1 := env.(templates := AsPrinted);
    var e2 := env.(templates := Intended);
    var op := Opcode(n);
    if op <= LDC {
      assert TranslateConstant(e1, n, op) == TranslateConstant(e2, n, op);
    } else {
      assert TranslateLocalOrArray(e1, n, op) == TranslateLocalOrArray(e2, n, op);
    }
  }

  lemma StackEditionsAgree(env: Env, n: Node)
    requires !Corrected(Opcode(n)) && !NotYetLowered(Opcode(n)) && SASTORE < Opcode(n) <= IINC
    ensures TranslateNode(env.(templates := AsPrinted), n) == TranslateNode(env.(templates := Intended), n)
  {
    var op := Opcode(n);
    assert TranslateStackOrArithmetic(env.(templates := AsPrinted), n, op)
        == TranslateStackOrArithmetic(env.(templates := Intended), n, op);
  }

  lemma HighEditionsAgree(env: Env, n: Node)
    requires !Corrected(Opcode(n)) && !NotYetLowered(Opcode(n)) && IINC < Opcode(n)
    ensures TranslateNode(env.(templates := AsPrinted), n) == TranslateNode(env.(templates := Intended), n)
  {
    var e1 := env.(templates := AsPrinted);
    var e2 := env.(templates := Intended);
    var op := Opcode(n);
    if op <= RETURN {
      assert TranslateControl(e1, n, op) == TranslateControl(e2, n, op);
    } else {
      assert TranslateObject(e1, n, op) == TranslateObject(e2, n, op);
    }
  }
}
