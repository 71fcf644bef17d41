/** The instructions of a method body as the class-file reader hands them
    over, with the opcode numbers of chapter 6 of The Java Virtual Machine
    Specification and the access flags of its section 4.6. */
module Bytecode {
  import opened Wrappers
  import opened Text

  const NOP: int := 0
  const ACONST_NULL: int := 1
  const ICONST_M1: int := 2
  const ICONST_0: int := 3
  const ICONST_5: int := 8
  const LCONST_0: int := 9
  const LCONST_1: int := 10
  const FCONST_0: int := 11
  const DCONST_1: int := 15
  const BIPUSH: int := 16
  const SIPUSH: int := 17
  const LDC: int := 18
  const ILOAD: int := 21
  const LLOAD: int := 22
  const FLOAD: int := 23
  const DLOAD: int := 24
  const ALOAD: int := 25
  const IALOAD: int := 46
  const LALOAD: int := 47
  const FALOAD: int := 48
  const DALOAD: int := 49
  const AALOAD: int := 50
  const BALOAD: int := 51
  const CALOAD: int := 52
  const SALOAD: int := 53
  const ISTORE: int := 54
  const LSTORE: int := 55
  const FSTORE: int := 56
  const DSTORE: int := 57
  const ASTORE: int := 58
  const IASTORE: int := 79
  const LASTORE: int := 80
  const FASTORE: int := 81
  const DASTORE: int := 82
  const AASTORE: int := 83
  const BASTORE: int := 84
  const CASTORE: int := 85
  const SASTORE: int := 86
  const POP: int := 87
  const POP2: int := 88
  const DUP: int := 89
  const DUP_X1: int := 90
  const DUP_X2: int := 91
  const DUP2: int := 92
  const DUP2_X1: int := 93
  const DUP2_X2: int := 94
  const SWAP: int := 95
  const IADD: int := 96
  const ISUB: int := 100
  const IMUL: int := 104
  const IDIV: int := 108
  const IREM: int := 112
  const INEG: int := 116
  const ISHL: int := 120
  const ISHR: int := 122
  const IUSHR: int := 124
  const IAND: int := 126
  const IOR: int := 128
  const IXOR: int := 130
  const LXOR: int := 131
  const IINC: int := 132
  const I2L: int := 133
  const D2F: int := 144
  const I2B: int := 145
  const I2C: int := 146
  const I2S: int := 147
  const LCMP: int := 148
  const DCMPG: int := 152
  const IFEQ: int := 153
  const IFNE: int := 154
  const IFLT: int := 155
  const IFGE: int := 156
  const IFGT: int := 157
  const IFLE: int := 158
  const IF_ICMPEQ: int := 159
  const IF_ICMPNE: int := 160
  const IF_ICMPLT: int := 161
  const IF_ICMPGE: int := 162
  const IF_ICMPGT: int := 163
  const IF_ICMPLE: int := 164
  const IF_ACMPEQ: int := 165
  const IF_ACMPNE: int := 166
  const GOTO: int := 167
  const JSR: int := 168
  const RET: int := 169
  const TABLESWITCH: int := 170
  const LOOKUPSWITCH: int := 171
  const IRETURN: int := 172
  const LRETURN: int := 173
  const FRETURN: int := 174
  const DRETURN: int := 175
  const ARETURN: int := 176
  const RETURN: int := 177
  const GETSTATIC: int := 178
  const PUTSTATIC: int := 179
  const GETFIELD: int := 180
  const PUTFIELD: int := 181
  const INVOKEVIRTUAL: int := 182
  const INVOKESPECIAL: int := 183
  const INVOKESTATIC: int := 184
  const INVOKEINTERFACE: int := 185
  const INVOKEDYNAMIC: int := 186
  const NEW: int := 187
  const NEWARRAY: int := 188
  const ANEWARRAY: int := 189
  const ARRAYLENGTH: int := 190
  const ATHROW: int := 191
  const CHECKCAST: int := 192
  const INSTANCEOF: int := 193
  const MONITORENTER: int := 194
  const MONITOREXIT: int := 195
  const MULTIANEWARRAY: int := 197
  const IFNULL: int := 198
  const IFNONNULL: int := 199

  const ACC_PRIVATE: nat := 0x0002
  const ACC_STATIC: nat := 0x0008
  const ACC_NATIVE: nat := 0x0100

  /** `(access & flag) != 0` for a single-bit flag. */
  predicate HasFlag(access: nat, flag: nat)
    requires flag > 0
  {
    (access / flag) % 2 == 1
  }

  /** The constant of an `ldc`: its class decides what the translators do
      with it. */
  datatype Constant =
    | IntegerConst(intValue: int)
    | FloatConst
    | LongConst
    | DoubleConst
    | StringConst(text: string)
    | TypeConst
    | OtherConst(className: string)

  /** An instruction node. Labels are identified by number; the opcode is
      part of every node that has one. `Pseudo` is any other node without
      an opcode (a line number, say), `Other` any other node with one. */
  datatype Node =
    | LabelNode(id: nat)
    | FrameNode
    | Pseudo(description: string)
    | InsnNode(op: int)
    | IntInsnNode(op: int, operand: int)
    | LdcInsnNode(cst: Constant)
    | VarInsnNode(op: int, varIndex: int)
    | IincInsnNode(varIndex: int, incr: int)
    | JumpInsnNode(op: int, target: nat)
    | FieldInsnNode(op: int, owner: string, name: string, desc: string)
    | MethodInsnNode(op: int, owner: string, name: string, desc: string)
    | TypeInsnNode(op: int, desc: string)
    | Other(op: int)

  /** `getOpcode()`: -1 for labels, frames and the other pseudo nodes. */
  function Opcode(n: Node): int {
    match n
    case LabelNode(_) => -1
    case FrameNode => -1
    case Pseudo(_) => -1
    case InsnNode(op) => op
    case IntInsnNode(op, _) => op
    case LdcInsnNode(_) => LDC
    case VarInsnNode(op, _) => op
    case IincInsnNode(_, _) => IINC
    case JumpInsnNode(op, _) => op
    case FieldInsnNode(op, _, _, _) => op
    case MethodInsnNode(op, _, _, _) => op
    case TypeInsnNode(op, _) => op
    case Other(op) => op
  }

  function KindName(n: Node): string {
    match n
    case LabelNode(_) => "LabelNode"
    case FrameNode => "FrameNode"
    case Pseudo(_) => "AbstractInsnNode"
    case InsnNode(_) => "InsnNode"
    case IntInsnNode(_, _) => "IntInsnNode"
    case LdcInsnNode(_) => "LdcInsnNode"
    case VarInsnNode(_, _) => "VarInsnNode"
    case IincInsnNode(_, _) => "IincInsnNode"
    case JumpInsnNode(_, _) => "JumpInsnNode"
    case FieldInsnNode(_, _, _, _) => "FieldInsnNode"
    case MethodInsnNode(_, _, _, _) => "MethodInsnNode"
    case TypeInsnNode(_, _) => "TypeInsnNode"
    case Other(_) => "AbstractInsnNode"
  }

  /** The failure of a cast of node `n` to the node class `target`. */
  function CastError(n: Node, target: string): Exception {
    ClassCast(KindName(n) + " cannot be cast to " + target)
  }

  /** `((VarInsnNode) n).var` */
  function AsVar(n: Node): (r: Result<int>)
    ensures r.Ok? <==> n.VarInsnNode?
  {
    if n.VarInsnNode? then Ok(n.varIndex) else Err(CastError(n, "VarInsnNode"))
  }

  /** `((IntInsnNode) n).operand` */
  function AsIntOperand(n: Node): (r: Result<int>)
    ensures r.Ok? <==> n.IntInsnNode?
  {
    if n.IntInsnNode? then Ok(n.operand) else Err(CastError(n, "IntInsnNode"))
  }

  /** `((JumpInsnNode) n).label` */
  function AsJump(n: Node): (r: Result<nat>)
    ensures r.Ok? <==> n.JumpInsnNode?
  {
    if n.JumpInsnNode? then Ok(n.target) else Err(CastError(n, "JumpInsnNode"))
  }

  /** The labels of the label nodes, in order. */
  function LabelsOf(nodes: seq<Node>): (r: seq<nat>)
    ensures |r| <= |nodes|
    ensures forall l | l in r :: LabelNode(l) in nodes
    ensures |nodes| > 0 && nodes[0].LabelNode? ==> |r| > 0 && r[0] == nodes[0].id
  {
    if |nodes| == 0 then []
    else
      var rest := LabelsOf(nodes[..|nodes| - 1]);
      if nodes[|nodes| - 1].LabelNode? then rest + [nodes[|nodes| - 1].id] else rest
  }

  /** Collecting labels distributes over concatenation, so the labels come
      in the order of their nodes. */
  lemma {:induction false} LabelsOfAppend(a: seq<Node>, b: seq<Node>)
    ensures LabelsOf(a + b) == LabelsOf(a) + LabelsOf(b)
    decreases |b|
  {
    if |b| > 0 {
      var b' := b[..|b| - 1];
      assert (a + b)[..|a + b| - 1] == a + b';
      assert (a + b)[|a + b| - 1] == b[|b| - 1];
      LabelsOfAppend(a, b');
    } else {
      assert a + b == a;
    }
  }

  /** A label node's label is among the collected labels. */
  lemma {:induction false} LabelNodeCollected(nodes: seq<Node>, l: nat)
    requires LabelNode(l) in nodes
    ensures l in LabelsOf(nodes)
    decreases |nodes|
  {
    if nodes[|nodes| - 1] != LabelNode(l) {
      var i :| 0 <= i < |nodes| && nodes[i] == LabelNode(l);
      assert nodes[..|nodes| - 1][i] == LabelNode(l);
      LabelNodeCollected(nodes[..|nodes| - 1], l);
    }
  }

  /** `List.indexOf`: the first position of `x`, or -1. */
  function FirstIndex(s: seq<nat>, x: nat): (r: int)
    ensures -1 <= r < |s|
    ensures r == -1 <==> x !in s
    ensures r >= 0 ==> s[r] == x && forall j | 0 <= j < r :: s[j] != x
  {
    if |s| == 0 then -1
    else if s[0] == x then 0
    else
      var k := FirstIndex(s[1..], x);
      if k == -1 then -1
      else
        assert s[..k + 1] == [s[0]] + s[1..][..k];
        k + 1
  }
}
