/** RV32 assembly as the code translators print it, one line at a time.

    A line is a label definition, an instruction with its operands, or an
    empty line; `Render` gives the exact text the translators print. Two
    views of a line sequence are defined here: its net effect on the stack
    pointer (`SpEffect`), and a small interpreter for the register and
    memory moves the stack templates are made of (`Run`). */
module Asm {
  import opened Wrappers
  import opened Text

  datatype Operand =
    | Reg(name: string)
    | Imm(value: int)
    | Mem(offset: int, base: string)
    | Sym(symbol: string)
    | SymPlus(symbol: string, displacement: int)

  datatype Line =
    | LabelDef(name: string)
    | Insn(mnemonic: string, operands: seq<Operand>)
    | Blank

  function OperandText(o: Operand): string {
    match o
    case Reg(name) => name
    case Imm(value) => IntToString(value)
    case Mem(offset, base) => IntToString(offset) + "(" + base + ")"
    case Sym(symbol) => symbol
    case SymPlus(symbol, displacement) => symbol + " + " + IntToString(displacement)
  }

  function OperandTexts(os: seq<Operand>): (r: seq<string>)
    ensures |r| == |os|
  {
    seq(|os|, i requires 0 <= i < |os| => OperandText(os[i]))
  }

  /** The printed text: a tab, the mnemonic, then the operands separated
      by ", ". */
  function Render(l: Line): string {
    match l
    case LabelDef(name) => name + ":"
    case Blank => ""
    case Insn(mnemonic, operands) =>
      "\t" + mnemonic + (if |operands| == 0 then "" else " " + Join(OperandTexts(operands), ", "))
  }

  function RenderAll(ls: seq<Line>): (r: seq<string>)
    ensures |r| == |ls|
  {
    seq(|ls|, i requires 0 <= i < |ls| => Render(ls[i]))
  }

  const SP := Reg("sp")

  /** `add`/`addi sp, sp, n` moves the stack pointer by n bytes; no other
      printed instruction writes sp, except `mv s0, sp`, which reads it. */
  function SpDelta(l: Line): int {
    if l.Insn? && (l.mnemonic == "add" || l.mnemonic == "addi") && |l.operands| == 3
      && l.operands[0] == SP && l.operands[1] == SP && l.operands[2].Imm?
    then l.operands[2].value
    else 0
  }

  /** The net change of the stack pointer over a line sequence. */
  function SpEffect(ls: seq<Line>): int {
    if |ls| == 0 then 0 else SpEffect(ls[..|ls| - 1]) + SpDelta(ls[|ls| - 1])
  }

  lemma {:induction false} SpEffectAppend(a: seq<Line>, b: seq<Line>)
    ensures SpEffect(a + b) == SpEffect(a) + SpEffect(b)
    decreases |b|
  {
    if |b| == 0 {
      assert a + b == a;
    } else {
      SpEffectAppend(a, b[..|b| - 1]);
      assert (a + b)[..|a + b| - 1] == a + b[..|b| - 1];
    }
  }

  /** Lines that do not move the stack pointer leave it where it was. */
  lemma {:induction false} SpEffectNone(ls: seq<Line>)
    requires forall i | 0 <= i < |ls| :: SpDelta(ls[i]) == 0
    ensures SpEffect(ls) == 0
    decreases |ls|
  {
    if |ls| > 0 {
      SpEffectNone(ls[..|ls| - 1]);
    }
  }

  /** A sequence in which only line k moves the stack pointer moves it by
      what line k does. */
  lemma {:induction false} SpEffectSingle(ls: seq<Line>, k: nat)
    requires k < |ls|
    requires forall i | 0 <= i < |ls| && i != k :: SpDelta(ls[i]) == 0
    ensures SpEffect(ls) == SpDelta(ls[k])
    decreases |ls|
  {
    if k == |ls| - 1 {
      SpEffectNone(ls[..k]);
    } else {
      SpEffectSingle(ls[..|ls| - 1], k);
    }
  }

  /** `addi sp, sp, -4` / `sw r, 0(sp)`: the compiler's `push`. */
  function Push(register: string): seq<Line> {
    [Insn("addi", [SP, SP, Imm(-4)]), Insn("sw", [Reg(register), Mem(0, "sp")])]
  }

  /** `lw r, 0(sp)` / `add sp, sp, 4`: the compiler's `pop`. */
  function Pop(register: string): seq<Line> {
    [Insn("lw", [Reg(register), Mem(0, "sp")]), Insn("add", [SP, SP, Imm(4)])]
  }

  // ---------------------------------------------------------------------
  // A machine for register and memory moves

  /** Registers and word memory; unwritten cells read as 0, and `x0`
      always reads as 0. */
  datatype Machine = Machine(regs: map<string, int>, mem: map<int, int>)

  function RegValue(m: Machine, r: string): int {
    if r == "x0" then 0 else if r in m.regs then m.regs[r] else 0
  }

  function Load(m: Machine, address: int): int {
    if address in m.mem then m.mem[address] else 0
  }

  function SetReg(m: Machine, r: string, v: int): Machine {
    m.(regs := m.regs[r := v])
  }

  function Store(m: Machine, address: int, v: int): Machine {
    m.(mem := m.mem[address := v])
  }

  /** One line on the machine: `lw`, `sw`, `add`/`addi` with an immediate,
      and `mv`, with everything read before anything is written. Any other
      line is outside what the machine covers. */
  function Exec(m: Machine, l: Line): Option<Machine> {
    match l
    case LabelDef(_) => Some(m)
    case Blank => Some(m)
    case Insn(mn, ops) =>
      if mn == "lw" && |ops| == 2 && ops[0].Reg? && ops[1].Mem? then
        Some(SetReg(m, ops[0].name, Load(m, RegValue(m, ops[1].base) + ops[1].offset)))
      else if mn == "sw" && |ops| == 2 && ops[0].Reg? && ops[1].Mem? then
        Some(Store(m, RegValue(m, ops[1].base) + ops[1].offset, RegValue(m, ops[0].name)))
      else if (mn == "add" || mn == "addi") && |ops| == 3 && ops[0].Reg? && ops[1].Reg? && ops[2].Imm? then
        Some(SetReg(m, ops[0].name, RegValue(m, ops[1].name) + ops[2].value))
      else if mn == "mv" && |ops| == 2 && ops[0].Reg? && ops[1].Reg? then
        Some(SetReg(m, ops[0].name, RegValue(m, ops[1].name)))
      else None
  }

  function Run(m: Machine, ls: seq<Line>): Option<Machine>
    decreases |ls|
  {
    if |ls| == 0 then Some(m)
    else
      var next :- Exec(m, ls[0]);
      Run(next, ls[1..])
  }

  /** Running a concatenation runs the first part, then the second. */
  lemma {:induction false} RunAppend(m: Machine, a: seq<Line>, b: seq<Line>)
    ensures Run(m, a + b) == (if Run(m, a).None? then None else Run(Run(m, a).value, b))
    decreases |a|
  {
    if |a| == 0 {
      assert a + b == b;
    } else {
      assert (a + b)[1..] == a[1..] + b;
      if Exec(m, a[0]).Some? {
        RunAppend(Exec(m, a[0]).value, a[1..], b);
      }
    }
  }

  /** One line whose effect is known, then the rest. */
  lemma RunCons(m: Machine, ls: seq<Line>, next: Machine)
    requires |ls| > 0 && Exec(m, ls[0]) == Some(next)
    ensures Run(m, ls) == Run(next, ls[1..])
  {
  }

  /** Lines that run to `g`, then one store word. */
  lemma RunThenSw(m: Machine, ls: seq<Line>, g: Machine, src: Operand, offset: int, base: string)
    requires Run(m, ls) == Some(g) && src.Reg?
    ensures Run(m, ls + [Insn("sw", [src, Mem(offset, base)])])
            == Some(Store(g, RegValue(g, base) + offset, RegValue(g, src.name)))
  {
    ExecSw(g, src.name, offset, base);
    RunSnoc(m, ls, Insn("sw", [src, Mem(offset, base)]), g, Store(g, RegValue(g, base) + offset, RegValue(g, src.name)));
  }

  /** Lines that run to `g`, then one more line whose effect is known. */
  lemma RunSnoc(m: Machine, ls: seq<Line>, l: Line, g: Machine, next: Machine)
    requires Run(m, ls) == Some(g) && Exec(g, l) == Some(next)
    ensures Run(m, ls + [l]) == Some(next)
  {
    RunCons(g, [l], next);
    assert [l][1..] == [];
    RunAppend(m, ls, [l]);
  }

  /** Line k of a sequence, when its effect is known, then the lines after
      it. */
  lemma RunStep(m: Machine, ls: seq<Line>, k: nat, next: Machine)
    requires k < |ls| && Exec(m, ls[k]) == Some(next)
    ensures Run(m, ls[k..]) == Run(next, ls[k + 1..])
  {
    assert ls[k..][1..] == ls[k + 1..];
  }

  /** Three lines whose effects are known, one after another. */
  lemma RunThree(m: Machine, ls: seq<Line>, m1: Machine, m2: Machine, m3: Machine)
    requires |ls| == 3
    requires Exec(m, ls[0]) == Some(m1) && Exec(m1, ls[1]) == Some(m2) && Exec(m2, ls[2]) == Some(m3)
    ensures Run(m, ls) == Some(m3)
  {
    RunStep(m, ls, 0, m1);
    RunStep(m1, ls, 1, m2);
    RunStep(m2, ls, 2, m3);
    assert ls[0..] == ls;
    assert ls[3..] == [];
  }

  /** The same, for three lines given one by one. */
  lemma RunThreeLines(m: Machine, l0: Line, l1: Line, l2: Line, m1: Machine, m2: Machine, m3: Machine)
    requires Exec(m, l0) == Some(m1) && Exec(m1, l1) == Some(m2) && Exec(m2, l2) == Some(m3)
    ensures Run(m, [l0, l1, l2]) == Some(m3)
  {
    RunThree(m, [l0, l1, l2], m1, m2, m3);
  }

  /** Four lines whose effects are known, one after another. */
  lemma RunFour(m: Machine, ls: seq<Line>, m1: Machine, m2: Machine, m3: Machine, m4: Machine)
    requires |ls| == 4
    requires Exec(m, ls[0]) == Some(m1) && Exec(m1, ls[1]) == Some(m2) && Exec(m2, ls[2]) == Some(m3)
    requires Exec(m3, ls[3]) == Some(m4)
    ensures Run(m, ls) == Some(m4)
  {
    RunStep(m, ls, 0, m1);
    RunStep(m1, ls, 1, m2);
    RunStep(m2, ls, 2, m3);
    RunStep(m3, ls, 3, m4);
    assert ls[0..] == ls;
    assert ls[4..] == [];
  }

  /** The frame registers are distinct names, none of them `x0`. */
  lemma FrameRegsDistinct()
    ensures "sp" != "s0" && "sp" != "ra" && "s0" != "ra"
    ensures "sp" != "x0" && "s0" != "x0" && "ra" != "x0"
  {
    assert "sp"[1] != "s0"[1] && "sp"[0] != "ra"[0] && "s0"[0] != "ra"[0];
    assert "sp"[0] != "x0"[0] && "s0"[0] != "x0"[0] && "ra"[0] != "x0"[0];
  }

  lemma ExecLw(m: Machine, r: string, offset: int, base: string)
    ensures Exec(m, Insn("lw", [Reg(r), Mem(offset, base)])) == Some(SetReg(m, r, Load(m, RegValue(m, base) + offset)))
  {
  }

  lemma ExecSw(m: Machine, r: string, offset: int, base: string)
    ensures Exec(m, Insn("sw", [Reg(r), Mem(offset, base)])) == Some(Store(m, RegValue(m, base) + offset, RegValue(m, r)))
  {
  }

  lemma ExecAdd(m: Machine, mnemonic: string, r: string, s: string, v: int)
    requires mnemonic == "add" || mnemonic == "addi"
    ensures Exec(m, Insn(mnemonic, [Reg(r), Reg(s), Imm(v)])) == Some(SetReg(m, r, RegValue(m, s) + v))
  {
  }

  lemma ExecMv(m: Machine, r: string, s: string)
    ensures Exec(m, Insn("mv", [Reg(r), Reg(s)])) == Some(SetReg(m, r, RegValue(m, s)))
  {
  }

  /** The top n stack words, top first. */
  function Stack(m: Machine, n: nat): (s: seq<int>)
    ensures |s| == n
  {
    seq(n, i requires 0 <= i < n => Load(m, RegValue(m, "sp") + 4 * i))
  }

  /** Running the stack pointer's own moves changes sp by exactly the
      amount `SpEffect` counts, when sp is only moved by sp-relative adds. */
  lemma {:induction false} RunMovesSpBySpEffect(m: Machine, ls: seq<Line>)
    requires forall i | 0 <= i < |ls| :: SpSafe(ls[i])
    requires Run(m, ls).Some?
    ensures RegValue(Run(m, ls).value, "sp") == RegValue(m, "sp") + SpEffect(ls)
    decreases |ls|
  {
    if |ls| > 0 {
      var next := Exec(m, ls[0]).value;
      assert RegValue(next, "sp") == RegValue(m, "sp") + SpDelta(ls[0]);
      RunMovesSpBySpEffect(next, ls[1..]);
      assert ls == [ls[0]] + ls[1..];
      SpEffectAppend([ls[0]], ls[1..]);
      assert [ls[0]][..0] == [];
    }
  }

  /** A line that writes sp only as `add`/`addi sp, sp, n`. */
  predicate SpSafe(l: Line) {
    l.Insn? && |l.operands| >= 1 && l.operands[0] == SP ==>
      (l.mnemonic == "add" || l.mnemonic == "addi") && |l.operands| == 3 && l.operands[1] == SP && l.operands[2].Imm?
  }
}
