/** The toy stack machine (`VirtualMachine`): a byte program, a program
    counter, an operand stack of 32-bit ints, and six opcodes. The printed
    values are collected in `output` instead of going to standard output;
    the unused heap array is left out. */
module ToyVm {
  import opened Wrappers
  import opened JavaInts
  import Text

  const OpExit: nat := 0
  const OpInt32: nat := 1
  const OpAdd: nat := 2
  const OpSub: nat := 3
  const OpDup: nat := 4
  const OpWrite: nat := 5

  /** The operand stack is a fixed array of 1024 * 1024 ints. */
  const StackCapacity: nat := 1024 * 1024

  datatype Machine = Machine(program: seq<SByte>, pc: nat, stack: seq<Int32>, output: seq<Int32>, finished: bool)

  /** `new VirtualMachine(program)`: start of the program, empty stack. */
  function Init(program: seq<SByte>): (m: Machine)
    ensures m.program == program && m.pc == 0 && m.stack == [] && m.output == [] && !m.finished
  {
    Machine(program, 0, [], [], false)
  }

  /** `fetchSignedProgramByte`: the byte at pc, pc advanced by one. */
  function FetchSigned(m: Machine): (r: Result<(SByte, Machine)>)
    ensures r.Ok? <==> m.pc < |m.program|
    ensures r.Ok? ==> r.value.0 == m.program[m.pc] && r.value.1 == m.(pc := m.pc + 1)
  {
    if m.pc >= |m.program| then Err(Text.ArrayIndexError(m.pc, |m.program|))
    else Ok((m.program[m.pc], m.(pc := m.pc + 1)))
  }

  /** `fetchUnsignedProgramByte`. */
  function FetchUnsigned(m: Machine): (r: Result<(nat, Machine)>)
    ensures r.Ok? <==> m.pc < |m.program|
    ensures r.Ok? ==> r.value.0 == Unsigned(m.program[m.pc]) && r.value.1 == m.(pc := m.pc + 1)
  {
    var (b, next) :- FetchSigned(m);
    Ok((Unsigned(b), next))
  }

  /** `push`: fails when the stack array is full. */
  function Push(m: Machine, v: Int32): (r: Result<Machine>)
    ensures r.Ok? <==> |m.stack| < StackCapacity
    ensures r.Ok? ==> r.value == m.(stack := m.stack + [v])
  {
    if |m.stack| >= StackCapacity then Err(Text.ArrayIndexError(|m.stack|, StackCapacity))
    else Ok(m.(stack := m.stack + [v]))
  }

  /** `pop`: fails reading index -1 on an empty stack. */
  function Pop(m: Machine): (r: Result<(Int32, Machine)>)
    ensures r.Ok? <==> |m.stack| > 0
    ensures r.Ok? ==> m.stack == r.value.1.stack + [r.value.0] && r.value.1 == m.(stack := r.value.1.stack)
  {
    if |m.stack| == 0 then Err(Text.ArrayIndexError(-1, StackCapacity))
    else Ok((m.stack[|m.stack| - 1], m.(stack := m.stack[..|m.stack| - 1])))
  }

  /** The INT32 immediate as the code assembles it: the first byte signed,
      then each further byte shifted in as unsigned, in 32-bit arithmetic. */
  function DecodeInt32(b0: SByte, b1: SByte, b2: SByte, b3: SByte): Int32
  {
    var v := Wrap32(Wrap32(b0 * 0x100) + Unsigned(b1));
    var w := Wrap32(Wrap32(v * 0x100) + Unsigned(b2));
    Wrap32(Wrap32(w * 0x100) + Unsigned(b3))
  }

  /** The big-endian bytes of a value, each as a Java `byte`. */
  function EncodeInt32(v: Int32): (r: seq<SByte>)
    ensures |r| == 4
  {
    var u := if v < 0 then v + 0x1_0000_0000 else v;
    var t1 := u / 0x100;
    var t2 := t1 / 0x100;
    [ToSByte(t2 / 0x100), ToSByte(t2 % 0x100), ToSByte(t1 % 0x100), ToSByte(u % 0x100)]
  }

  /** No wrap-around ever happens while decoding: the value is the
      big-endian number with a sign-extended first byte. */
  lemma DecodeIsBigEndian(b0: SByte, b1: SByte, b2: SByte, b3: SByte)
    ensures DecodeInt32(b0, b1, b2, b3) == b0 * 0x100_0000 + Unsigned(b1) * 0x1_0000 + Unsigned(b2) * 0x100 + Unsigned(b3)
  {
  }

  /** An immediate whose top three bytes are zero is its last byte. */
  lemma DecodeSmall(b: SByte)
    requires b >= 0
    ensures DecodeInt32(0, 0, 0, b) == b
  {
  }

  /** Decoding undoes encoding for every 32-bit value. */
  lemma DecodeEncode(v: Int32)
    ensures var e := EncodeInt32(v); DecodeInt32(e[0], e[1], e[2], e[3]) == v
  {
    var e := EncodeInt32(v);
    var u := if v < 0 then v + 0x1_0000_0000 else v;
    var t1 := u / 0x100;
    var t2 := t1 / 0x100;
    var t3 := t2 / 0x100;
    assert u == t1 * 0x100 + u % 0x100;
    assert t1 == t2 * 0x100 + t1 % 0x100;
    assert t2 == t3 * 0x100 + t2 % 0x100;
    assert e[0] as int * 0x100_0000 == if v < 0 then t3 * 0x100_0000 - 0x1_0000_0000 else t3 * 0x100_0000;
    DecodeIsBigEndian(e[0], e[1], e[2], e[3]);
  }

  /** INT32: four immediate bytes, pushed as one value. */
  function PushImmediate(m: Machine): (r: Result<Machine>)
    ensures r.Ok? ==> r.value.pc == m.pc + 4
  {
    var (b0, m1) :- FetchSigned(m);
    var (b1, m2) :- FetchSigned(m1);
    var (b2, m3) :- FetchSigned(m2);
    var (b3, m4) :- FetchSigned(m3);
    Push(m4, DecodeInt32(b0, b1, b2, b3))
  }

  /** ADD: `push(pop() + pop())`. */
  function Add(m: Machine): (r: Result<Machine>)
    ensures r.Ok? ==> |m.stack| >= 2
    ensures 2 <= |m.stack| <= StackCapacity ==> r.Ok?
    ensures var n := |m.stack|;
            r.Ok? ==> r.value == m.(stack := m.stack[..n - 2] + [Wrap32(m.stack[n - 2] as int + m.stack[n - 1] as int)])
  {
    var (a, m1) :- Pop(m);
    var (b, m2) :- Pop(m1);
    assert m.stack[..|m.stack| - 1][..|m.stack| - 2] == m.stack[..|m.stack| - 2];
    assert a == m.stack[|m.stack| - 1] && b == m.stack[|m.stack| - 2];
    assert m2 == m.(stack := m.stack[..|m.stack| - 2]);
    Push(m2, Wrap32(a as int + b as int))
  }

  /** SUB: `push(-pop() + pop())`, the lower entry minus the top one. */
  function Sub(m: Machine): (r: Result<Machine>)
    ensures r.Ok? ==> |m.stack| >= 2
    ensures 2 <= |m.stack| <= StackCapacity ==> r.Ok?
    ensures var n := |m.stack|;
            r.Ok? ==> r.value == m.(stack := m.stack[..n - 2] + [Wrap32(m.stack[n - 2] as int - m.stack[n - 1] as int)])
  {
    var (a, m1) :- Pop(m);
    var (b, m2) :- Pop(m1);
    assert m.stack[..|m.stack| - 1][..|m.stack| - 2] == m.stack[..|m.stack| - 2];
    assert a == m.stack[|m.stack| - 1] && b == m.stack[|m.stack| - 2];
    assert m2 == m.(stack := m.stack[..|m.stack| - 2]);
    WrapAddNegated(a, b);
    Push(m2, Wrap32(Wrap32(-(a as int)) as int + b as int))
  }

  /** Negating then adding in 32 bits is 32-bit subtraction. */
  lemma WrapAddNegated(a: Int32, b: Int32)
    ensures Wrap32(Wrap32(-(a as int)) as int + b as int) == Wrap32(b as int - a as int)
  {
  }

  /** DUP: pop one value and push it twice; the second push overflows a
      full stack. */
  function Dup(m: Machine): (r: Result<Machine>)
    ensures r.Ok? <==> 0 < |m.stack| < StackCapacity
    ensures r.Ok? ==> r.value == m.(stack := m.stack + [m.stack[|m.stack| - 1]])
  {
    var (v, m1) :- Pop(m);
    var m2 :- Push(m1, v);
    Push(m2, v)
  }

  /** WRITE: pop one value and print it. */
  function Write(m: Machine): (r: Result<Machine>)
    ensures r.Ok? <==> |m.stack| > 0
    ensures r.Ok? ==> r.value == m.(stack := m.stack[..|m.stack| - 1], output := m.output + [m.stack[|m.stack| - 1]])
  {
    var (v, m1) :- Pop(m);
    Ok(m1.(output := m1.output + [v]))
  }

  /** The opcode switch, on the machine with pc already past the opcode. */
  function Execute(opcode: nat, m: Machine): (r: Result<Machine>)
    requires 1 <= m.pc <= |m.program|
    ensures r.Ok? ==> r.value.program == m.program && m.pc <= r.value.pc <= |m.program|
    ensures r.Ok? ==> (r.value.finished <==> m.finished || opcode == OpExit)
    ensures opcode > OpWrite ==> r == Err(Runtime("illegal opcode " + Text.NatToString(opcode) + " at " + Text.NatToString(m.pc - 1)))
  {
    if opcode == OpExit then Ok(m.(finished := true))
    else if opcode == OpInt32 then PushImmediate(m)
    else if opcode == OpAdd then Add(m)
    else if opcode == OpSub then Sub(m)
    else if opcode == OpDup then Dup(m)
    else if opcode == OpWrite then Write(m)
    else Err(Runtime("illegal opcode " + Text.NatToString(opcode) + " at " + Text.NatToString(m.pc - 1)))
  }

  /** `step()`: fetch an unsigned opcode and execute it. */
  function Step(m: Machine): (r: Result<Machine>)
    ensures r.Ok? ==> r.value.program == m.program && m.pc < r.value.pc <= |m.program|
    ensures r.Ok? ==> (r.value.finished <==> m.finished || m.program[m.pc] == OpExit as int)
    ensures m.pc < |m.program| && Unsigned(m.program[m.pc]) > OpWrite ==>
              r == Err(Runtime("illegal opcode " + Text.NatToString(Unsigned(m.program[m.pc])) + " at " + Text.NatToString(m.pc)))
  {
    var (opcode, m1) :- FetchUnsigned(m);
    Execute(opcode, m1)
  }

  /** INT32 pushes the decoded immediate and moves past all five bytes. */
  lemma StepInt32(m: Machine)
    requires m.pc + 4 < |m.program| && m.program[m.pc] == OpInt32 as int && |m.stack| < StackCapacity
    ensures var p := m.program; var i := m.pc;
            Step(m) == Ok(m.(pc := i + 5, stack := m.stack + [DecodeInt32(p[i + 1], p[i + 2], p[i + 3], p[i + 4])]))
  {
  }

  /** ADD, SUB, DUP, WRITE and EXIT as single steps. */
  lemma StepSimple(m: Machine)
    requires m.pc < |m.program| && |m.stack| <= StackCapacity
    ensures var n := |m.stack|; var m1 := m.(pc := m.pc + 1); var op := m.program[m.pc];
            && (op == OpExit as int ==> Step(m) == Ok(m1.(finished := true)))
            && (op == OpAdd as int && n >= 2 ==> Step(m) == Ok(m1.(stack := m.stack[..n - 2] + [Wrap32(m.stack[n - 2] as int + m.stack[n - 1] as int)])))
            && (op == OpSub as int && n >= 2 ==> Step(m) == Ok(m1.(stack := m.stack[..n - 2] + [Wrap32(m.stack[n - 2] as int - m.stack[n - 1] as int)])))
            && (op == OpDup as int && 0 < n < StackCapacity ==> Step(m) == Ok(m1.(stack := m.stack + [m.stack[n - 1]])))
            && (op == OpWrite as int && n > 0 ==> Step(m) == Ok(m1.(stack := m.stack[..n - 1], output := m.output + [m.stack[n - 1]])))
  {
    assert FetchUnsigned(m) == Ok((Unsigned(m.program[m.pc]), m.(pc := m.pc + 1)));
  }

  /** A run through a given sequence of machines ends in the last one. */
  lemma {:induction false} RunTrace(ms: seq<Machine>)
    requires |ms| > 0 && ms[|ms| - 1].finished
    requires forall k :: 0 <= k < |ms| - 1 ==> !ms[k].finished && Step(ms[k]) == Ok(ms[k + 1])
    ensures Run(ms[0]) == Ok(ms[|ms| - 1])
  {
    if |ms| > 1 {
      RunTrace(ms[1..]);
    }
  }

  /** `run()`: step until EXIT. Every step advances pc, and fetching past the
      end of the program fails, so the loop always ends. */
  function Run(m: Machine): (r: Result<Machine>)
    ensures r.Ok? ==> r.value.finished && r.value.program == m.program
    decreases |m.program| - m.pc
  {
    if m.finished then Ok(m)
    else
      var next :- Step(m);
      Run(next)
  }
}
