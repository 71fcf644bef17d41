/** The toy compiler (`Compiler` of the stack-machine prototype): it keys the
    loaded classes by name, refuses methods it cannot handle, and otherwise
    returns one fixed program, whatever the classes contain. */
module ToyCompiler {
  import opened Wrappers
  import JavaInts
  import ToyVm

  /** The parts of an ASM method node the compiler looks at. */
  datatype MethodNode = MethodNode(name: string, access: nat)

  datatype ClassNode = ClassNode(name: string, methods: seq<MethodNode>)

  /** `Opcodes.ACC_STATIC`. */
  const AccStatic: nat := 0x0008

  /** `(access & ACC_STATIC) != 0`. */
  predicate IsStatic(access: nat) {
    (access / AccStatic) % 2 == 1
  }

  /** The constructor's map: each node stored under its name, a later node
      replacing an earlier one of the same name. */
  function ClassMap(nodes: seq<ClassNode>): (m: map<string, ClassNode>)
    ensures forall i :: 0 <= i < |nodes| ==> nodes[i].name in m
    ensures forall name :: name in m ==> exists i :: 0 <= i < |nodes| && nodes[i].name == name && m[name] == nodes[i]
    ensures forall i :: 0 <= i < |nodes| && (forall j :: i < j < |nodes| ==> nodes[j].name != nodes[i].name) ==> m[nodes[i].name] == nodes[i]
  {
    if |nodes| == 0 then map[]
    else
      var last := nodes[|nodes| - 1];
      var m := ClassMap(nodes[..|nodes| - 1]);
      assert forall i :: 0 <= i < |nodes| - 1 ==> nodes[..|nodes| - 1][i] == nodes[i];
      m[last.name := last]
  }

  /** The methods the compiler accepts: constructors are skipped, and
      everything else must be a static method other than the static
      initializer. */
  predicate Acceptable(method_: MethodNode) {
    method_.name == "<init>" || (method_.name != "<clinit>" && IsStatic(method_.access))
  }

  /** The check of one method. */
  function CheckMethod(method_: MethodNode): (r: Result<()>)
    ensures r.Ok? <==> Acceptable(method_)
  {
    if method_.name == "<init>" then Ok(())
    else if method_.name == "<clinit>" then Err(UnsupportedOperation("static initializer not yet supported"))
    else if !IsStatic(method_.access) then Err(UnsupportedOperation("only static methods allowed: " + method_.name))
    else Ok(())
  }

  /** The methods of a class in order; the first refusal ends the check. */
  function CheckMethods(methods: seq<MethodNode>): (r: Result<()>)
    ensures r.Ok? <==> forall i :: 0 <= i < |methods| ==> Acceptable(methods[i])
    ensures r.Err? ==> r.error.UnsupportedOperation?
  {
    if |methods| == 0 then Ok(())
    else
      var _ :- CheckMethod(methods[0]);
      assert forall i :: 1 <= i < |methods| ==> methods[1..][i - 1] == methods[i];
      CheckMethods(methods[1..])
  }

  /** `order` visits every key of the map exactly once: the iteration order
      of the map's values, which the code leaves to the hash map. */
  predicate IsEnumeration(classes: map<string, ClassNode>, order: seq<string>) {
    && (forall i :: 0 <= i < |order| ==> order[i] in classes)
    && (forall name :: name in classes ==> name in order)
    && (forall i, j :: 0 <= i < j < |order| ==> order[i] != order[j])
  }

  /** Every method of every class in the map is acceptable. */
  predicate AllAcceptable(classes: map<string, ClassNode>) {
    forall name :: name in classes ==> forall k :: 0 <= k < |classes[name].methods| ==> Acceptable(classes[name].methods[k])
  }

  /** The classes in the given order; the first refusal ends the check. */
  function CheckClasses(classes: map<string, ClassNode>, order: seq<string>): (r: Result<()>)
    requires forall i :: 0 <= i < |order| ==> order[i] in classes
    ensures r.Ok? <==> forall i :: 0 <= i < |order| ==> forall k :: 0 <= k < |classes[order[i]].methods| ==> Acceptable(classes[order[i]].methods[k])
    ensures r.Err? ==> r.error.UnsupportedOperation?
  {
    if |order| == 0 then Ok(())
    else
      var _ :- CheckMethods(classes[order[0]].methods);
      assert forall i :: 1 <= i < |order| ==> order[1..][i - 1] == order[i];
      CheckClasses(classes, order[1..])
  }

  /** The program `compile()` returns: push 2, push 2, add, dup, write, push
      1, subtract, write, exit. */
  const Program: seq<JavaInts.SByte> := [1, 0, 0, 0, 2, 1, 0, 0, 0, 2, 2, 4, 5, 1, 0, 0, 0, 1, 3, 5, 0]

  /** `compile()`, visiting the classes in `order`. Whether it succeeds does
      not depend on the order, only which refusal is reported does. */
  function Compile(classes: map<string, ClassNode>, order: seq<string>): (r: Result<seq<JavaInts.SByte>>)
    requires IsEnumeration(classes, order)
    ensures r.Ok? <==> AllAcceptable(classes)
    ensures r.Ok? ==> r.value == Program
    ensures r.Err? ==> r.error.UnsupportedOperation?
  {
    var _ :- CheckClasses(classes, order);
    Ok(Program)
  }

  /** An INT32 step of the compiled program with a small immediate. */
  lemma ImmediateStep(m: ToyVm.Machine, b: JavaInts.SByte, next: ToyVm.Machine)
    requires m.program == Program && m.pc + 4 < |Program| && |m.stack| < ToyVm.StackCapacity
    requires Program[m.pc] == 1 && Program[m.pc + 1] == 0 && Program[m.pc + 2] == 0 && Program[m.pc + 3] == 0
    requires Program[m.pc + 4] == b >= 0
    requires next == m.(pc := m.pc + 5, stack := m.stack + [b])
    ensures ToyVm.Step(m) == Ok(next)
  {
    ToyVm.StepInt32(m);
    var v := ToyVm.DecodeInt32(0, 0, 0, b);
    assert ToyVm.Step(m) == Ok(m.(pc := m.pc + 5, stack := m.stack + [v]));
    ToyVm.DecodeSmall(b);
  }

  /** One ADD, SUB, DUP, WRITE or EXIT step of the compiled program,
      with `op` the opcode at pc. */
  lemma SimpleStep(m: ToyVm.Machine, op: int, next: ToyVm.Machine)
    requires m.program == Program && m.pc < |Program| && |m.stack| <= ToyVm.StackCapacity
    requires Program[m.pc] == op
    requires var n := |m.stack|; var m1 := m.(pc := m.pc + 1);
             match op
             case 0 => next == m1.(finished := true)
             case 2 => n >= 2 && next == m1.(stack := m.stack[..n - 2] + [JavaInts.Wrap32(m.stack[n - 2] as int + m.stack[n - 1] as int)])
             case 3 => n >= 2 && next == m1.(stack := m.stack[..n - 2] + [JavaInts.Wrap32(m.stack[n - 2] as int - m.stack[n - 1] as int)])
             case 4 => 0 < n < ToyVm.StackCapacity && next == m1.(stack := m.stack + [m.stack[n - 1]])
             case 5 => n > 0 && next == m1.(stack := m.stack[..n - 1], output := m.output + [m.stack[n - 1]])
             case _ => false
    ensures ToyVm.Step(m) == Ok(next)
  {
    ToyVm.StepSimple(m);
  }

  /** The machine after `k` steps of the compiled program from `m0`. */
  function Trace(m0: ToyVm.Machine, k: nat): (m: ToyVm.Machine)
    requires k <= 9
    ensures m.program == m0.program
  {
    if k == 0 then m0
    else if k == 1 then m0.(pc := 5, stack := [2])
    else if k == 2 then m0.(pc := 10, stack := [2, 2])
    else if k == 3 then m0.(pc := 11, stack := [4])
    else if k == 4 then m0.(pc := 12, stack := [4, 4])
    else if k == 5 then m0.(pc := 13, stack := [4], output := [4])
    else if k == 6 then m0.(pc := 18, stack := [4, 1], output := [4])
    else if k == 7 then m0.(pc := 19, stack := [3], output := [4])
    else if k == 8 then m0.(pc := 20, stack := [], output := [4, 3])
    else m0.(pc := 21, stack := [], output := [4, 3], finished := true)
  }

  /** The program's starting state, with `m0` standing for it. */
  predicate Initial(m0: ToyVm.Machine) {
    m0.program == Program && m0.pc == 0 && m0.stack == [] && m0.output == [] && !m0.finished
  }

  lemma TraceStep0(m0: ToyVm.Machine)
    requires Initial(m0)
    ensures ToyVm.Step(Trace(m0, 0)) == Ok(Trace(m0, 1))
  {
    var m, next := Trace(m0, 0), Trace(m0, 1);
    ImmediateStep(m, 2, next);
  }

  lemma TraceStep1(m0: ToyVm.Machine)
    requires Initial(m0)
    ensures ToyVm.Step(Trace(m0, 1)) == Ok(Trace(m0, 2))
  {
    var m, next := Trace(m0, 1), Trace(m0, 2);
    ImmediateStep(m, 2, next);
  }

  lemma TraceStep2(m0: ToyVm.Machine)
    requires Initial(m0)
    ensures ToyVm.Step(Trace(m0, 2)) == Ok(Trace(m0, 3))
  {
    var m, next := Trace(m0, 2), Trace(m0, 3);
    SimpleStep(m, 2, next);
  }

  lemma TraceStep3(m0: ToyVm.Machine)
    requires Initial(m0)
    ensures ToyVm.Step(Trace(m0, 3)) == Ok(Trace(m0, 4))
  {
    var m, next := Trace(m0, 3), Trace(m0, 4);
    SimpleStep(m, 4, next);
  }

  lemma TraceStep4(m0: ToyVm.Machine)
    requires Initial(m0)
    ensures ToyVm.Step(Trace(m0, 4)) == Ok(Trace(m0, 5))
  {
    var m, next := Trace(m0, 4), Trace(m0, 5);
    SimpleStep(m, 5, next);
  }

  lemma TraceStep5(m0: ToyVm.Machine)
    requires Initial(m0)
    ensures ToyVm.Step(Trace(m0, 5)) == Ok(Trace(m0, 6))
  {
    var m, next := Trace(m0, 5), Trace(m0, 6);
    ImmediateStep(m, 1, next);
  }

  lemma TraceStep6(m0: ToyVm.Machine)
    requires Initial(m0)
    ensures ToyVm.Step(Trace(m0, 6)) == Ok(Trace(m0, 7))
  {
    var m, next := Trace(m0, 6), Trace(m0, 7);
    SimpleStep(m, 3, next);
  }

  lemma TraceStep7(m0: ToyVm.Machine)
    requires Initial(m0)
    ensures ToyVm.Step(Trace(m0, 7)) == Ok(Trace(m0, 8))
  {
    var m, next := Trace(m0, 7), Trace(m0, 8);
    SimpleStep(m, 5, next);
  }

  lemma TraceStep8(m0: ToyVm.Machine)
    requires Initial(m0)
    ensures ToyVm.Step(Trace(m0, 8)) == Ok(Trace(m0, 9))
  {
    var m, next := Trace(m0, 8), Trace(m0, 9);
    SimpleStep(m, 0, next);
  }

  lemma TraceStep(m0: ToyVm.Machine, k: nat)
    requires Initial(m0) && k < 9
    ensures !Trace(m0, k).finished && ToyVm.Step(Trace(m0, k)) == Ok(Trace(m0, k + 1))
  {
    match k
    case 0 => TraceStep0(m0);
    case 1 => TraceStep1(m0);
    case 2 => TraceStep2(m0);
    case 3 => TraceStep3(m0);
    case 4 => TraceStep4(m0);
    case 5 => TraceStep5(m0);
    case 6 => TraceStep6(m0);
    case 7 => TraceStep7(m0);
    case 8 => TraceStep8(m0);
  }

  /** The compiled program prints 4, then 3, and stops with an empty
      stack after reading all 21 bytes. */
  lemma ProgramRuns(m: ToyVm.Machine)
    requires Initial(m)
    ensures ToyVm.Run(m) == Ok(m.(pc := 21, output := [4, 3], finished := true))
  {
    var ms := seq(10, k requires 0 <= k < 10 => Trace(m, k));
    forall k | 0 <= k < 9
      ensures !ms[k].finished && ToyVm.Step(ms[k]) == Ok(ms[k + 1])
    {
      TraceStep(m, k);
    }
    TraceEnds(m);
    ToyVm.RunTrace(ms);
  }

  lemma TraceEnds(m0: ToyVm.Machine)
    requires Initial(m0)
    ensures Trace(m0, 0) == m0 && Trace(m0, 9) == m0.(pc := 21, output := [4, 3], finished := true)
  {
  }

  /** End to end: whatever the classes are, a successful compilation runs to
      the output 4, 3. */
  lemma CompiledProgramRuns(classes: map<string, ClassNode>, order: seq<string>)
    requires IsEnumeration(classes, order) && Compile(classes, order).Ok?
    ensures ToyVm.Run(ToyVm.Init(Compile(classes, order).value)).Ok?
    ensures ToyVm.Run(ToyVm.Init(Compile(classes, order).value)).value.output == [4, 3]
  {
    ProgramRuns(ToyVm.Init(Compile(classes, order).value));
  }
}
