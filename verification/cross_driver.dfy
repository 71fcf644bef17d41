/** The cross generation's driver (`cross/.../Compiler`): the same class
    resolution as the compiler generation without array names, the closed
    flag, vtables or metadata, and a compile step that translates the main
    class and, superclass first, the classes it extends. Method bodies are
    translated by module `CrossCodeTranslator`. */
module CrossCompiler {
  import opened Wrappers
  import opened Asm
  import opened Bytecode
  import CrossNameUtil
  import FieldAllocator
  import Compiler
  import CrossCodeTranslator

  /** A method as the class file holds it. */
  datatype MethodCode = MethodCode(access: nat, name: string, desc: string, maxLocals: nat, instructions: seq<Node>)

  datatype ClassFile = ClassFile(superName: Option<string>, fields: seq<Compiler.Member>, methods: seq<MethodCode>)

  datatype Loader = Loader(files: map<string, ClassFile>, failure: string -> Exception)

  /** A resolved class; `ordinal` counts the classes published before it. */
  datatype ClassInfo = ClassInfo(name: string, file: ClassFile, ordinal: nat,
                                 fieldAllocator: FieldAllocator.Allocator, fieldOffsets: seq<int>)

  /** `classInfos`, `staticFieldAllocator` and `compiledClasses`. */
  datatype State = State(classes: map<string, ClassInfo>, staticFields: FieldAllocator.Allocator, compiled: set<string>)

  predicate ClassWf(loader: Loader, classes: map<string, ClassInfo>, n: string)
    requires n in classes
  {
    var c := classes[n];
    && c.name == n && CrossNameUtil.Normalize(n) == n
    && n in loader.files && c.file == loader.files[n]
    && c.ordinal < |classes|
    && c.fieldAllocator.sealed && |c.fieldOffsets| == |c.file.fields|
    && (c.file.superName.None? ==> Compiler.FieldsLaid(None, c.file.fields, c.fieldOffsets, c.fieldAllocator))
    && (c.file.superName.Some? ==>
          var s := CrossNameUtil.Normalize(c.file.superName.value);
          s in classes && classes[s].ordinal < c.ordinal
          && Compiler.FieldsLaid(Some(classes[s].fieldAllocator), c.file.fields, c.fieldOffsets, c.fieldAllocator))
  }

  predicate ClassesWf(loader: Loader, classes: map<string, ClassInfo>) {
    forall n {:trigger ClassWf(loader, classes, n)} | n in classes :: ClassWf(loader, classes, n)
  }

  predicate Wf(loader: Loader, st: State) {
    ClassesWf(loader, st.classes)
  }

  predicate ClassesGrow(st: State, st2: State) {
    forall k | k in st.classes :: k in st2.classes && st2.classes[k] == st.classes[k]
  }

  // ---------------------------------------------------------------------
  // Class resolution

  /** `resolveClass(name)`; `visiting` as in the compiler generation. */
  function ResolveClass(loader: Loader, st: State, name: string, visiting: set<string>): (r: Result<(State, ClassInfo)>)
    requires Wf(loader, st)
    ensures CrossNameUtil.Normalize(name) in st.classes ==> r == Ok((st, st.classes[CrossNameUtil.Normalize(name)]))
    ensures CrossNameUtil.Normalize(name) !in st.classes && CrossNameUtil.Normalize(name) !in loader.files ==>
              r == Err(loader.failure(CrossNameUtil.Normalize(name)))
    ensures r.Ok? ==> && Wf(loader, r.value.0) && ClassesGrow(st, r.value.0) && r.value.0.compiled == st.compiled
                      && CrossNameUtil.Normalize(name) in r.value.0.classes
                      && r.value.0.classes[CrossNameUtil.Normalize(name)] == r.value.1
    ensures r.Ok? ==> forall k | k in r.value.0.classes && k !in st.classes :: k !in visiting
    ensures r.Ok? ==> && r.value.0.staticFields.wordCount >= st.staticFields.wordCount
                      && r.value.0.staticFields.sealed == st.staticFields.sealed
    decreases loader.files.Keys - visiting
  {
    var n := CrossNameUtil.Normalize(name);
    if n in st.classes then Ok((st, st.classes[n]))
    else if n !in loader.files then Err(loader.failure(n))
    else if n in visiting then Err(StackOverflow(""))
    else
      var file := loader.files[n];
      NormalizeIdempotent(name);
      if file.superName.None? then
        Build(loader, st, n, file, None, FieldAllocator.New())
      else
        var p :- ResolveClass(loader, st, file.superName.value, visiting + {n});
        assert ClassWf(loader, p.0.classes, CrossNameUtil.Normalize(file.superName.value));
        // a published class is sealed, so the constructor cannot refuse it
        var fields := FieldAllocator.FromParent(p.1.fieldAllocator).value;
        Build(loader, p.0, n, file, Some(p.1.fieldAllocator), fields)
  }

  lemma NormalizeIdempotent(name: string)
    ensures CrossNameUtil.Normalize(CrossNameUtil.Normalize(name)) == CrossNameUtil.Normalize(name)
  {
  }

  /** Fields, seal, publish; `parent` is the superclass's field allocator
      and `fields` the class's own allocator started from it. */
  function Build(loader: Loader, st: State, n: string, file: ClassFile, parent: Option<FieldAllocator.Allocator>,
                 fields: FieldAllocator.Allocator): (r: Result<(State, ClassInfo)>)
    requires Wf(loader, st) && n !in st.classes && n in loader.files && file == loader.files[n]
    requires CrossNameUtil.Normalize(n) == n
    requires parent.Some? <==> file.superName.Some?
    requires file.superName.Some? ==> && CrossNameUtil.Normalize(file.superName.value) in st.classes
                                      && st.classes[CrossNameUtil.Normalize(file.superName.value)].fieldAllocator == parent.value
    requires Compiler.InstanceStart(parent) == Ok(fields)
    ensures r.Ok? ==> && Wf(loader, r.value.0) && ClassesGrow(st, r.value.0) && r.value.0.compiled == st.compiled
                      && r.value.0.classes == st.classes[n := r.value.1]
    ensures r.Ok? ==> var p := Compiler.PlaceFields(fields, st.staticFields, file.fields);
                      && p.Ok? && r.value.1.fieldAllocator.wordCount == p.value.instance.wordCount
    ensures var p := Compiler.PlaceFields(fields, st.staticFields, file.fields);
            && (r.Ok? <==> p.Ok?)
            && (p.Err? ==> r == Err(p.error))
            && (r.Ok? ==> && r.value.1.fieldOffsets == p.value.offsets
                          && r.value.0.staticFields == p.value.statics
                          && r.value.1.fieldAllocator == FieldAllocator.Seal(p.value.instance).value
                          && r.value.1.ordinal == |st.classes|)
  {
    var placed :- Compiler.PlaceFields(fields, st.staticFields, file.fields);
    // the class's own allocator starts unsealed, so sealing it cannot fail
    var sealedFields := FieldAllocator.Seal(placed.instance).value;
    var c := ClassInfo(n, file, |st.classes|, sealedFields, placed.offsets);
    var st2 := st.(classes := st.classes[n := c], staticFields := placed.statics);
    Compiler.PlacedFieldsLaid(parent, fields, st.staticFields, file.fields, placed, sealedFields);
    OrdinalBelowSize(loader, st.classes, CrossNameUtil.Normalize(if file.superName.Some? then file.superName.value else ""));
    assert Publishable(loader, st.classes, n, c, parent);
    PublishKeepsWf(loader, st, st2, n, c, parent);
    Ok((st2, c))
  }

  /** What publishing `c` under the name `n` next to `classes` needs: a
      fresh normalized name with a loaded file, the next ordinal, a sealed
      field layout that continues `parent`, the superclass's allocator, and
      that superclass (if any) published before. */
  predicate Publishable(loader: Loader, classes: map<string, ClassInfo>, n: string, c: ClassInfo,
                        parent: Option<FieldAllocator.Allocator>)
  {
    && n !in classes && c.ordinal == |classes|
    && c.name == n && CrossNameUtil.Normalize(n) == n && n in loader.files && c.file == loader.files[n]
    && c.fieldAllocator.sealed && |c.fieldOffsets| == |c.file.fields|
    && (parent.Some? <==> c.file.superName.Some?)
    && (c.file.superName.Some? ==>
          var s := CrossNameUtil.Normalize(c.file.superName.value);
          s in classes && classes[s].ordinal < |classes| && classes[s].fieldAllocator == parent.value)
    && Compiler.FieldsLaid(parent, c.file.fields, c.fieldOffsets, c.fieldAllocator)
  }

  lemma PublishKeepsWf(loader: Loader, st: State, st2: State, n: string, c: ClassInfo, parent: Option<FieldAllocator.Allocator>)
    requires Wf(loader, st) && Publishable(loader, st.classes, n, c, parent)
    requires st2.classes == st.classes[n := c]
    ensures Wf(loader, st2) && ClassesGrow(st, st2)
  {
    assert |st2.classes| == |st.classes| + 1 by {
      assert st2.classes.Keys == st.classes.Keys + {n};
    }
    forall k | k in st2.classes
      ensures ClassWf(loader, st2.classes, k)
    {
      PublishedClassWf(loader, st.classes, st2.classes, n, c, parent, k);
    }
  }

  /** Each class of the table `PublishKeepsWf` builds is well formed: the
      old ones stay so, and the new one is. */
  lemma PublishedClassWf(loader: Loader, classes: map<string, ClassInfo>, classes2: map<string, ClassInfo>,
                         n: string, c: ClassInfo, parent: Option<FieldAllocator.Allocator>, k: string)
    requires ClassesWf(loader, classes) && Publishable(loader, classes, n, c, parent)
    requires classes2 == classes[n := c] && |classes2| == |classes| + 1 && k in classes2
    ensures ClassWf(loader, classes2, k)
  {
    if k != n {
      assert ClassWf(loader, classes, k);
      ClassWfKept(loader, classes, classes2, k);
    } else {
      NewClassWf(loader, classes, classes2, n, c, parent);
    }
  }

  /** The class `PublishKeepsWf` adds is well formed in the new table. */
  lemma NewClassWf(loader: Loader, classes: map<string, ClassInfo>, classes2: map<string, ClassInfo>,
                   n: string, c: ClassInfo, parent: Option<FieldAllocator.Allocator>)
    requires Publishable(loader, classes, n, c, parent)
    requires classes2 == classes[n := c] && |classes2| == |classes| + 1
    ensures ClassWf(loader, classes2, n)
  {
    if c.file.superName.Some? {
      var s := CrossNameUtil.Normalize(c.file.superName.value);
      assert classes2[s] == classes[s];
    }
  }

  /** A published class's ordinal counts the classes published before it,
      so it is below the size of the table. */
  lemma OrdinalBelowSize(loader: Loader, classes: map<string, ClassInfo>, k: string)
    requires ClassesWf(loader, classes)
    ensures k in classes ==> classes[k].ordinal < |classes|
  {
    if k in classes {
      assert ClassWf(loader, classes, k);
    }
  }

  /** A well-formed class stays well formed in a larger table that keeps
      every entry of the old one. */
  lemma ClassWfKept(loader: Loader, classes: map<string, ClassInfo>, classes2: map<string, ClassInfo>, k: string)
    requires k in classes && ClassWf(loader, classes, k)
    requires forall j | j in classes :: j in classes2 && classes2[j] == classes[j]
    requires |classes| <= |classes2|
    ensures ClassWf(loader, classes2, k)
  {
    var c := classes[k];
    if c.file.superName.Some? {
      var s := CrossNameUtil.Normalize(c.file.superName.value);
      assert classes2[s] == classes[s];
    }
  }

  /** What a successful resolution hands back: the class published under
      the name asked for, from its class file, with a sealed field
      allocator, and its instance fields laid out after those of its
      superclass, which was published before it (`Compiler.FieldsLaid`). */
  lemma ResolvedClassIsComplete(loader: Loader, st: State, name: string)
    requires Wf(loader, st)
    requires ResolveClass(loader, st, name, {}).Ok?
    ensures var (st2, c) := ResolveClass(loader, st, name, {}).value;
      && c.name == CrossNameUtil.Normalize(name) && c.name in loader.files && c.file == loader.files[c.name]
      && c.fieldAllocator.sealed && |c.fieldOffsets| == |c.file.fields|
      && (c.file.superName.None? ==> Compiler.FieldsLaid(None, c.file.fields, c.fieldOffsets, c.fieldAllocator))
      && (c.file.superName.Some? ==>
            var s := CrossNameUtil.Normalize(c.file.superName.value);
            s in st2.classes && st2.classes[s].ordinal < c.ordinal
            && Compiler.FieldsLaid(Some(st2.classes[s].fieldAllocator), c.file.fields, c.fieldOffsets, c.fieldAllocator))
  {
    var (st2, c) := ResolveClass(loader, st, name, {}).value;
    assert ClassWf(loader, st2.classes, CrossNameUtil.Normalize(name));
  }

  /** `getArrayHeaderSize()`: the words of `java.lang.Array`. */
  function ArrayHeaderSize(arrayClass: ClassInfo): int {
    arrayClass.fieldAllocator.wordCount * 4
  }

  /** With jboot's `java.lang.Array` (a direct subclass of Object whose one
      field is the instance int `length`), the cross generation's header
      size, the words of Array, is the compiler generation's, the words of
      Object plus the length word. */
  lemma HeaderSizesAgree(loader: Loader, st: State, arrayName: string, length: Compiler.Member)
    requires Wf(loader, st)
    requires CrossNameUtil.Normalize(arrayName) !in st.classes && CrossNameUtil.Normalize(arrayName) in loader.files
    requires var file := loader.files[CrossNameUtil.Normalize(arrayName)];
             && file.superName.Some? && CrossNameUtil.Normalize(file.superName.value) in st.classes
             && file.fields == [length]
    requires !HasFlag(length.access, ACC_STATIC) && length.desc == "I"
    requires ResolveClass(loader, st, arrayName, {}).Ok?
    ensures var file := loader.files[CrossNameUtil.Normalize(arrayName)];
            var objectClass := st.classes[CrossNameUtil.Normalize(file.superName.value)];
            ArrayHeaderSize(ResolveClass(loader, st, arrayName, {}).value.1)
              == (objectClass.fieldAllocator.wordCount + 1) * 4
  {
    var n := CrossNameUtil.Normalize(arrayName);
    var file := loader.files[n];
    var s := CrossNameUtil.Normalize(file.superName.value);
    var objectClass := st.classes[s];
    assert ClassWf(loader, st.classes, s);
    var fields := FieldAllocator.FromParent(objectClass.fieldAllocator).value;
    assert Compiler.FieldOp(length.desc) == FieldAllocator.Word;
    var word := FieldAllocator.AllocateWord(fields).value;
    assert file.fields[1..] == [];
    assert Compiler.PlaceFields(word.allocator, st.staticFields, file.fields[1..])
           == Ok(Compiler.Placement(word.allocator, st.staticFields, []));
    var placed := Compiler.PlaceFields(fields, st.staticFields, file.fields);
    assert placed.Ok? && placed.value.instance.wordCount == objectClass.fieldAllocator.wordCount + 1;
    assert ResolveClass(loader, st, file.superName.value, {n}) == Ok((st, objectClass));
  }

  // ---------------------------------------------------------------------
  // Compiling

  /** The method node the translator is handed for method `m` of class `n`. */
  function MethodNodeOf(n: string, m: MethodCode): CrossCodeTranslator.MethodNode {
    CrossCodeTranslator.MethodNode(n, m.name, m.access, m.desc, m.maxLocals, m.instructions)
  }

  /** `translate()` of every method of class `n`, in order: the class
      translates exactly when each method does, and its code starts with
      the first method's. */
  function TranslateMethods(hooks: CrossCodeTranslator.Hooks, n: string, methods: seq<MethodCode>): (r: Result<seq<Line>>)
    ensures r.Ok? <==> forall i | 0 <= i < |methods| :: CrossCodeTranslator.Translate(hooks, MethodNodeOf(n, methods[i])).Ok?
    ensures r.Ok? && |methods| > 0 ==> CrossCodeTranslator.Translate(hooks, MethodNodeOf(n, methods[0])).value <= r.value
    decreases |methods|
  {
    if |methods| == 0 then Ok([])
    else
      var code :- CrossCodeTranslator.Translate(hooks, MethodNodeOf(n, methods[0]));
      var rest :- TranslateMethods(hooks, n, methods[1..]);
      assert forall i | 1 <= i < |methods| :: methods[i] == methods[1..][i - 1];
      Ok(code + rest)
  }

  /** The superclass of compiled class `k` is compiled too, for every `k`
      outside `pending`. */
  predicate SuperClosed(st: State, pending: set<string>)
    requires st.compiled <= st.classes.Keys
  {
    forall k | k in st.compiled && k !in pending && st.classes[k].file.superName.Some? ::
      CrossNameUtil.Normalize(st.classes[k].file.superName.value) in st.compiled
  }

  /** What compiling class `n` from `st` promises when it succeeds with
      state `st2` and output `out`. */
  predicate Compiles(loader: Loader, st: State, pending: set<string>, n: string, st2: State, out: seq<Compiler.Compiled>)
    requires st.compiled <= st.classes.Keys
  {
    && Wf(loader, st2) && st2.compiled <= st2.classes.Keys
    && ClassesGrow(st, st2)
    && Compiler.CompiledOnce(st.compiled, out, st2.compiled)
    && n in st2.compiled
    && (SuperClosed(st, pending) ==> SuperClosed(st2, pending))
    && (n !in st.compiled ==> |out| > 0 && out[|out| - 1].name == n)
  }

  function CompileErrorMessage(name: string): string {
    "error compiling class " + name
  }

  /** `compileClass(name)`: failures are wrapped with the class name, except
      the `StackOverflowError` of a cyclic superclass chain, which is not an
      `Exception`. */
  function CompileClass(loader: Loader, hooks: CrossCodeTranslator.Hooks, st: State, pending: set<string>, name: string)
    : (r: Result<(State, seq<Compiler.Compiled>)>)
    requires Wf(loader, st) && st.compiled <= st.classes.Keys
    ensures CrossNameUtil.Normalize(name) in st.compiled ==> r == Ok((st, []))
    ensures r.Err? ==> r.error.StackOverflow? || (r.error.Wrapped? && r.error.message == CompileErrorMessage(CrossNameUtil.Normalize(name)))
    ensures r.Ok? ==> Compiles(loader, st, pending, CrossNameUtil.Normalize(name), r.value.0, r.value.1)
    decreases loader.files.Keys - st.compiled, 2
  {
    var n := CrossNameUtil.Normalize(name);
    if n in st.compiled then
      assert Compiler.Names([]) == {};
      Ok((st, []))
    else
      NormalizeIdempotent(name);
      var res := CompileMarked(loader, hooks, st, pending, n);
      if res.Err? && !res.error.StackOverflow? then Err(Wrapped(CompileErrorMessage(n), res.error)) else res
  }

  function CompileMarked(loader: Loader, hooks: CrossCodeTranslator.Hooks, st: State, pending: set<string>, n: string)
    : (r: Result<(State, seq<Compiler.Compiled>)>)
    requires Wf(loader, st) && st.compiled <= st.classes.Keys
    requires n !in st.compiled && CrossNameUtil.Normalize(n) == n
    ensures r.Ok? ==> Compiles(loader, st, pending, n, r.value.0, r.value.1)
    decreases loader.files.Keys - st.compiled, 1
  {
    var p :- ResolveClass(loader, st.(compiled := st.compiled + {n}), n, {});
    var (st1, c) := p;
    var q :- CompileSuper(loader, hooks, st, pending, st1, c, n);
    var code :- TranslateMethods(hooks, n, c.file.methods);
    Compiler.CompiledLast(st.compiled, q.1, q.0.compiled, n);
    Ok((q.0, q.1 + [Compiler.Compiled(n, code)]))
  }

  function CompileSuper(loader: Loader, hooks: CrossCodeTranslator.Hooks, st: State, pending: set<string>,
                        st1: State, c: ClassInfo, n: string): (r: Result<(State, seq<Compiler.Compiled>)>)
    requires Wf(loader, st) && st.compiled <= st.classes.Keys && n !in st.compiled
    requires Wf(loader, st1) && st1.compiled == st.compiled + {n} && ClassesGrow(st, st1)
    requires n in st1.classes && st1.classes[n] == c
    ensures r.Ok? ==> && Wf(loader, r.value.0) && r.value.0.compiled <= r.value.0.classes.Keys
                      && ClassesGrow(st1, r.value.0)
                      && Compiler.CompiledOnce(st.compiled + {n}, r.value.1, r.value.0.compiled)
                      && (SuperClosed(st, pending) ==> SuperClosed(r.value.0, pending))
    decreases loader.files.Keys - st.compiled, 0
  {
    assert ClassWf(loader, st1.classes, n);
    assert loader.files.Keys - st1.compiled < loader.files.Keys - st.compiled;
    if c.file.superName.None? then
      assert Compiler.Names([]) == {};
      Ok((st1, []))
    else
      var q :- CompileClass(loader, hooks, st1, pending + {n}, c.file.superName.value);
      assert SuperClosed(st, pending) ==> SuperClosed(st1, pending + {n});
      Ok(q)
  }

  /** The compiled program: the final state, each class's code in the
      order printed, and the number of static field words. */
  datatype Program = Program(state: State, classes: seq<Compiler.Compiled>, staticWords: int)

  /** `compile()`: resolve Object and Array, compile the main class, seal
      the static area. */
  method Compile(loader: Loader, hooks: CrossCodeTranslator.Hooks, mainClassName: string) returns (r: Result<Program>)
    ensures r.Ok? ==>
      var p := r.value;
      && p.state.staticFields.sealed && p.staticWords == p.state.staticFields.wordCount
      && Compiler.Distinct(p.classes) && Compiler.Names(p.classes) == p.state.compiled
      && CrossNameUtil.Normalize(mainClassName) in p.state.compiled
      && p.state.compiled <= p.state.classes.Keys && SuperClosed(p.state, {})
      && CrossNameUtil.Normalize("java.lang.Object") in p.state.classes
      && CrossNameUtil.Normalize("java.lang.Array") in p.state.classes
  {
    var st := State(map[], FieldAllocator.New(), {});
    var o :- ResolveClass(loader, st, "java.lang.Object", {});
    var a :- ResolveClass(loader, o.0, "java.lang.Array", {});
    assert CrossNameUtil.Normalize("java.lang.Object") in a.0.classes;
    var m :- CompileClass(loader, hooks, a.0, {}, mainClassName);
    var statics :- FieldAllocator.Seal(m.0.staticFields);
    return Ok(Program(m.0.(staticFields := statics), m.1, statics.wordCount));
  }
}
