/** The compiler generation's driver (`compiler/.../Compiler`): resolving a
    class (its field layout, vtable slots and run-time metadata object, with
    the superclass resolved first), resolving array metadata by name, and
    compiling every class that ends up resolved exactly once, superclass
    before subclass.

    Opening a class file is a lookup in `Loader.files`; translating one
    method is the parameter `translate` (module `CodeTranslator` models it),
    which also reports the classes and the array metadata the translation
    resolved. The driver's
    state is threaded through every operation as a `State` value. */
module Compiler {
  import opened Wrappers
  import opened Text
  import opened Asm
  import opened Bytecode
  import NameUtil
  import FieldAllocator
  import VtableAllocator

  const ACC_INTERFACE: nat := 0x0200

  /** A field or method as the class file declares it. */
  datatype Member = Member(access: nat, name: string, desc: string)

  /** What the class reader takes from a class file. */
  datatype ClassFile = ClassFile(access: nat, superName: Option<string>, fields: seq<Member>, methods: seq<Member>)

  /** `VtableAllocator.allocateMethod(methodInfo)`, which `resolveClass`
      calls but whose definition is not part of this model: the allocator
      after the call and the vtable index handed out, or the exception. */
  type SlotHook = (VtableAllocator.VtableAllocator, Member) -> Result<(VtableAllocator.VtableAllocator, int)>

  /** `ClassFileLoader.open`: the class files it finds by internal name, and
      the exception `resolveClass` ends in for a name it cannot open; with
      the vtable slot allocation the resolver calls. */
  datatype Loader = Loader(files: map<string, ClassFile>, failure: string -> Exception, allocateMethod: SlotHook)

  /** The run-time metadata object of a class or array type, created but
      not yet filled; a class refers to its parent class by name. */
  datatype Metadata =
    | ClassMeta(name: string, parent: Option<string>)
    | InterfaceMeta(name: string)
    | PrimitiveArrayMeta(name: string)
    | ObjectArrayMeta(name: string, element: Metadata)

  /** A resolved class (`ClassInfo`). `fieldOffsets[i]` is the storage
      offset of field i, `vtableSlots[i]` the vtable index of method i if it
      has one, and `ordinal` counts the classes published before it. */
  datatype ClassInfo = ClassInfo(
    name: string,
    file: ClassFile,
    ordinal: nat,
    fieldAllocator: FieldAllocator.Allocator,
    fieldOffsets: seq<int>,
    vtableAllocator: VtableAllocator.VtableAllocator,
    vtableSlots: seq<Option<int>>,
    metadata: Metadata)

  /** The compiler's fields: `classInfos`, `staticFieldAllocator`,
      `metadataContributors`, `compiledClasses` and `resolutionClosed`. */
  datatype State = State(
    classes: map<string, ClassInfo>,
    staticFields: FieldAllocator.Allocator,
    metadata: map<string, Metadata>,
    compiled: set<string>,
    resolutionClosed: bool)

  const ArrayClassMessage := "cannot use resolveClass() for array classes"

  function ClosedMessage(name: string): string {
    "class resolution has been closed already (trying to resolve " + name + ")"
  }

  predicate IsArrayName(name: string) {
    |name| > 0 && name[0] == '['
  }

  // ---------------------------------------------------------------------
  // What every reachable state satisfies

  /** Class `n` is published under its internal name, from the loader's
      file, with both allocators sealed, and its superclass (if any) was
      published before it. */
  predicate ClassWf(loader: Loader, classes: map<string, ClassInfo>, n: string)
    requires n in classes
  {
    var c := classes[n];
    && c.name == n && NameUtil.Normalize(n) == n
    && n in loader.files && c.file == loader.files[n]
    && c.ordinal < |classes|
    && c.fieldAllocator.sealed && c.vtableAllocator.sealed
    && |c.fieldOffsets| == |c.file.fields| && |c.vtableSlots| == |c.file.methods|
    && (c.file.superName.None? ==> Laid(c, None))
    && (c.file.superName.Some? ==>
          var s := NameUtil.Normalize(c.file.superName.value);
          s in classes && classes[s].ordinal < c.ordinal
          && classes[s].fieldAllocator.wordCount <= c.fieldAllocator.wordCount
          && Laid(c, Some(classes[s].fieldAllocator)))
  }

  /** The layout `resolveClass` gives class `c` whose superclass has field
      allocator `parent` (none for a root): `FieldsLaid` for its instance
      fields, a vtable slot for a method exactly when it gets one, and its
      metadata object `MetaOf` its file. */
  predicate Laid(c: ClassInfo, parent: Option<FieldAllocator.Allocator>)
    requires |c.fieldOffsets| == |c.file.fields| && |c.vtableSlots| == |c.file.methods|
  {
    && FieldsLaid(parent, c.file.fields, c.fieldOffsets, c.fieldAllocator)
    && (forall i | 0 <= i < |c.vtableSlots| :: c.vtableSlots[i].Some? <==> GetsSlot(c.file.methods[i]))
    && c.metadata == MetaOf(c.name, c.file)
  }

  /** The instance fields among `fields`, allocated on their own in
      declaration order from a fresh allocator or from a child of the
      superclass's `parent`, get exactly the offsets `offsets` records for
      them and leave, once sealed, the allocator `sealedEnd`. */
  predicate FieldsLaid(parent: Option<FieldAllocator.Allocator>, fields: seq<Member>, offsets: seq<int>, sealedEnd: FieldAllocator.Allocator)
    requires |offsets| == |fields|
  {
    var run := InstanceRun(parent, fields);
    && run.Ok? && run.value.offsets == Pick(offsets, fields, false)
    && FieldAllocator.Seal(run.value.allocator) == Ok(sealedEnd)
  }

  function InstanceRun(parent: Option<FieldAllocator.Allocator>, fields: seq<Member>): Result<FieldAllocator.Run> {
    var start :- InstanceStart(parent);
    FieldAllocator.ApplyAll(start, Ops(fields, false))
  }

  /** The field allocator a class starts from: a fresh one for a root, a
      child of the superclass's otherwise. */
  function InstanceStart(parent: Option<FieldAllocator.Allocator>): Result<FieldAllocator.Allocator> {
    if parent.Some? then FieldAllocator.FromParent(parent.value) else Ok(FieldAllocator.New())
  }

  function ParentFields(super: Option<ClassInfo>): Option<FieldAllocator.Allocator> {
    if super.Some? then Some(super.value.fieldAllocator) else None
  }

  /** The run-time metadata object `resolveClass` creates for class `n`: an
      interface, or a class whose parent is the superclass's. */
  function MetaOf(n: string, file: ClassFile): Metadata {
    if HasFlag(file.access, ACC_INTERFACE) then InterfaceMeta(n)
    else ClassMeta(n, if file.superName.Some? then Some(NameUtil.Normalize(file.superName.value)) else None)
  }

  predicate ClassesWf(loader: Loader, classes: map<string, ClassInfo>) {
    forall n {:trigger ClassWf(loader, classes, n)} | n in classes :: ClassWf(loader, classes, n)
  }

  /** Every published class is well formed. */
  predicate Wf(loader: Loader, st: State) {
    ClassesWf(loader, st.classes)
  }

  /** Every class of `st` is still there, unchanged, in `st2`. */
  predicate ClassesGrow(st: State, st2: State) {
    forall k | k in st.classes :: k in st2.classes && st2.classes[k] == st.classes[k]
  }

  /** Every metadata object of `st` is still there, unchanged, in `st2`. */
  predicate MetadataGrows(st: State, st2: State) {
    forall k | k in st.metadata :: k in st2.metadata && st2.metadata[k] == st.metadata[k]
  }

  /** A resolution step: classes only added, and the other bookkeeping
      untouched. */
  predicate ResolutionStep(st: State, st2: State) {
    && ClassesGrow(st, st2)
    && st2.metadata == st.metadata && st2.compiled == st.compiled
    && st2.resolutionClosed == st.resolutionClosed
  }

  // ---------------------------------------------------------------------
  // Field placement

  /** The allocator call for a field's descriptor. */
  function FieldOp(desc: string): FieldAllocator.Op {
    if desc == "B" then FieldAllocator.Byte
    else if desc == "S" || desc == "C" then FieldAllocator.Halfword
    else if desc == "J" || desc == "D" then FieldAllocator.Doubleword
    else FieldAllocator.Word
  }

  datatype Placement = Placement(instance: FieldAllocator.Allocator, statics: FieldAllocator.Allocator, offsets: seq<int>)

  /** The field loop: static fields go to the shared static allocator,
      instance fields to the class's own. */
  function PlaceFields(instance: FieldAllocator.Allocator, statics: FieldAllocator.Allocator, fields: seq<Member>): (r: Result<Placement>)
    ensures r.Ok? ==> |r.value.offsets| == |fields|
    ensures r.Ok? ==> r.value.instance.wordCount >= instance.wordCount && r.value.instance.sealed == instance.sealed
    ensures r.Ok? ==> r.value.statics.wordCount >= statics.wordCount && r.value.statics.sealed == statics.sealed
    decreases |fields|
  {
    if |fields| == 0 then Ok(Placement(instance, statics, []))
    else if HasFlag(fields[0].access, ACC_STATIC) then
      var a :- FieldAllocator.Apply(statics, FieldOp(fields[0].desc));
      var rest :- PlaceFields(instance, a.allocator, fields[1..]);
      Ok(Placement(rest.instance, rest.statics, [a.offset] + rest.offsets))
    else
      var a :- FieldAllocator.Apply(instance, FieldOp(fields[0].desc));
      var rest :- PlaceFields(a.allocator, statics, fields[1..]);
      Ok(Placement(rest.instance, rest.statics, [a.offset] + rest.offsets))
  }

  /** The allocator calls for the fields whose static flag is `static`, in
      declaration order. */
  function Ops(fields: seq<Member>, wantStatic: bool): seq<FieldAllocator.Op>
    decreases |fields|
  {
    if |fields| == 0 then []
    else (if HasFlag(fields[0].access, ACC_STATIC) == wantStatic then [FieldOp(fields[0].desc)] else [])
         + Ops(fields[1..], wantStatic)
  }

  /** The offsets of the fields whose static flag is `static`. */
  function Pick(offsets: seq<int>, fields: seq<Member>, wantStatic: bool): seq<int>
    requires |offsets| == |fields|
    decreases |fields|
  {
    if |fields| == 0 then []
    else (if HasFlag(fields[0].access, ACC_STATIC) == wantStatic then [offsets[0]] else [])
         + Pick(offsets[1..], fields[1..], wantStatic)
  }

  /** Interleaving the two kinds of field changes nothing for either
      allocator: placement succeeds exactly when the instance fields alone
      and the static fields alone can be allocated, and then each allocator
      ends where, and hands out what, it would on its own fields. */
  lemma {:induction false} PlacementSplits(instance: FieldAllocator.Allocator, statics: FieldAllocator.Allocator, fields: seq<Member>)
    ensures PlaceFields(instance, statics, fields).Ok? <==>
            FieldAllocator.ApplyAll(instance, Ops(fields, false)).Ok? && FieldAllocator.ApplyAll(statics, Ops(fields, true)).Ok?
    ensures PlaceFields(instance, statics, fields).Ok? ==>
            var p := PlaceFields(instance, statics, fields).value;
            && FieldAllocator.ApplyAll(instance, Ops(fields, false)).value
               == FieldAllocator.Run(p.instance, Pick(p.offsets, fields, false))
            && FieldAllocator.ApplyAll(statics, Ops(fields, true)).value
               == FieldAllocator.Run(p.statics, Pick(p.offsets, fields, true))
    decreases |fields|
  {
    if |fields| > 0 {
      var op := FieldOp(fields[0].desc);
      var isStatic := HasFlag(fields[0].access, ACC_STATIC);
      var mine := if isStatic then statics else instance;
      var a := FieldAllocator.Apply(mine, op);
      if a.Ok? {
        var next := a.value.allocator;
        if isStatic {
          PlacementSplits(instance, next, fields[1..]);
          assert Ops(fields, true) == [op] + Ops(fields[1..], true);
          assert Ops(fields, false) == Ops(fields[1..], false);
          assert ([op] + Ops(fields[1..], true))[1..] == Ops(fields[1..], true);
        } else {
          PlacementSplits(next, statics, fields[1..]);
          assert Ops(fields, false) == [op] + Ops(fields[1..], false);
          assert Ops(fields, true) == Ops(fields[1..], true);
          assert ([op] + Ops(fields[1..], false))[1..] == Ops(fields[1..], false);
        }
        if PlaceFields(instance, statics, fields).Ok? {
          var p := PlaceFields(instance, statics, fields).value;
          assert p.offsets[1..] == PlaceFields(if isStatic then instance else next, if isStatic then next else statics, fields[1..]).value.offsets;
        }
      } else {
        if isStatic {
          assert Ops(fields, true) == [op] + Ops(fields[1..], true);
        } else {
          assert Ops(fields, false) == [op] + Ops(fields[1..], false);
        }
      }
    }
  }

  // ---------------------------------------------------------------------
  // Vtable slots

  /** Non-static methods other than constructors get a vtable slot. */
  predicate GetsSlot(m: Member) {
    !HasFlag(m.access, ACC_STATIC) && m.name != "<init>"
  }

  /** The method loop: one `allocateMethod(methodInfo)` per method that
      gets a slot, in declaration order, each on the allocator the previous
      call left; the other methods have no slot. */
  function AllocateSlots(allocate: SlotHook, a: VtableAllocator.VtableAllocator, methods: seq<Member>)
    : (r: Result<(VtableAllocator.VtableAllocator, seq<Option<int>>)>)
    ensures r.Ok? ==> |r.value.1| == |methods|
    ensures r.Ok? ==> forall i | 0 <= i < |methods| :: r.value.1[i].Some? <==> GetsSlot(methods[i])
    ensures (forall i | 0 <= i < |methods| :: !GetsSlot(methods[i])) ==> r.Ok? && r.value.0 == a
    ensures |methods| > 0 && GetsSlot(methods[0]) ==>
      && (allocate(a, methods[0]).Err? ==> r == Err(allocate(a, methods[0]).error))
      && (r.Ok? ==> allocate(a, methods[0]).Ok? && r.value.1[0] == Some(allocate(a, methods[0]).value.1))
    decreases |methods|
  {
    if |methods| == 0 then Ok((a, []))
    else if GetsSlot(methods[0]) then
      var s :- allocate(a, methods[0]);
      var rest :- AllocateSlots(allocate, s.0, methods[1..]);
      Ok((rest.0, [Some(s.1)] + rest.1))
    else
      var rest :- AllocateSlots(allocate, a, methods[1..]);
      Ok((rest.0, [None] + rest.1))
  }

  /** With the `allocateMethod()` of `VtableAllocator`, which answers 0
      until the allocator is sealed, every method that gets a slot gets 0,
      and a sealed allocator refuses the first one. */
  lemma {:induction false} SlotsOfZeroAllocator(a: VtableAllocator.VtableAllocator, methods: seq<Member>)
    ensures var r := AllocateSlots(ZeroSlots, a, methods);
      && (r.Ok? <==> !a.sealed || forall i | 0 <= i < |methods| :: !GetsSlot(methods[i]))
      && (r.Ok? ==> r.value.0 == a && forall i | 0 <= i < |methods| :: r.value.1[i] == (if GetsSlot(methods[i]) then Some(0) else None))
    decreases |methods|
  {
    if |methods| > 0 {
      SlotsOfZeroAllocator(a, methods[1..]);
      var r := AllocateSlots(ZeroSlots, a, methods);
      if r.Ok? {
        var rest := AllocateSlots(ZeroSlots, a, methods[1..]).value;
        assert r.value.1 == [if GetsSlot(methods[0]) then Some(0) else None] + rest.1;
      }
      if !(!a.sealed || forall i | 0 <= i < |methods| :: !GetsSlot(methods[i])) {
        var i :| 0 <= i < |methods| && GetsSlot(methods[i]);
        if i > 0 {
          assert methods[1..][i - 1] == methods[i];
        }
      }
      if forall i | 0 <= i < |methods[1..]| :: !GetsSlot(methods[1..][i]) {
        assert forall i | 1 <= i < |methods| :: !GetsSlot(methods[i]) by {
          forall i | 1 <= i < |methods| ensures !GetsSlot(methods[i]) {
            assert methods[i] == methods[1..][i - 1];
          }
        }
      }
    }
  }

  /** The zero-argument `allocateMethod()` as a slot hook. */
  function ZeroSlots(a: VtableAllocator.VtableAllocator, m: Member): Result<(VtableAllocator.VtableAllocator, int)> {
    var s :- VtableAllocator.AllocateMethod(a);
    Ok((a, s.index))
  }

  // ---------------------------------------------------------------------
  // Class resolution

  /** `resolveClass(name)`. `visiting` holds the classes whose resolution
      is under way further up; meeting one again is the unbounded recursion
      a cyclic superclass chain causes in `resolveClass`. */
  function ResolveClass(loader: Loader, st: State, name: string, visiting: set<string>): (r: Result<(State, ClassInfo)>)
    requires Wf(loader, st)
    ensures IsArrayName(name) ==> r == Err(IllegalArgument(ArrayClassMessage))
    ensures !IsArrayName(name) && NameUtil.Normalize(name) in st.classes ==>
              r == Ok((st, st.classes[NameUtil.Normalize(name)]))
    ensures !IsArrayName(name) && NameUtil.Normalize(name) !in st.classes && st.resolutionClosed ==>
              r == Err(IllegalState(ClosedMessage(NameUtil.Normalize(name))))
    ensures r.Ok? ==> && Wf(loader, r.value.0) && ResolutionStep(st, r.value.0)
                      && NameUtil.Normalize(name) in r.value.0.classes
                      && r.value.0.classes[NameUtil.Normalize(name)] == r.value.1
    ensures r.Ok? ==> forall k | k in r.value.0.classes && k !in st.classes :: k !in visiting
    ensures r.Ok? ==> && r.value.0.staticFields.wordCount >= st.staticFields.wordCount
                      && r.value.0.staticFields.sealed == st.staticFields.sealed
    decreases loader.files.Keys - visiting
  {
    if IsArrayName(name) then Err(IllegalArgument(ArrayClassMessage))
    else
      var n := NameUtil.Normalize(name);
      if n in st.classes then Ok((st, st.classes[n]))
      else if st.resolutionClosed then Err(IllegalState(ClosedMessage(n)))
      else if n !in loader.files then Err(loader.failure(n))
      else if n in visiting then Err(StackOverflow(""))
      else
        var file := loader.files[n];
        NameUtil.NormalizeIdempotent(name);
        if file.superName.None? then
          Build(loader, st, n, file, None, FieldAllocator.New(), VtableAllocator.New())
        else
          var p :- ResolveClass(loader, st, file.superName.value, visiting + {n});
          assert ClassWf(loader, p.0.classes, NameUtil.Normalize(file.superName.value));
          // a published class is sealed, so neither constructor can refuse it
          var fields := FieldAllocator.FromParent(p.1.fieldAllocator).value;
          var slots := VtableAllocator.FromParent(p.1.vtableAllocator).value;
          Build(loader, p.0, n, file, Some(p.1), fields, slots)
  }

  /** A class, not an interface, whose superclass has interface metadata:
      the `(VmClass)` cast of the superclass's metadata fails. */
  predicate ExtendsInterface(file: ClassFile, super: Option<ClassInfo>) {
    !HasFlag(file.access, ACC_INTERFACE) && super.Some? && !super.value.metadata.ClassMeta?
  }

  const InterfaceCastMessage := "VmInterface cannot be cast to VmClass"

  /** The rest of `resolveClass` once the superclass is resolved: fields,
      seal, vtable slots, seal, metadata, publish. */
  function Build(loader: Loader, st: State, n: string, file: ClassFile, super: Option<ClassInfo>,
                 fields: FieldAllocator.Allocator, slots: VtableAllocator.VtableAllocator): (r: Result<(State, ClassInfo)>)
    requires Wf(loader, st) && n !in st.classes && n in loader.files && file == loader.files[n]
    requires NameUtil.Normalize(n) == n
    requires super.Some? <==> file.superName.Some?
    requires super.Some? ==> && NameUtil.Normalize(file.superName.value) in st.classes
                             && st.classes[NameUtil.Normalize(file.superName.value)] == super.value
    requires InstanceStart(ParentFields(super)) == Ok(fields)
    ensures r.Ok? ==> && Wf(loader, r.value.0) && ResolutionStep(st, r.value.0)
                      && r.value.0.classes == st.classes[n := r.value.1]
    ensures var p := PlaceFields(fields, st.staticFields, file.fields);
            var v := AllocateSlots(loader.allocateMethod, slots, file.methods);
            && (r.Ok? <==> p.Ok? && v.Ok? && !v.value.0.sealed && !ExtendsInterface(file, super))
            && (p.Err? ==> r == Err(p.error))
            && (p.Ok? && v.Err? ==> r == Err(v.error))
            && (p.Ok? && v.Ok? && v.value.0.sealed ==>
                  r == Err(IllegalState(VtableAllocator.SealedMessage)))
            && (p.Ok? && v.Ok? && !v.value.0.sealed && ExtendsInterface(file, super) ==>
                  r == Err(ClassCast(InterfaceCastMessage)))
            && (r.Ok? ==> && r.value.1.fieldOffsets == p.value.offsets
                          && r.value.0.staticFields == p.value.statics
                          && r.value.1.vtableSlots == v.value.1
                          && r.value.1.metadata == MetaOf(n, file)
                          && r.value.1.ordinal == |st.classes|)
  {
    var placed :- PlaceFields(fields, st.staticFields, file.fields);
    // the class's own allocator starts unsealed, so sealing it cannot fail
    var sealedFields := FieldAllocator.Seal(placed.instance).value;
    var vtable :- AllocateSlots(loader.allocateMethod, slots, file.methods);
    var sealedSlots :- VtableAllocator.Seal(vtable.0);
    var meta :- if HasFlag(file.access, ACC_INTERFACE) then Ok(InterfaceMeta(n))
                else if ExtendsInterface(file, super) then Err(ClassCast(InterfaceCastMessage))
                else Ok(ClassMeta(n, if super.Some? then Some(super.value.name) else None));
    var c := ClassInfo(n, file, |st.classes|, sealedFields, placed.offsets, sealedSlots, vtable.1, meta);
    var st2 := st.(classes := st.classes[n := c], staticFields := placed.statics);
    BuiltClassPublishable(loader, st, n, file, super, fields, placed, c);
    PublishKeepsWf(loader, st, st2, n, c, super);
    Ok((st2, c))
  }

  /** A class whose fields were placed from its superclass's allocator
      and whose instance allocator was then sealed has the layout
      `FieldsLaid` describes. */
  lemma PlacedFieldsLaid(parent: Option<FieldAllocator.Allocator>, fields: FieldAllocator.Allocator,
                         statics: FieldAllocator.Allocator, members: seq<Member>, placed: Placement,
                         sealedEnd: FieldAllocator.Allocator)
    requires InstanceStart(parent) == Ok(fields)
    requires PlaceFields(fields, statics, members) == Ok(placed)
    requires FieldAllocator.Seal(placed.instance) == Ok(sealedEnd)
    ensures FieldsLaid(parent, members, placed.offsets, sealedEnd)
  {
    PlacementSplits(fields, statics, members);
  }

  /** The class `Build` assembles from a successful placement and slot
      allocation can be published next to `st`'s classes. */
  lemma BuiltClassPublishable(loader: Loader, st: State, n: string, file: ClassFile, super: Option<ClassInfo>,
                              fields: FieldAllocator.Allocator, placed: Placement, c: ClassInfo)
    requires Wf(loader, st) && n !in st.classes && n in loader.files && file == loader.files[n]
    requires NameUtil.Normalize(n) == n
    requires super.Some? <==> file.superName.Some?
    requires super.Some? ==> && NameUtil.Normalize(file.superName.value) in st.classes
                             && st.classes[NameUtil.Normalize(file.superName.value)] == super.value
    requires InstanceStart(ParentFields(super)) == Ok(fields)
    requires PlaceFields(fields, st.staticFields, file.fields) == Ok(placed)
    requires c.name == n && c.file == file && c.ordinal == |st.classes|
    requires FieldAllocator.Seal(placed.instance) == Ok(c.fieldAllocator) && c.fieldOffsets == placed.offsets
    requires c.vtableAllocator.sealed && |c.vtableSlots| == |file.methods|
    requires forall i | 0 <= i < |file.methods| :: c.vtableSlots[i].Some? <==> GetsSlot(file.methods[i])
    requires c.metadata == if HasFlag(file.access, ACC_INTERFACE) then InterfaceMeta(n)
                           else ClassMeta(n, if super.Some? then Some(super.value.name) else None)
    ensures Publishable(loader, st.classes, n, c, super)
  {
    PlacedFieldsLaid(ParentFields(super), fields, st.staticFields, file.fields, placed, c.fieldAllocator);
    if file.superName.Some? {
      assert ClassWf(loader, st.classes, NameUtil.Normalize(file.superName.value));
    }
  }

  /** What publishing `c` under the name `n` next to `classes` needs: a
      fresh normalized name with a loaded file, the next ordinal, sealed
      layouts of the right lengths, and the superclass (if any) published
      with a layout this one continues. */
  predicate Publishable(loader: Loader, classes: map<string, ClassInfo>, n: string, c: ClassInfo,
                        super: Option<ClassInfo>)
  {
    && n !in classes && c.ordinal == |classes|
    && c.name == n && NameUtil.Normalize(n) == n && n in loader.files && c.file == loader.files[n]
    && c.fieldAllocator.sealed && c.vtableAllocator.sealed
    && |c.fieldOffsets| == |c.file.fields| && |c.vtableSlots| == |c.file.methods|
    && (super.Some? <==> c.file.superName.Some?)
    && (c.file.superName.Some? ==>
          var s := NameUtil.Normalize(c.file.superName.value);
          s in classes && classes[s].ordinal < |classes|
          && classes[s].fieldAllocator.wordCount <= c.fieldAllocator.wordCount
          && classes[s] == super.value)
    && Laid(c, ParentFields(super))
  }

  lemma PublishKeepsWf(loader: Loader, st: State, st2: State, n: string, c: ClassInfo, super: Option<ClassInfo>)
    requires Wf(loader, st) && Publishable(loader, st.classes, n, c, super)
    requires st2.classes == st.classes[n := c]
    ensures Wf(loader, st2) && ClassesGrow(st, st2)
  {
    assert |st2.classes| == |st.classes| + 1 by {
      assert st2.classes.Keys == st.classes.Keys + {n};
    }
    forall k | k in st2.classes
      ensures ClassWf(loader, st2.classes, k)
    {
      PublishedClassWf(loader, st.classes, st2.classes, n, c, super, k);
    }
  }

  /** Each class of the table `PublishKeepsWf` builds is well formed: the
      old ones stay so, and the new one is. */
  lemma PublishedClassWf(loader: Loader, classes: map<string, ClassInfo>, classes2: map<string, ClassInfo>,
                         n: string, c: ClassInfo, super: Option<ClassInfo>, k: string)
    requires ClassesWf(loader, classes) && Publishable(loader, classes, n, c, super)
    requires classes2 == classes[n := c] && |classes2| == |classes| + 1 && k in classes2
    ensures ClassWf(loader, classes2, k)
  {
    if k != n {
      assert ClassWf(loader, classes, k);
      ClassWfKept(loader, classes, classes2, k);
    } else {
      NewClassWf(loader, classes, classes2, n, c, super);
    }
  }

  /** The class `PublishKeepsWf` adds is well formed in the new table. */
  lemma NewClassWf(loader: Loader, classes: map<string, ClassInfo>, classes2: map<string, ClassInfo>,
                   n: string, c: ClassInfo, super: Option<ClassInfo>)
    requires Publishable(loader, classes, n, c, super)
    requires classes2 == classes[n := c] && |classes2| == |classes| + 1
    ensures ClassWf(loader, classes2, n)
  {
    if c.file.superName.Some? {
      var s := NameUtil.Normalize(c.file.superName.value);
      assert classes2[s] == super.value;
    }
  }

  /** A well-formed class stays well formed in a larger table that keeps
      every entry of the old one. */
  lemma ClassWfKept(loader: Loader, classes: map<string, ClassInfo>, classes2: map<string, ClassInfo>, k: string)
    requires k in classes && ClassWf(loader, classes, k)
    requires forall j | j in classes :: j in classes2 && classes2[j] == classes[j]
    requires |classes| <= |classes2|
    ensures ClassWf(loader, classes2, k)
  {
    var c := classes[k];
    if c.file.superName.Some? {
      var s := NameUtil.Normalize(c.file.superName.value);
      assert classes2[s] == classes[s];
    }
  }

  /** What a successful resolution hands back: a class published under the
      name asked for, with sealed field and vtable layouts, a slot for
      exactly the non-static non-constructor methods, its metadata object,
      and its superclass published before it with a field layout this one
      continues (`Laid`). */
  lemma ResolvedClassIsComplete(loader: Loader, st: State, name: string)
    requires Wf(loader, st)
    requires ResolveClass(loader, st, name, {}).Ok?
    ensures var (st2, c) := ResolveClass(loader, st, name, {}).value;
      && c.name == NameUtil.Normalize(name) && c.name in loader.files && c.file == loader.files[c.name]
      && c.fieldAllocator.sealed && c.vtableAllocator.sealed
      && |c.fieldOffsets| == |c.file.fields| && |c.vtableSlots| == |c.file.methods|
      && (forall i | 0 <= i < |c.vtableSlots| :: c.vtableSlots[i].Some? <==> GetsSlot(c.file.methods[i]))
      && c.metadata == MetaOf(c.name, c.file)
      && (c.file.superName.None? ==> Laid(c, None))
      && (c.file.superName.Some? ==>
            var s := NameUtil.Normalize(c.file.superName.value);
            s in st2.classes && st2.classes[s].ordinal < c.ordinal
            && st2.classes[s].fieldAllocator.wordCount <= c.fieldAllocator.wordCount
            && Laid(c, Some(st2.classes[s].fieldAllocator)))
  {
    var (st2, c) := ResolveClass(loader, st, name, {}).value;
    assert ClassWf(loader, st2.classes, NameUtil.Normalize(name));
  }

  /** Resolving a name a second time returns the same class and changes
      nothing. */
  lemma ResolveIsMemoised(loader: Loader, st: State, name: string)
    requires Wf(loader, st) && ResolveClass(loader, st, name, {}).Ok?
    ensures var (st2, c) := ResolveClass(loader, st, name, {}).value;
            ResolveClass(loader, st2, name, {}) == Ok((st2, c))
  {
  }

  /** `resolveClass` on each name in turn. */
  function ResolveAll(loader: Loader, st: State, names: seq<string>): (r: Result<State>)
    requires Wf(loader, st)
    ensures r.Ok? ==> Wf(loader, r.value) && ResolutionStep(st, r.value)
    ensures r.Ok? ==> forall i | 0 <= i < |names| :: NameUtil.Normalize(names[i]) in r.value.classes
    decreases |names|
  {
    if |names| == 0 then Ok(st)
    else
      var p :- ResolveClass(loader, st, names[0], {});
      ResolveAll(loader, p.0, names[1..])
  }

  // ---------------------------------------------------------------------
  // Array metadata

  /** The element type named by an array class name: the rest after '['
      when that is an array again, the class between "L" and ";" for an
      object element, and nothing for anything else. */
  function ElementName(name: string): (r: Option<string>)
    requires IsArrayName(name)
    ensures r.Some? ==> |r.value| < |name|
  {
    var spec := name[1..];
    if |spec| > 0 && spec[0] == '[' then Some(spec)
    else if |spec| > 0 && spec[0] == 'L' && spec[|spec| - 1] == ';' && |spec| >= 2 then Some(spec[1..|spec| - 1])
    else None
  }

  /** Array names built the way the JVM writes them give back their
      element: "[" before an array name, "[L" + c + ";" for a class c. */
  lemma ElementNameRoundTrip(element: string)
    ensures IsArrayName(element) ==> ElementName("[" + element) == Some(element)
    ensures ElementName("[L" + element + ";") == Some(element)
  {
    var s := "[L" + element + ";";
    assert s[1..][1..|s[1..]| - 1] == element;
  }

  /** `resolveObjectMetadataContributor(name)`. */
  function ResolveMetadata(loader: Loader, st: State, name: string): (r: Result<(State, Metadata)>)
    requires Wf(loader, st)
    ensures name in st.metadata ==> r == Ok((st, st.metadata[name]))
    ensures name !in st.metadata && st.resolutionClosed ==> r == Err(IllegalState(ClosedMessage(name)))
    ensures name !in st.metadata && !st.resolutionClosed && IsArrayName(name) && ElementName(name).None? ==>
              r == Err(Runtime("invalid array class name: " + name))
    ensures r.Ok? ==> && Wf(loader, r.value.0) && ClassesGrow(st, r.value.0)
                      && r.value.0.compiled == st.compiled && r.value.0.resolutionClosed == st.resolutionClosed
                      && name in r.value.0.metadata && r.value.0.metadata[name] == r.value.1
                      && forall k | k in st.metadata :: k in r.value.0.metadata && r.value.0.metadata[k] == st.metadata[k]
    ensures r.Ok? && name !in st.metadata && IsArrayName(name) ==>
              && ElementName(name).Some? && ElementName(name).value in r.value.0.metadata
              && r.value.1 == ObjectArrayMeta(name, r.value.0.metadata[ElementName(name).value])
    ensures r.Ok? && name !in st.metadata && !IsArrayName(name) ==>
              && NameUtil.Normalize(name) in r.value.0.classes
              && r.value.1 == r.value.0.classes[NameUtil.Normalize(name)].metadata
    decreases |name|
  {
    if name in st.metadata then Ok((st, st.metadata[name]))
    else if st.resolutionClosed then Err(IllegalState(ClosedMessage(name)))
    else if IsArrayName(name) then
      match ElementName(name)
      case None => Err(Runtime("invalid array class name: " + name))
      case Some(element) =>
        var p :- ResolveMetadata(loader, st, element);
        var meta := ObjectArrayMeta(name, p.1);
        Ok((p.0.(metadata := p.0.metadata[name := meta]), meta))
    else
      var p :- ResolveClass(loader, st, name, {});
      assert NameUtil.Normalize(name) in p.0.classes;
      Ok((p.0.(metadata := p.0.metadata[name := p.1.metadata]), p.1.metadata))
  }

  // ---------------------------------------------------------------------
  // Compiling

  /** A resolution the translation of a method asks the driver for, in the
      order it asks: `resolveClass(name)` (NEW, and a field's owner and its
      superclasses) or `resolveObjectMetadata(name)` (NEWARRAY, ANEWARRAY). */
  datatype Request = ClassRequest(name: string) | MetadataRequest(name: string)

  /** What translating one method yields: its lines, and the resolutions it
      asked for on the way. */
  datatype Translation = Translation(lines: seq<Line>, requests: seq<Request>)

  /** The driver's answers to a translation's requests, in order: classes
      are only added, metadata objects only added, and every name asked for
      is resolved afterwards. */
  function ResolveRequests(loader: Loader, st: State, reqs: seq<Request>): (r: Result<State>)
    requires Wf(loader, st)
    ensures r.Ok? ==> && Wf(loader, r.value) && TranslationStep(st, r.value)
    ensures r.Ok? ==> forall i | 0 <= i < |reqs| ::
              if reqs[i].ClassRequest? then NameUtil.Normalize(reqs[i].name) in r.value.classes
              else reqs[i].name in r.value.metadata
    decreases |reqs|
  {
    if |reqs| == 0 then Ok(st)
    else
      var st1 :- match reqs[0]
                 case ClassRequest(name) => var p :- ResolveClass(loader, st, name, {}); Ok(p.0)
                 case MetadataRequest(name) => var p :- ResolveMetadata(loader, st, name); Ok(p.0);
      var r :- ResolveRequests(loader, st1, reqs[1..]);
      assert forall i | 1 <= i < |reqs| :: reqs[i] == reqs[1..][i - 1];
      Ok(r)
  }

  /** What translating leaves unchanged: classes and metadata objects are
      only added, and the compiled set and the closed flag stay. */
  predicate TranslationStep(st: State, st2: State) {
    && ClassesGrow(st, st2) && MetadataGrows(st, st2)
    && st2.compiled == st.compiled && st2.resolutionClosed == st.resolutionClosed
  }

  /** The code of one compiled class. */
  datatype Compiled = Compiled(name: string, code: seq<Line>)

  /** The text `compileClass` prints for a class. */
  function ClassText(c: Compiled): (r: seq<string>)
    ensures |r| == |c.code| + 5 && r[1] == "// class " + NameUtil.Denormalize(c.name)
  {
    ["//", "// class " + NameUtil.Denormalize(c.name), "//", ""] + RenderAll(c.code) + [""]
  }

  function Names(out: seq<Compiled>): set<string> {
    set i | 0 <= i < |out| :: out[i].name
  }

  predicate Distinct(out: seq<Compiled>) {
    forall i, j | 0 <= i < j < |out| :: out[i].name != out[j].name
  }

  /** `out` compiles each class at most once, none of those compiled
      `before`, and `after` is the compiled set it leaves. */
  predicate CompiledOnce(before: set<string>, out: seq<Compiled>, after: set<string>) {
    && Distinct(out)
    && (forall i | 0 <= i < |out| :: out[i].name !in before)
    && after == before + Names(out)
  }

  lemma CompiledOnceAppend(a: set<string>, o1: seq<Compiled>, b: set<string>, o2: seq<Compiled>, c: set<string>)
    requires CompiledOnce(a, o1, b) && CompiledOnce(b, o2, c)
    ensures CompiledOnce(a, o1 + o2, c)
  {
    var o := o1 + o2;
    forall i, j | 0 <= i < j < |o|
      ensures o[i].name != o[j].name
    {
      if j >= |o1| && i < |o1| {
        assert o[i].name in Names(o1);
        assert o2[j - |o1|].name !in b;
      }
    }
    assert Names(o) == Names(o1) + Names(o2) by {
      forall x | x in Names(o1) ensures x in Names(o) {
        var i :| 0 <= i < |o1| && o1[i].name == x;
        assert o[i] == o1[i];
      }
      forall x | x in Names(o2) ensures x in Names(o) {
        var i :| 0 <= i < |o2| && o2[i].name == x;
        assert o[|o1| + i] == o2[i];
      }
    }
    forall i | 0 <= i < |o| ensures o[i].name !in a {
      if i >= |o1| {
        assert o2[i - |o1|].name !in b;
      }
    }
  }

  /** Translating a class's methods in order, resolving what each
      translation asked for. */
  function TranslateMethods(loader: Loader, translate: (ClassInfo, Member) -> Result<Translation>,
                            st: State, c: ClassInfo, methods: seq<Member>): (r: Result<(State, seq<Line>)>)
    requires Wf(loader, st)
    ensures r.Ok? ==> Wf(loader, r.value.0) && TranslationStep(st, r.value.0)
    decreases |methods|
  {
    if |methods| == 0 then Ok((st, []))
    else
      var t :- translate(c, methods[0]);
      var st1 :- ResolveRequests(loader, st, t.requests);
      var rest :- TranslateMethods(loader, translate, st1, c, methods[1..]);
      Ok((rest.0, t.lines + rest.1))
  }

  function CompileErrorMessage(name: string): string {
    "error compiling class " + name
  }

  /** What compiling class `n` from `st` promises when it succeeds with
      state `st2` and output `out`: the state stays well formed with every
      compiled class resolved, no class is compiled twice, `n` is compiled,
      and when it was not compiled before, its code comes last and its
      superclass's code (if that was not compiled before either) comes
      earlier. */
  predicate Compiles(loader: Loader, st: State, n: string, st2: State, out: seq<Compiled>) {
    && Wf(loader, st2) && st2.compiled <= st2.classes.Keys
    && ClassesGrow(st, st2) && st2.resolutionClosed == st.resolutionClosed && MetadataGrows(st, st2)
    && CompiledOnce(st.compiled, out, st2.compiled)
    && n in st2.compiled
    && (n !in st.compiled ==>
          && |out| > 0 && out[|out| - 1].name == n && n in st2.classes
          && (st2.classes[n].file.superName.Some? &&
              NameUtil.Normalize(st2.classes[n].file.superName.value) !in st.compiled ==>
                exists i | 0 <= i < |out| - 1 :: out[i].name == NameUtil.Normalize(st2.classes[n].file.superName.value)))
  }

  /** `compileClass(name)`: nothing for a class compiled already; otherwise
      mark it, resolve it, compile its superclass, then its own methods.
      Any exception on the way is wrapped with the class's name; the
      `StackOverflowError` of a cyclic superclass chain is an `Error`, which
      the `catch (Exception e)` does not catch, so it passes unwrapped. */
  function CompileClass(loader: Loader, translate: (ClassInfo, Member) -> Result<Translation>,
                        st: State, name: string): (r: Result<(State, seq<Compiled>)>)
    requires Wf(loader, st) && st.compiled <= st.classes.Keys
    ensures NameUtil.Normalize(name) in st.compiled ==> r == Ok((st, []))
    ensures r.Err? ==> r.error.StackOverflow? || (r.error.Wrapped? && r.error.message == CompileErrorMessage(NameUtil.Normalize(name)))
    ensures r.Ok? ==> Compiles(loader, st, NameUtil.Normalize(name), r.value.0, r.value.1)
    decreases loader.files.Keys - st.compiled, 2
  {
    var n := NameUtil.Normalize(name);
    if n in st.compiled then
      assert Names([]) == {};
      Ok((st, []))
    else
      var marked := st.(compiled := st.compiled + {n});
      NameUtil.NormalizeIdempotent(name);
      var res := CompileMarked(loader, translate, st, marked, n);
      if res.Err? && !res.error.StackOverflow? then Err(Wrapped(CompileErrorMessage(n), res.error)) else res
  }

  /** The body of `compileClass`'s try block, once `name` is marked. */
  function CompileMarked(loader: Loader, translate: (ClassInfo, Member) -> Result<Translation>,
                         st: State, marked: State, n: string): (r: Result<(State, seq<Compiled>)>)
    requires Wf(loader, st) && st.compiled <= st.classes.Keys
    requires n !in st.compiled && marked == st.(compiled := st.compiled + {n}) && NameUtil.Normalize(n) == n
    ensures r.Ok? ==> Compiles(loader, st, n, r.value.0, r.value.1)
    decreases loader.files.Keys - st.compiled, 1
  {
    var p :- ResolveClass(loader, marked, n, {});
    var (st1, c) := p;
    var q :- CompileSuper(loader, translate, st, st1, c, n);
    var t :- TranslateMethods(loader, translate, q.0, c, c.file.methods);
    CompiledLast(st.compiled, q.1, q.0.compiled, n);
    Ok((t.0, q.1 + [Compiled(n, t.1)]))
  }

  /** The "compile dependencies" step of `compileClass`. */
  function CompileSuper(loader: Loader, translate: (ClassInfo, Member) -> Result<Translation>,
                        st: State, st1: State, c: ClassInfo, n: string): (r: Result<(State, seq<Compiled>)>)
    requires Wf(loader, st) && st.compiled <= st.classes.Keys && n !in st.compiled
    requires Wf(loader, st1) && st1.compiled == st.compiled + {n} && ClassesGrow(st, st1)
    requires st1.resolutionClosed == st.resolutionClosed && st1.metadata == st.metadata
    requires n in st1.classes && st1.classes[n] == c
    ensures r.Ok? ==> && Wf(loader, r.value.0) && r.value.0.compiled <= r.value.0.classes.Keys
                      && ClassesGrow(st1, r.value.0) && r.value.0.resolutionClosed == st.resolutionClosed
                      && MetadataGrows(st1, r.value.0)
                      && CompiledOnce(st.compiled + {n}, r.value.1, r.value.0.compiled)
    ensures r.Ok? && c.file.superName.Some? && NameUtil.Normalize(c.file.superName.value) !in st.compiled ==>
              exists i | 0 <= i < |r.value.1| :: r.value.1[i].name == NameUtil.Normalize(c.file.superName.value)
    decreases loader.files.Keys - st.compiled, 0
  {
    assert ClassWf(loader, st1.classes, n);
    assert loader.files.Keys - st1.compiled < loader.files.Keys - st.compiled;
    if c.file.superName.None? then Ok((st1, []))
    else
      var s := NameUtil.Normalize(c.file.superName.value);
      assert s != n;
      var q :- CompileClass(loader, translate, st1, c.file.superName.value);
      assert s !in st.compiled ==> q.1[|q.1| - 1].name == s;
      Ok(q)
  }

  lemma CompiledLast(before: set<string>, o: seq<Compiled>, mid: set<string>, n: string)
    requires CompiledOnce(before + {n}, o, mid) && n !in before
    ensures forall code :: CompiledOnce(before, o + [Compiled(n, code)], mid)
  {
    forall code ensures CompiledOnce(before, o + [Compiled(n, code)], mid) {
      var o2 := o + [Compiled(n, code)];
      assert Names(o2) == Names(o) + {n} by {
        forall x | x in Names(o) ensures x in Names(o2) {
          var i :| 0 <= i < |o| && o[i].name == x;
          assert o2[i] == o[i];
        }
        assert o2[|o|].name == n;
      }
    }
  }

  /** `compileAllResolvedClasses()`: rounds that compile every resolved
      class not compiled yet, in whatever order the set yields them, until
      a round finds none. Classes resolved while compiling are picked up by
      the next round. */
  method CompileAllResolved(loader: Loader, translate: (ClassInfo, Member) -> Result<Translation>, st: State)
    returns (r: Result<(State, seq<Compiled>)>)
    requires Wf(loader, st) && st.compiled <= st.classes.Keys
    ensures r.Ok? ==> && Wf(loader, r.value.0) && r.value.0.compiled == r.value.0.classes.Keys
                      && ClassesGrow(st, r.value.0) && r.value.0.resolutionClosed == st.resolutionClosed
                      && MetadataGrows(st, r.value.0)
                      && CompiledOnce(st.compiled, r.value.1, r.value.0.compiled)
    ensures r.Err? ==> r.error.Wrapped? || r.error.StackOverflow?
  {
    var cur := st;
    var out: seq<Compiled> := [];
    assert Names(out) == {};
    while true
      invariant Wf(loader, cur) && cur.compiled <= cur.classes.Keys
      invariant ClassesGrow(st, cur) && cur.resolutionClosed == st.resolutionClosed && MetadataGrows(st, cur)
      invariant CompiledOnce(st.compiled, out, cur.compiled)
      decreases loader.files.Keys - cur.compiled
    {
      var batch := cur.classes.Keys - cur.compiled;
      if batch == {} {
        return Ok((cur, out));
      }
      var before := cur.compiled;
      var y :| y in batch;
      assert ClassWf(loader, cur.classes, y);
      var todo := batch;
      while todo != {}
        invariant Wf(loader, cur) && cur.compiled <= cur.classes.Keys
        invariant ClassesGrow(st, cur) && cur.resolutionClosed == st.resolutionClosed && MetadataGrows(st, cur)
        invariant CompiledOnce(st.compiled, out, cur.compiled)
        invariant todo <= batch && batch <= cur.classes.Keys
        invariant before <= cur.compiled && batch - todo <= cur.compiled
        decreases todo
      {
        var x :| x in todo;
        todo := todo - {x};
        assert ClassWf(loader, cur.classes, x);
        var res := CompileClass(loader, translate, cur, x);
        if res.Err? {
          return Err(res.error);
        }
        CompiledOnceAppend(st.compiled, out, cur.compiled, res.value.1, res.value.0.compiled);
        cur, out := res.value.0, out + res.value.1;
      }
      CompiledInFiles(loader, cur);
      assert y in loader.files.Keys - before && y !in loader.files.Keys - cur.compiled;
    }
  }

  lemma CompiledInFiles(loader: Loader, st: State)
    requires Wf(loader, st) && st.compiled <= st.classes.Keys
    ensures st.compiled <= loader.files.Keys
  {
    forall k | k in st.compiled ensures k in loader.files {
      assert ClassWf(loader, st.classes, k);
    }
  }

  /** The primitive array types, whose metadata `compile()` builds before
      anything is compiled. */
  const PrimitiveArrayNames: seq<string> := ["[Z", "[B", "[S", "[C", "[I", "[F", "[J", "[D"]

  function AddPrimitiveArrays(st: State): (r: State)
    ensures r.classes == st.classes && r.compiled == st.compiled && r.resolutionClosed == st.resolutionClosed
    ensures forall k | k in PrimitiveArrayNames :: k in r.metadata && r.metadata[k] == PrimitiveArrayMeta(k)
    ensures forall k | k !in PrimitiveArrayNames :: k in r.metadata <==> k in st.metadata
  {
    st.(metadata := st.metadata + map name | name in PrimitiveArrayNames :: PrimitiveArrayMeta(name))
  }

  /** `getArrayHeaderSize()`: the words of an Object, then the length word. */
  function ArrayHeaderSize(objectClass: ClassInfo): int {
    (objectClass.fieldAllocator.wordCount + 1) * 4
  }

  /** The text `emitStaticFields()` prints for a static area of `words`
      words. */
  function StaticFieldsText(words: int): (r: seq<string>)
    ensures |r| == 8 && r[6] == "\t.fill " + IntToString(words) + ", 4, 0"
  {
    ["//", "// static fields", "//", "", ".data", "staticFields:", "\t.fill " + IntToString(words) + ", 4, 0", ""]
  }

  /** The compiled program: the final state, each class's code in the
      order printed, and the number of static field words. */
  datatype Program = Program(state: State, classes: seq<Compiled>, staticWords: int)

  /** The start of `compile()`: resolve Object and String, build the
      primitive array metadata, then the metadata of Object[]. */
  function Bootstrap(loader: Loader): (r: Result<State>)
    ensures r.Ok? ==> var st := r.value;
      && Wf(loader, st) && st.compiled == {} && !st.resolutionClosed
      && NameUtil.Normalize("java.lang.Object") in st.classes
      && NameUtil.Normalize("java.lang.String") in st.classes
      && (forall k | k in PrimitiveArrayNames :: k in st.metadata && st.metadata[k] == PrimitiveArrayMeta(k))
      && "[Ljava.lang.Object;" in st.metadata && st.metadata["[Ljava.lang.Object;"].ObjectArrayMeta?
  {
    var s :- BootstrapClasses(loader);
    BootstrapArrays(loader, s)
  }

  /** Resolving Object, then String, from the empty state. */
  function BootstrapClasses(loader: Loader): (r: Result<State>)
    ensures r.Ok? ==> var st := r.value;
      && Wf(loader, st) && st.compiled == {} && !st.resolutionClosed && st.metadata == map[]
      && NameUtil.Normalize("java.lang.Object") in st.classes
      && NameUtil.Normalize("java.lang.String") in st.classes
  {
    var st := State(map[], FieldAllocator.New(), map[], {}, false);
    var o :- ResolveClass(loader, st, "java.lang.Object", {});
    var s :- ResolveClass(loader, o.0, "java.lang.String", {});
    assert NameUtil.Normalize("java.lang.Object") in s.0.classes;
    Ok(s.0)
  }

  /** The primitive array metadata, then that of Object[], on top of a
      state with no metadata yet. */
  function BootstrapArrays(loader: Loader, s: State): (r: Result<State>)
    requires Wf(loader, s) && s.metadata == map[]
    ensures r.Ok? ==> var st := r.value;
      && Wf(loader, st) && st.compiled == s.compiled && st.resolutionClosed == s.resolutionClosed
      && ClassesGrow(s, st)
      && (forall k | k in PrimitiveArrayNames :: k in st.metadata && st.metadata[k] == PrimitiveArrayMeta(k))
      && "[Ljava.lang.Object;" in st.metadata && st.metadata["[Ljava.lang.Object;"].ObjectArrayMeta?
  {
    var arrays := AddPrimitiveArrays(s);
    assert "[Ljava.lang.Object;" !in PrimitiveArrayNames by {
      assert forall k | k in PrimitiveArrayNames :: |k| == 2;
    }
    assert Wf(loader, arrays) by { assert arrays.classes == s.classes; }
    var a :- ResolveMetadata(loader, arrays, "[Ljava.lang.Object;");
    Ok(a.0)
  }

  /** The main class's compilation followed by the rest's covers every
      resolved class once, Object, String and the main class among them,
      and keeps the bootstrap's array metadata. */
  lemma ProgramCovers(loader: Loader, a: State, main: string, st1: State, out1: seq<Compiled>,
                      st2: State, out2: seq<Compiled>)
    requires a.compiled == {}
    requires NameUtil.Normalize("java.lang.Object") in a.classes && NameUtil.Normalize("java.lang.String") in a.classes
    requires forall k | k in PrimitiveArrayNames :: k in a.metadata
    requires Compiles(loader, a, main, st1, out1)
    requires st2.compiled == st2.classes.Keys && ClassesGrow(st1, st2) && MetadataGrows(st1, st2)
    requires CompiledOnce(st1.compiled, out2, st2.compiled)
    ensures Distinct(out1 + out2) && Names(out1 + out2) == st2.classes.Keys
    ensures NameUtil.Normalize("java.lang.Object") in Names(out1 + out2)
    ensures NameUtil.Normalize("java.lang.String") in Names(out1 + out2)
    ensures main in Names(out1 + out2)
    ensures forall k | k in PrimitiveArrayNames :: k in st2.metadata
  {
    CompiledOnceAppend({}, out1, st1.compiled, out2, st2.compiled);
  }

  /** `compile()` up to the static fields: the bootstrap, then the main
      class and every class resolved, then close resolution and seal the
      static area. */
  method Compile(loader: Loader, translate: (ClassInfo, Member) -> Result<Translation>, mainClassName: string)
    returns (r: Result<Program>)
    ensures r.Ok? ==>
      var p := r.value;
      && p.state.resolutionClosed && p.state.staticFields.sealed
      && p.staticWords == p.state.staticFields.wordCount
      && Distinct(p.classes) && Names(p.classes) == p.state.classes.Keys
      && NameUtil.Normalize("java.lang.Object") in Names(p.classes)
      && NameUtil.Normalize("java.lang.String") in Names(p.classes)
      && NameUtil.Normalize(mainClassName) in Names(p.classes)
      && forall k | k in PrimitiveArrayNames :: k in p.state.metadata
  {
    var a :- Bootstrap(loader);
    var m :- CompileClass(loader, translate, a, mainClassName);
    var all :- CompileAllResolved(loader, translate, m.0);
    ProgramCovers(loader, a, NameUtil.Normalize(mainClassName), m.0, m.1, all.0, all.1);
    var statics :- FieldAllocator.Seal(all.0.staticFields);
    var closed := all.0.(resolutionClosed := true, staticFields := statics);
    return Ok(Program(closed, m.1 + all.1, statics.wordCount));
  }
}
