/** The vtable-slot allocator of the compiler (`VtableAllocator`).

    As it stands in the code it is only the seal discipline: every slot
    request answers 0, and nothing but the `sealed` flag is state. */
module VtableAllocator {
  import opened Wrappers

  datatype VtableAllocator = VtableAllocator(sealed: bool)

  datatype Slot = Slot(allocator: VtableAllocator, index: int)

  const SealedMessage := "this allocator has been sealed"
  const UnsealedParentMessage := "cannot use an unsealed vtable allocator as parent"

  /** `new VtableAllocator()`. */
  function New(): (a: VtableAllocator)
    ensures !a.sealed
  {
    VtableAllocator(false)
  }

  /** `new VtableAllocator(parent)`: refused for an unsealed parent. */
  function FromParent(parent: VtableAllocator): (r: Result<VtableAllocator>)
    ensures r.Err? <==> !parent.sealed
    ensures r.Err? ==> r.error == IllegalArgument(UnsealedParentMessage)
    ensures r.Ok? ==> !r.value.sealed
  {
    if !parent.sealed then Err(IllegalArgument(UnsealedParentMessage)) else Ok(VtableAllocator(false))
  }

  /** `allocateMethod()`: slot 0, state untouched, refused once sealed. */
  function AllocateMethod(a: VtableAllocator): (r: Result<Slot>)
    ensures r.Err? <==> a.sealed
    ensures r.Err? ==> r.error == IllegalState(SealedMessage)
    ensures r.Ok? ==> r.value == Slot(a, 0)
  {
    if a.sealed then Err(IllegalState(SealedMessage)) else Ok(Slot(a, 0))
  }

  /** `seal()`: refused when already sealed. */
  function Seal(a: VtableAllocator): (r: Result<VtableAllocator>)
    ensures r.Err? <==> a.sealed
    ensures r.Err? ==> r.error == IllegalState(SealedMessage)
    ensures r.Ok? ==> r.value.sealed
  {
    if a.sealed then Err(IllegalState(SealedMessage)) else Ok(VtableAllocator(true))
  }

  datatype Op = Allocate | SealOp

  /** A run of calls, collecting the slots handed out. */
  function ApplyAll(a: VtableAllocator, ops: seq<Op>): Result<(VtableAllocator, seq<int>)>
    decreases |ops|
  {
    if |ops| == 0 then Ok((a, []))
    else if ops[0] == SealOp then
      var s :- Seal(a);
      ApplyAll(s, ops[1..])
    else
      var slot :- AllocateMethod(a);
      var rest :- ApplyAll(slot.allocator, ops[1..]);
      Ok((rest.0, [slot.index] + rest.1))
  }

  /** From an unsealed allocator, a run succeeds exactly when `seal` is at
      most its last call, and then every slot handed out is 0. */
  lemma {:induction false} RunSucceedsIffSealIsLast(a: VtableAllocator, ops: seq<Op>)
    requires !a.sealed
    ensures ApplyAll(a, ops).Ok? <==> (forall i :: 0 <= i < |ops| - 1 ==> ops[i] != SealOp)
    ensures ApplyAll(a, ops).Ok? ==> forall i :: 0 <= i < |ApplyAll(a, ops).value.1| ==> ApplyAll(a, ops).value.1[i] == 0
    decreases |ops|
  {
    if |ops| > 0 {
      if ops[0] == SealOp {
        if |ops| > 1 {
          SealedRunFails(VtableAllocator(true), ops[1..]);
          assert ops[1..][0] == ops[1];
        }
      } else {
        RunSucceedsIffSealIsLast(a, ops[1..]);
        if ApplyAll(a, ops).Ok? {
          var rest := ApplyAll(a, ops[1..]).value;
          assert ApplyAll(a, ops).value.1 == [0] + rest.1;
        }
        assert forall i :: 1 <= i < |ops| ==> ops[i] == ops[1..][i - 1];
      }
    }
  }

  /** A sealed allocator refuses every non-empty run. */
  lemma SealedRunFails(a: VtableAllocator, ops: seq<Op>)
    requires a.sealed && |ops| > 0
    ensures ApplyAll(a, ops) == Err(IllegalState(SealedMessage))
  {
  }
}
