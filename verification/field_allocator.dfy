/** The field-layout allocator of the cross compiler (`FieldAllocator`).

    A bump allocator that counts words and remembers at most one pending
    halfword hole and one pending byte hole (-1 meaning "none"). The code
    mixes units: `allocateWord` hands out the word index `wordCount`, while a
    split word leaves its halfword hole at `offset + 2` and a split halfword
    its byte hole at `offset + 1`. The model keeps that arithmetic exactly. */
module FieldAllocator {
  import opened Wrappers

  datatype Allocator = Allocator(wordCount: int, halfwordOffset: int, byteOffset: int, sealed: bool)

  /** An allocation: the allocator afterwards and the offset handed out. */
  datatype Allocated = Allocated(allocator: Allocator, offset: int)

  const SealedMessage := "this allocator has been sealed"
  const UnsealedParentMessage := "cannot use an unsealed field allocator as parent"

  /** `new FieldAllocator()`: the layout root. */
  function New(): (a: Allocator)
    ensures a.wordCount == 0 && a.halfwordOffset < 0 && a.byteOffset < 0 && !a.sealed
  {
    Allocator(0, -1, -1, false)
  }

  /** `new FieldAllocator(parent)`: a child continues where a sealed parent
      stopped; an unsealed parent is refused. */
  function FromParent(parent: Allocator): (r: Result<Allocator>)
    ensures r.Err? <==> !parent.sealed
    ensures r.Err? ==> r.error == IllegalArgument(UnsealedParentMessage)
    ensures r.Ok? ==> && r.value.wordCount == parent.wordCount
                      && r.value.halfwordOffset == parent.halfwordOffset
                      && r.value.byteOffset == parent.byteOffset
                      && !r.value.sealed
  {
    if !parent.sealed then Err(IllegalArgument(UnsealedParentMessage))
    else Ok(parent.(sealed := false))
  }

  function CheckNotSealed(a: Allocator): Result<()>
  {
    if a.sealed then Err(IllegalState(SealedMessage)) else Ok(())
  }

  /** `allocateWord()`: hands out the current word count and bumps it by one. */
  function AllocateWord(a: Allocator): (r: Result<Allocated>)
    ensures r.Err? <==> a.sealed
    ensures r.Err? ==> r.error == IllegalState(SealedMessage)
    ensures r.Ok? ==> r.value.offset == a.wordCount
                      && r.value.allocator == a.(wordCount := a.wordCount + 1)
  {
    var _ :- CheckNotSealed(a);
    Ok(Allocated(a.(wordCount := a.wordCount + 1), a.wordCount))
  }

  /** `allocateDoubleword()`: like a word, but bumps the count by two; the
      pending holes are never used for it. */
  function AllocateDoubleword(a: Allocator): (r: Result<Allocated>)
    ensures r.Err? <==> a.sealed
    ensures r.Err? ==> r.error == IllegalState(SealedMessage)
    ensures r.Ok? ==> r.value.offset == a.wordCount
                      && r.value.allocator == a.(wordCount := a.wordCount + 2)
  {
    var _ :- CheckNotSealed(a);
    Ok(Allocated(a.(wordCount := a.wordCount + 2), a.wordCount))
  }

  /** `allocateHalfword()`: reuses the pending halfword hole, or splits a
      fresh word `w`, returning `w` and leaving the hole `w + 2`. */
  function AllocateHalfword(a: Allocator): (r: Result<Allocated>)
    ensures r.Err? <==> a.sealed
    ensures r.Err? ==> r.error == IllegalState(SealedMessage)
    ensures r.Ok? && a.halfwordOffset >= 0 ==>
              r.value.offset == a.halfwordOffset && r.value.allocator == a.(halfwordOffset := -1)
    ensures r.Ok? && a.halfwordOffset < 0 ==>
              && r.value.offset == a.wordCount
              && r.value.allocator == a.(wordCount := a.wordCount + 1, halfwordOffset := a.wordCount + 2)
  {
    if a.sealed then Err(IllegalState(SealedMessage))
    else if a.halfwordOffset < 0 then
      var w := AllocateWord(a).value;
      Ok(Allocated(w.allocator.(halfwordOffset := w.offset + 2), w.offset))
    else
      Ok(Allocated(a.(halfwordOffset := -1), a.halfwordOffset))
  }

  /** `allocateByte()`: reuses the pending byte hole, or splits a halfword
      `h` obtained from `allocateHalfword`, returning `h` and leaving the byte
      hole `h + 1`. */
  function AllocateByte(a: Allocator): (r: Result<Allocated>)
    ensures r.Err? <==> a.sealed
    ensures r.Err? ==> r.error == IllegalState(SealedMessage)
    ensures r.Ok? && a.byteOffset >= 0 ==>
              r.value.offset == a.byteOffset && r.value.allocator == a.(byteOffset := -1)
    ensures r.Ok? && a.byteOffset < 0 ==>
              var h := AllocateHalfword(a).value;
              r.value.offset == h.offset && r.value.allocator == h.allocator.(byteOffset := h.offset + 1)
  {
    if a.sealed then Err(IllegalState(SealedMessage))
    else if a.byteOffset < 0 then
      var h := AllocateHalfword(a).value;
      Ok(Allocated(h.allocator.(byteOffset := h.offset + 1), h.offset))
    else
      Ok(Allocated(a.(byteOffset := -1), a.byteOffset))
  }

  /** `seal()`: only the sealed flag changes; sealing twice is refused. */
  function Seal(a: Allocator): (r: Result<Allocator>)
    ensures r.Err? <==> a.sealed
    ensures r.Err? ==> r.error == IllegalState(SealedMessage)
    ensures r.Ok? ==> r.value.sealed
                      && r.value.wordCount == a.wordCount
                      && r.value.halfwordOffset == a.halfwordOffset
                      && r.value.byteOffset == a.byteOffset
  {
    var _ :- CheckNotSealed(a);
    Ok(a.(sealed := true))
  }

  /** The calls a client can make on an allocator. */
  datatype Op = Byte | Halfword | Word | Doubleword | SealOp

  /** One call; `seal` hands out no offset, so -1 stands in for it. */
  function Apply(a: Allocator, op: Op): Result<Allocated>
  {
    match op
    case Byte => AllocateByte(a)
    case Halfword => AllocateHalfword(a)
    case Word => AllocateWord(a)
    case Doubleword => AllocateDoubleword(a)
    case SealOp => var s :- Seal(a); Ok(Allocated(s, -1))
  }

  /** A sequence of calls, collecting the offsets handed out. */
  datatype Run = Run(allocator: Allocator, offsets: seq<int>)

  function ApplyAll(a: Allocator, ops: seq<Op>): Result<Run>
    decreases |ops|
  {
    if |ops| == 0 then Ok(Run(a, []))
    else
      var first :- Apply(a, ops[0]);
      var rest :- ApplyAll(first.allocator, ops[1..]);
      Ok(Run(rest.allocator, [first.offset] + rest.offsets))
  }

  /** A single call never lowers the word count. */
  lemma ApplyKeepsWordCount(a: Allocator, op: Op)
    requires Apply(a, op).Ok?
    ensures Apply(a, op).value.allocator.wordCount >= a.wordCount
  {
  }

  /** No sequence of calls ever lowers the word count. */
  lemma {:induction false} WordCountNeverDecreases(a: Allocator, ops: seq<Op>)
    requires ApplyAll(a, ops).Ok?
    ensures ApplyAll(a, ops).value.allocator.wordCount >= a.wordCount
    decreases |ops|
  {
    if |ops| > 0 {
      var first := Apply(a, ops[0]).value;
      ApplyKeepsWordCount(a, ops[0]);
      WordCountNeverDecreases(first.allocator, ops[1..]);
    }
  }

  /** Once sealed, every call fails, so the layout is frozen. */
  lemma {:induction false} SealedRejectsEveryCall(a: Allocator, ops: seq<Op>)
    requires a.sealed && |ops| > 0
    ensures ApplyAll(a, ops) == Err(IllegalState(SealedMessage))
  {
  }

  /** One step of `ApplyAll`: the first call, then the rest. */
  lemma ApplyAllCons(a: Allocator, ops: seq<Op>, first: Allocated, run: Run, offsets: seq<int>)
    requires |ops| > 0 && Apply(a, ops[0]) == Ok(first)
    requires ApplyAll(first.allocator, ops[1..]) == Ok(run)
    requires offsets == [first.offset] + run.offsets
    ensures ApplyAll(a, ops) == Ok(Run(run.allocator, offsets))
  {
  }

  /** On a fresh allocator, byte, byte, halfword yield 0, 1, 2 and use one
      word: the second byte fills the byte hole, the halfword the halfword
      hole. */
  lemma FreshBytesThenHalfword()
    ensures ApplyAll(New(), [Byte, Byte, Halfword]) == Ok(Run(Allocator(1, -1, -1, false), [0, 1, 2]))
  {
    var a1 := Allocator(1, 2, 1, false);
    var a2 := Allocator(1, 2, -1, false);
    var a3 := Allocator(1, -1, -1, false);
    ApplyAllCons(a2, [Halfword], Allocated(a3, 2), Run(a3, []), [2]);
    ApplyAllCons(a1, [Byte, Halfword], Allocated(a2, 1), Run(a3, [2]), [1, 2]);
    ApplyAllCons(New(), [Byte, Byte, Halfword], Allocated(a1, 0), Run(a3, [1, 2]), [0, 1, 2]);
  }

  /** As written, a byte followed by a word yields 0 then 1 (a word index,
      not the byte offset 4), with the byte hole 1 still pending. */
  lemma FreshByteThenWord()
    ensures ApplyAll(New(), [Byte, Word]) == Ok(Run(Allocator(2, 2, 1, false), [0, 1]))
  {
    var a1 := Allocator(1, 2, 1, false);
    var a2 := Allocator(2, 2, 1, false);
    ApplyAllCons(a1, [Word], Allocated(a2, 1), Run(a2, []), [1]);
    ApplyAllCons(New(), [Byte, Word], Allocated(a1, 0), Run(a2, [1]), [0, 1]);
  }

  /** Because word indices and hole offsets share one number line, a hole
      can coincide with a word handed out later: halfword, word, word,
      halfword yields 0, 1, 2, 2. */
  lemma HoleMeetsLaterWord()
    ensures ApplyAll(New(), [Halfword, Word, Word, Halfword]) == Ok(Run(Allocator(3, -1, -1, false), [0, 1, 2, 2]))
  {
    var a1 := Allocator(1, 2, -1, false);
    var a2 := Allocator(2, 2, -1, false);
    var a3 := Allocator(3, 2, -1, false);
    var a4 := Allocator(3, -1, -1, false);
    ApplyAllCons(a3, [Halfword], Allocated(a4, 2), Run(a4, []), [2]);
    ApplyAllCons(a2, [Word, Halfword], Allocated(a3, 2), Run(a4, [2]), [2, 2]);
    ApplyAllCons(a1, [Word, Word, Halfword], Allocated(a2, 1), Run(a4, [2, 2]), [1, 2, 2]);
    ApplyAllCons(New(), [Halfword, Word, Word, Halfword], Allocated(a1, 0), Run(a4, [1, 2, 2]), [0, 1, 2, 2]);
  }

  /** A child of a sealed parent with word count W hands out W for its first
      word field. */
  lemma ChildContinuesAfterParent(parent: Allocator)
    requires parent.sealed
    ensures var c := FromParent(parent).value;
            AllocateWord(c).Ok? && AllocateWord(c).value.offset == parent.wordCount
  {
  }
}
