/** The stack-shuffling templates of the compiler's translator run on the
    register-and-memory machine of module `Asm`, against the operand stack
    rules of section 6.5 of The Java Virtual Machine Specification (`dup`,
    `dup_x1`, `dup_x2`, `dup2_x1`, `dup2_x2`, `swap`).

    Stacks are written top first: `Stack(m, n)` is the n words from `sp`
    upwards. */
module StackShuffles {
  import opened Wrappers
  import opened Text
  import opened Asm
  import opened CodeTranslator

  // ---------------------------------------------------------------------
  // The operand stack rules, top first

  function JvmDup(s: seq<int>): seq<int>
    requires |s| >= 1
  {
    [s[0]] + s
  }

  function JvmDupX1(s: seq<int>): seq<int>
    requires |s| >= 2
  {
    [s[0], s[1], s[0]] + s[2..]
  }

  function JvmDupX2(s: seq<int>): seq<int>
    requires |s| >= 3
  {
    [s[0], s[1], s[2], s[0]] + s[3..]
  }

  function JvmDup2X1(s: seq<int>): seq<int>
    requires |s| >= 3
  {
    [s[0], s[1], s[2], s[0], s[1]] + s[3..]
  }

  function JvmDup2X2(s: seq<int>): seq<int>
    requires |s| >= 4
  {
    [s[0], s[1], s[2], s[3], s[0], s[1]] + s[4..]
  }

  function JvmSwap(s: seq<int>): seq<int>
    requires |s| >= 2
  {
    [s[1], s[0]] + s[2..]
  }

  // ---------------------------------------------------------------------
  // From memory facts to stacks

  /** A machine whose top words are `top`, followed by the words of `m`'s
      stack from word `keep` on, holds that stack. */
  lemma StackFrom(m: Machine, f: Machine, d: nat, top: seq<int>, keep: nat)
    requires keep <= d
    requires RegValue(f, "sp") == RegValue(m, "sp") + 4 * keep - 4 * |top|
    requires forall i | 0 <= i < |top| :: Load(f, RegValue(f, "sp") + 4 * i) == top[i]
    requires forall i | keep <= i < d :: Load(f, RegValue(m, "sp") + 4 * i) == Load(m, RegValue(m, "sp") + 4 * i)
    ensures Stack(f, |top| + d - keep) == top + Stack(m, d)[keep..]
  {
    var t := Stack(f, |top| + d - keep);
    var want := top + Stack(m, d)[keep..];
    forall i | 0 <= i < |t|
      ensures t[i] == want[i]
    {
      if i >= |top| {
        var j := i - |top| + keep;
        assert RegValue(f, "sp") + 4 * i == RegValue(m, "sp") + 4 * j;
      }
    }
  }

  // ---------------------------------------------------------------------
  // Shuffle templates in general: loads, one stack move, stores

  /** Temporary register `t<t>` and a byte offset from sp. */
  datatype Slot = Slot(t: nat, offset: int)

  /** The name of temporary register t. */
  function TReg(t: nat): string {
    "t" + NatToString(t)
  }

  /** The temporaries the templates use. */
  lemma TRegNames()
    ensures TReg(0) == "t0" && TReg(1) == "t1" && TReg(2) == "t2" && TReg(3) == "t3"
  {
    assert TReg(0) == "t" + [DigitChar(0)];
    assert TReg(1) == "t" + [DigitChar(1)];
    assert TReg(2) == "t" + [DigitChar(2)];
    assert TReg(3) == "t" + [DigitChar(3)];
  }

  function RegOf(s: Slot): string {
    TReg(s.t)
  }

  /** A temporary register is neither sp nor x0, and temporaries with
      different numbers have different names. */
  lemma TRegDistinct(t: nat, u: nat)
    ensures TReg(t) != "sp" && TReg(t) != "x0"
    ensures TReg(t) == TReg(u) <==> t == u
  {
    assert TReg(t)[0] == 't';
    if TReg(t) == TReg(u) {
      PrefixedNumberInjective("t", t, u);
    }
  }

  function LoadLine(s: Slot): Line {
    Insn("lw", [Reg(RegOf(s)), Mem(s.offset, "sp")])
  }

  function StoreLine(s: Slot): Line {
    Insn("sw", [Reg(RegOf(s)), Mem(s.offset, "sp")])
  }

  /** `lw` for every slot from slot i on, in order. */
  function LoadLines(ld: seq<Slot>, i: nat): (r: seq<Line>)
    decreases |ld| - i
  {
    if i >= |ld| then [] else [LoadLine(ld[i])] + LoadLines(ld, i + 1)
  }

  /** `sw` for every slot from slot i on, in order. */
  function StoreLines(st: seq<Slot>, i: nat): (r: seq<Line>)
    decreases |st| - i
  {
    if i >= |st| then [] else [StoreLine(st[i])] + StoreLines(st, i + 1)
  }

  /** `addi sp, sp, delta`, or nothing when sp stays. */
  function MoveLines(delta: int): seq<Line> {
    if delta == 0 then [] else [Insn("addi", [SP, SP, Imm(delta)])]
  }

  /** Load the words named by `ld`, move sp by `delta` bytes, store the
      registers named by `st`. */
  function ShuffleLines(ld: seq<Slot>, delta: int, st: seq<Slot>): seq<Line> {
    LoadLines(ld, 0) + MoveLines(delta) + StoreLines(st, 0)
  }

  /** No slot names sp. */
  lemma NoSpSlot(ss: seq<Slot>)
    ensures LastWithReg(ss, "sp") == -1
  {
    var j := LastWithReg(ss, "sp");
    if j >= 0 {
      TRegDistinct(ss[j].t, 0);
    }
  }

  /** The last slot naming register r, or -1. */
  function LastWithReg(ss: seq<Slot>, r: string): (j: int)
    ensures -1 <= j < |ss|
    ensures j >= 0 ==> RegOf(ss[j]) == r && forall k | j < k < |ss| :: RegOf(ss[k]) != r
    ensures j == -1 ==> forall k | 0 <= k < |ss| :: RegOf(ss[k]) != r
  {
    LastWithRegFrom(ss, r, 0, -1)
  }

  /** The last slot from slot i on naming register r, or `found` if there
      is none. */
  function LastWithRegFrom(ss: seq<Slot>, r: string, i: nat, found: int): (j: int)
    requires -1 <= found < i || (found == -1 && i == 0)
    ensures j == found || i <= j < |ss|
    ensures j >= i ==> RegOf(ss[j]) == r && forall k | j < k < |ss| :: RegOf(ss[k]) != r
    ensures j == found ==> forall k | i <= k < |ss| :: RegOf(ss[k]) != r
    decreases |ss| - i
  {
    if i >= |ss| then found
    else LastWithRegFrom(ss, r, i + 1, if RegOf(ss[i]) == r then i else found)
  }

  /** The last slot naming temporary t, or -1. */
  function LastWithT(ss: seq<Slot>, t: nat): (j: int)
    ensures -1 <= j < |ss|
    ensures j >= 0 ==> ss[j].t == t && forall k | j < k < |ss| :: ss[k].t != t
    ensures j == -1 ==> forall k | 0 <= k < |ss| :: ss[k].t != t
  {
    LastWithTFrom(ss, t, 0, -1)
  }

  function LastWithTFrom(ss: seq<Slot>, t: nat, i: nat, found: int): (j: int)
    requires -1 <= found < i || (found == -1 && i == 0)
    ensures j == found || i <= j < |ss|
    ensures j >= i ==> ss[j].t == t && forall k | j < k < |ss| :: ss[k].t != t
    ensures j == found ==> forall k | i <= k < |ss| :: ss[k].t != t
    decreases |ss| - i
  {
    if i >= |ss| then found
    else LastWithTFrom(ss, t, i + 1, if ss[i].t == t then i else found)
  }

  /** Looking a temporary up by name is looking it up by number. */
  lemma LastWithRegT(ss: seq<Slot>, t: nat)
    ensures LastWithReg(ss, TReg(t)) == LastWithT(ss, t)
  {
    forall k | 0 <= k < |ss|
      ensures RegOf(ss[k]) == TReg(t) <==> ss[k].t == t
    {
      TRegDistinct(ss[k].t, t);
    }
  }

  /** The last slot at byte offset o, or -1. */
  function LastWithOffset(ss: seq<Slot>, o: int): (j: int)
    ensures -1 <= j < |ss|
    ensures j >= 0 ==> ss[j].offset == o && forall k | j < k < |ss| :: ss[k].offset != o
    ensures j == -1 ==> forall k | 0 <= k < |ss| :: ss[k].offset != o
  {
    LastWithOffsetFrom(ss, o, 0, -1)
  }

  /** The last slot from slot i on at byte offset o, or `found` if there
      is none. */
  function LastWithOffsetFrom(ss: seq<Slot>, o: int, i: nat, found: int): (j: int)
    requires -1 <= found < i || (found == -1 && i == 0)
    ensures j == found || i <= j < |ss|
    ensures j >= i ==> ss[j].offset == o && forall k | j < k < |ss| :: ss[k].offset != o
    ensures j == found ==> forall k | i <= k < |ss| :: ss[k].offset != o
    decreases |ss| - i
  {
    if i >= |ss| then found
    else LastWithOffsetFrom(ss, o, i + 1, if ss[i].offset == o then i else found)
  }

  /** The loads from slot i on fill their registers and change nothing
      else: a register holds the word of the last slot naming it, if that
      slot is among them. */
  lemma {:induction false} RunLoadLines(m: Machine, ld: seq<Slot>, i: nat)
    requires i <= |ld|
    ensures Run(m, LoadLines(ld, i)).Some?
    ensures var f := Run(m, LoadLines(ld, i)).value;
      && (forall a :: Load(f, a) == Load(m, a))
      && (forall r :: RegValue(f, r) == LoadedFrom(m, ld, i, r))
    decreases |ld| - i
  {
    if i < |ld| {
      var s := ld[i];
      var g := SetReg(m, RegOf(s), Load(m, RegValue(m, "sp") + s.offset));
      ExecLw(m, RegOf(s), s.offset, "sp");
      RunCons(m, LoadLines(ld, i), g);
      RunLoadLines(g, ld, i + 1);
      LoadStep(m, g, Run(m, LoadLines(ld, i)).value, ld, i);
    }
  }

  /** Register r after the loads from slot i on: the word of the last
      slot naming it, if that slot is among them. */
  function LoadedFrom(m: Machine, ld: seq<Slot>, i: nat, r: string): int {
    var j := LastWithReg(ld, r);
    if j >= i then Load(m, RegValue(m, "sp") + ld[j].offset) else RegValue(m, r)
  }

  /** The registers after one load and then the loads after it. */
  lemma LoadStep(m: Machine, g: Machine, f: Machine, ld: seq<Slot>, i: nat)
    requires i < |ld| && g == SetReg(m, RegOf(ld[i]), Load(m, RegValue(m, "sp") + ld[i].offset))
    requires forall r :: RegValue(f, r) == LoadedFrom(g, ld, i + 1, r)
    ensures forall r :: RegValue(f, r) == LoadedFrom(m, ld, i, r)
  {
    TRegDistinct(ld[i].t, 0);
    assert RegValue(g, "sp") == RegValue(m, "sp");
    forall r ensures RegValue(f, r) == LoadedFrom(m, ld, i, r) {
      var j := LastWithReg(ld, r);
      if j == i {
        assert r == RegOf(ld[i]);
      } else if j < i {
        assert r != RegOf(ld[i]);
      }
    }
  }

  /** The stores from slot i on fill their words and change no register:
      a word holds the register of the last slot at its offset, if that
      slot is among them. */
  lemma {:induction false} RunStoreLines(m: Machine, st: seq<Slot>, i: nat)
    requires i <= |st|
    ensures Run(m, StoreLines(st, i)).Some?
    ensures var f := Run(m, StoreLines(st, i)).value;
      && (forall r :: RegValue(f, r) == RegValue(m, r))
      && (forall a :: Load(f, a) == StoredFrom(m, st, i, a))
    decreases |st| - i
  {
    if i < |st| {
      var s := st[i];
      var g := Store(m, RegValue(m, "sp") + s.offset, RegValue(m, RegOf(s)));
      ExecSw(m, RegOf(s), s.offset, "sp");
      RunCons(m, StoreLines(st, i), g);
      RunStoreLines(g, st, i + 1);
      StoreStep(m, g, Run(m, StoreLines(st, i)).value, st, i);
    }
  }

  /** Word a after the stores from slot i on: the register of the last
      slot at its offset, if that slot is among them. */
  function StoredFrom(m: Machine, st: seq<Slot>, i: nat, a: int): int {
    var j := LastWithOffset(st, a - RegValue(m, "sp"));
    if j >= i then RegValue(m, RegOf(st[j])) else Load(m, a)
  }

  /** The memory after one store and then the stores after it. */
  lemma StoreStep(m: Machine, g: Machine, f: Machine, st: seq<Slot>, i: nat)
    requires i < |st| && g == Store(m, RegValue(m, "sp") + st[i].offset, RegValue(m, RegOf(st[i])))
    requires forall a :: Load(f, a) == StoredFrom(g, st, i + 1, a)
    ensures forall a :: Load(f, a) == StoredFrom(m, st, i, a)
  {
    forall a ensures Load(f, a) == StoredFrom(m, st, i, a) {
      StoreStepAt(m, g, st, i, a);
    }
  }

  /** One word after one store and then the stores after it. */
  lemma StoreStepAt(m: Machine, g: Machine, st: seq<Slot>, i: nat, a: int)
    requires i < |st| && g == Store(m, RegValue(m, "sp") + st[i].offset, RegValue(m, RegOf(st[i])))
    ensures StoredFrom(g, st, i + 1, a) == StoredFrom(m, st, i, a)
  {
    assert g.regs == m.regs;
    var j := LastWithOffset(st, a - RegValue(m, "sp"));
    if j < i {
      assert a != RegValue(m, "sp") + st[i].offset;
    }
  }

  /** Where the word stored at byte offset o (from the new sp) came from,
      as a byte offset from the old sp, if it came from a load. */
  function Source(ld: seq<Slot>, st: seq<Slot>, o: int): Option<int> {
    var j := LastWithOffset(st, o);
    if j < 0 then None
    else
      var k := LastWithT(ld, st[j].t);
      if k < 0 then None else Some(ld[k].offset)
  }

  /** Every word of the new top `|top|` words is a copy of the old word
      `top[i]`. */
  predicate Pictured(ld: seq<Slot>, st: seq<Slot>, top: seq<nat>) {
    PicturedFrom(ld, st, top, 0)
  }

  predicate PicturedFrom(ld: seq<Slot>, st: seq<Slot>, top: seq<nat>, i: nat)
    decreases |top| - i
  {
    i >= |top| || (Source(ld, st, 4 * i) == Some(4 * top[i]) && PicturedFrom(ld, st, top, i + 1))
  }

  lemma {:induction false} PicturedFromAt(ld: seq<Slot>, st: seq<Slot>, top: seq<nat>, k: nat, i: nat)
    requires PicturedFrom(ld, st, top, k) && k <= i < |top|
    ensures Source(ld, st, 4 * i) == Some(4 * top[i])
    decreases i - k
  {
    if k < i {
      PicturedFromAt(ld, st, top, k + 1, i);
    }
  }

  lemma PicturedAt(ld: seq<Slot>, st: seq<Slot>, top: seq<nat>, i: nat)
    requires Pictured(ld, st, top) && i < |top|
    ensures Source(ld, st, 4 * i) == Some(4 * top[i])
  {
    PicturedFromAt(ld, st, top, 0, i);
  }

  /** The stores only write within the new top n words. */
  predicate StoresWithin(st: seq<Slot>, n: nat) {
    StoresWithinFrom(st, n, 0)
  }

  predicate StoresWithinFrom(st: seq<Slot>, n: nat, i: nat)
    decreases |st| - i
  {
    i >= |st| || (0 <= st[i].offset < 4 * n && StoresWithinFrom(st, n, i + 1))
  }

  lemma {:induction false} StoresWithinFromAt(st: seq<Slot>, n: nat, k: nat, j: nat)
    requires StoresWithinFrom(st, n, k) && k <= j < |st|
    ensures 0 <= st[j].offset < 4 * n
    decreases j - k
  {
    if k < j {
      StoresWithinFromAt(st, n, k + 1, j);
    }
  }

  lemma StoresWithinAt(st: seq<Slot>, n: nat, j: nat)
    requires StoresWithin(st, n) && j < |st|
    ensures 0 <= st[j].offset < 4 * n
  {
    StoresWithinFromAt(st, n, 0, j);
  }

  /** The words of s at the positions `top`. */
  function Pick(s: seq<int>, top: seq<nat>): (r: seq<int>)
    requires forall i | 0 <= i < |top| :: top[i] < |s|
    ensures |r| == |top|
  {
    seq(|top|, i requires 0 <= i < |top| => s[top[i]])
  }

  /** The loads, then the stack move: registers as the loads left them,
      sp moved by `delta`, memory untouched. */
  lemma RunLoadsAndMove(m: Machine, ld: seq<Slot>, delta: int)
    ensures Run(m, LoadLines(ld, 0) + MoveLines(delta)).Some?
    ensures var n := Run(m, LoadLines(ld, 0) + MoveLines(delta)).value;
      && RegValue(n, "sp") == RegValue(m, "sp") + delta
      && (forall a :: Load(n, a) == Load(m, a))
      && (forall r | r != "sp" :: RegValue(n, r) == LoadedFrom(m, ld, 0, r))
  {
    RunLoadLines(m, ld, 0);
    var l := Run(m, LoadLines(ld, 0)).value;
    assert RegValue(l, "sp") == RegValue(m, "sp") by {
      NoSpSlot(ld);
    }
    RunAppend(m, LoadLines(ld, 0), MoveLines(delta));
    RunMove(l, delta);
  }

  /** The stack move changes sp only. */
  lemma RunMove(m: Machine, delta: int)
    ensures Run(m, MoveLines(delta)).Some?
    ensures var n := Run(m, MoveLines(delta)).value;
      && RegValue(n, "sp") == RegValue(m, "sp") + delta
      && (forall a :: Load(n, a) == Load(m, a))
      && (forall r | r != "sp" :: RegValue(n, r) == RegValue(m, r))
  {
    if delta != 0 {
      var move := Insn("addi", [SP, SP, Imm(delta)]);
      ExecAdd(m, "addi", "sp", "sp", delta);
      RunCons(m, [move], SetReg(m, "sp", RegValue(m, "sp") + delta));
      assert [move][1..] == [];
    }
  }

  /** Running a shuffle template: sp moves by `delta`, and each word the
      stores write holds the word its register was loaded from. */
  lemma RunShuffle(m: Machine, ld: seq<Slot>, delta: int, st: seq<Slot>)
    ensures Run(m, ShuffleLines(ld, delta, st)).Some?
    ensures var f := Run(m, ShuffleLines(ld, delta, st)).value; var q := RegValue(m, "sp") + delta;
      && RegValue(f, "sp") == q
      && forall a :: Load(f, a) == (var j := LastWithOffset(st, a - q);
                                    if j < 0 then Load(m, a) else LoadedFrom(m, ld, 0, RegOf(st[j])))
  {
    var front := LoadLines(ld, 0) + MoveLines(delta);
    RunLoadsAndMove(m, ld, delta);
    var n := Run(m, front).value;
    RunStoreLines(n, st, 0);
    RunAppend(m, front, StoreLines(st, 0));
    var f := Run(n, StoreLines(st, 0)).value;
    assert Run(m, ShuffleLines(ld, delta, st)) == Some(f);
    ShuffleWords(m, n, ld, delta, st);
  }

  /** The words after the stores, in terms of the machine before the loads. */
  lemma ShuffleWords(m: Machine, n: Machine, ld: seq<Slot>, delta: int, st: seq<Slot>)
    requires RegValue(n, "sp") == RegValue(m, "sp") + delta
    requires forall a :: Load(n, a) == Load(m, a)
    requires forall r | r != "sp" :: RegValue(n, r) == LoadedFrom(m, ld, 0, r)
    ensures forall a :: StoredFrom(n, st, 0, a) == (var j := LastWithOffset(st, a - (RegValue(m, "sp") + delta));
                                                    if j < 0 then Load(m, a) else LoadedFrom(m, ld, 0, RegOf(st[j])))
  {
    forall a ensures StoredFrom(n, st, 0, a) == (var j := LastWithOffset(st, a - (RegValue(m, "sp") + delta));
                                                 if j < 0 then Load(m, a) else LoadedFrom(m, ld, 0, RegOf(st[j])))
    {
      ShuffleWord(m, n, ld, delta, st, a);
    }
  }

  /** One word after the stores, in terms of the machine before the loads. */
  lemma ShuffleWord(m: Machine, n: Machine, ld: seq<Slot>, delta: int, st: seq<Slot>, a: int)
    requires RegValue(n, "sp") == RegValue(m, "sp") + delta
    requires forall a :: Load(n, a) == Load(m, a)
    requires forall r | r != "sp" :: RegValue(n, r) == LoadedFrom(m, ld, 0, r)
    ensures StoredFrom(n, st, 0, a) == (var j := LastWithOffset(st, a - (RegValue(m, "sp") + delta));
                                        if j < 0 then Load(m, a) else LoadedFrom(m, ld, 0, RegOf(st[j])))
  {
    var j := LastWithOffset(st, a - RegValue(n, "sp"));
    if j >= 0 {
      assert RegValue(n, RegOf(st[j])) == LoadedFrom(m, ld, 0, RegOf(st[j]));
    }
  }

  /** Word i of a pictured shuffle's result is the old word `top[i]`. */
  lemma PicturedWord(m: Machine, ld: seq<Slot>, delta: int, st: seq<Slot>, top: seq<nat>, i: nat)
    requires Pictured(ld, st, top) && i < |top|
    ensures Run(m, ShuffleLines(ld, delta, st)).Some?
    ensures var f := Run(m, ShuffleLines(ld, delta, st)).value; var p := RegValue(m, "sp");
      Load(f, RegValue(f, "sp") + 4 * i) == Load(m, p + 4 * top[i])
  {
    var p := RegValue(m, "sp");
    RunShuffle(m, ld, delta, st);
    var f := Run(m, ShuffleLines(ld, delta, st)).value;
    PicturedAt(ld, st, top, i);
    var a := RegValue(f, "sp") + 4 * i;
    assert a - (p + delta) == 4 * i;
    var j := LastWithOffset(st, 4 * i);
    LastWithRegT(ld, st[j].t);
    assert Load(f, a) == LoadedFrom(m, ld, 0, RegOf(st[j]));
  }

  /** The words below those a shuffle writes keep their values. */
  lemma KeptWord(m: Machine, ld: seq<Slot>, delta: int, st: seq<Slot>, n: nat, i: int)
    requires StoresWithin(st, n)
    requires 4 * i - delta >= 4 * n
    ensures Run(m, ShuffleLines(ld, delta, st)).Some?
    ensures var f := Run(m, ShuffleLines(ld, delta, st)).value; var p := RegValue(m, "sp");
      Load(f, p + 4 * i) == Load(m, p + 4 * i)
  {
    var p := RegValue(m, "sp");
    RunShuffle(m, ld, delta, st);
    var o := p + 4 * i - (p + delta);
    var j := LastWithOffset(st, o);
    if j >= 0 {
      StoresWithinAt(st, n, j);
      assert false;
    }
  }

  lemma PicturedWords(m: Machine, ld: seq<Slot>, delta: int, st: seq<Slot>, top: seq<nat>)
    requires Pictured(ld, st, top)
    ensures Run(m, ShuffleLines(ld, delta, st)).Some?
    ensures var f := Run(m, ShuffleLines(ld, delta, st)).value; var p := RegValue(m, "sp");
      && RegValue(f, "sp") == p + delta
      && forall i | 0 <= i < |top| :: Load(f, p + delta + 4 * i) == Load(m, p + 4 * top[i])
  {
    RunShuffle(m, ld, delta, st);
    forall i | 0 <= i < |top|
      ensures Load(Run(m, ShuffleLines(ld, delta, st)).value, RegValue(m, "sp") + delta + 4 * i)
              == Load(m, RegValue(m, "sp") + 4 * top[i])
    {
      PicturedWord(m, ld, delta, st, top, i);
    }
  }

  lemma KeptWords(m: Machine, ld: seq<Slot>, delta: int, st: seq<Slot>, n: nat, keep: int)
    requires StoresWithin(st, n)
    requires 4 * keep - delta >= 4 * n
    ensures Run(m, ShuffleLines(ld, delta, st)).Some?
    ensures var f := Run(m, ShuffleLines(ld, delta, st)).value; var p := RegValue(m, "sp");
      forall i | keep <= i :: Load(f, p + 4 * i) == Load(m, p + 4 * i)
  {
    RunShuffle(m, ld, delta, st);
    forall i | keep <= i
      ensures Load(Run(m, ShuffleLines(ld, delta, st)).value, RegValue(m, "sp") + 4 * i)
              == Load(m, RegValue(m, "sp") + 4 * i)
    {
      KeptWord(m, ld, delta, st, n, i);
    }
  }

  /** A stack read off a machine whose top words are picked from another
      machine's stack, the rest kept from word `keep` on. */
  lemma PickedStack(m: Machine, f: Machine, d: nat, top: seq<nat>, keep: nat)
    requires keep <= d && forall i | 0 <= i < |top| :: top[i] < d
    requires RegValue(f, "sp") == RegValue(m, "sp") + 4 * keep - 4 * |top|
    requires forall i | 0 <= i < |top| :: Load(f, RegValue(f, "sp") + 4 * i) == Load(m, RegValue(m, "sp") + 4 * top[i])
    requires forall i | keep <= i :: Load(f, RegValue(m, "sp") + 4 * i) == Load(m, RegValue(m, "sp") + 4 * i)
    ensures Stack(f, |top| + d - keep) == Pick(Stack(m, d), top) + Stack(m, d)[keep..]
  {
    var s := Stack(m, d);
    var picked := Pick(s, top);
    forall i | 0 <= i < |top|
      ensures Load(f, RegValue(f, "sp") + 4 * i) == picked[i]
    {
    }
    StackFrom(m, f, d, picked, keep);
  }

  /** A shuffle template whose stores picture `top` and then keep the
      stack from word `keep` on: the new stack is the picked words on top
      of the old stack with its `keep` top words removed. */
  lemma ShuffleStack(m: Machine, ld: seq<Slot>, delta: int, st: seq<Slot>, top: seq<nat>, keep: nat, d: nat)
    requires Pictured(ld, st, top) && StoresWithin(st, |top|)
    requires keep <= d && forall i | 0 <= i < |top| :: top[i] < d
    requires delta == 4 * keep - 4 * |top|
    ensures Run(m, ShuffleLines(ld, delta, st)).Some?
    ensures Stack(Run(m, ShuffleLines(ld, delta, st)).value, |top| + d - keep)
            == Pick(Stack(m, d), top) + Stack(m, d)[keep..]
  {
    PicturedWords(m, ld, delta, st, top);
    KeptWords(m, ld, delta, st, |top|, keep);
    PickedStack(m, Run(m, ShuffleLines(ld, delta, st)).value, d, top, keep);
  }

  // ---------------------------------------------------------------------
  // The templates

  /** Stores that write only the new top `|top|` words, and the picture
      those words form: checked slot by slot. */
  predicate ShuffleSlots(ld: seq<Slot>, st: seq<Slot>, top: seq<nat>) {
    Pictured(ld, st, top) && StoresWithin(st, |top|)
  }

  /** A shuffle template run on a stack of d words, of which it consumes
      `keep`, leaves the picked words on top of the rest. */
  lemma RunTemplate(m: Machine, lines: seq<Line>, ld: seq<Slot>, delta: int, st: seq<Slot>, top: seq<nat>, keep: nat, d: nat)
    requires lines == ShuffleLines(ld, delta, st) && ShuffleSlots(ld, st, top)
    requires keep <= d && forall i | 0 <= i < |top| :: top[i] < d
    requires delta == 4 * keep - 4 * |top|
    ensures Run(m, lines).Some?
    ensures Stack(Run(m, lines).value, |top| + d - keep) == Pick(Stack(m, d), top) + Stack(m, d)[keep..]
  {
    ShuffleStack(m, ld, delta, st, top, keep, d);
  }

  // dup

  function DupLoads(): seq<Slot> {
    [Slot(0, 0)]
  }

  function DupStores(): seq<Slot> {
    [Slot(0, 0)]
  }

  lemma DupForm()
    ensures DupLines == ShuffleLines(DupLoads(), -4, DupStores())
  {
    TRegNames();
  }

  lemma DupPictured()
    ensures Pictured(DupLoads(), DupStores(), [0])
  {
  }

  lemma DupSlots()
    ensures ShuffleSlots(DupLoads(), DupStores(), [0])
  {
    DupPictured();
  }

  /** DUP pushes a copy of the top word. */
  lemma DupMatchesJvm(m: Machine, d: nat)
    requires d >= 1
    ensures Run(m, DupLines).Some?
    ensures Stack(Run(m, DupLines).value, d + 1) == JvmDup(Stack(m, d))
  {
    DupForm();
    DupSlots();
    RunTemplate(m, DupLines, DupLoads(), -4, DupStores(), [0], 0, d);
    var s := Stack(m, d);
    assert Pick(s, [0]) + s[0..] == JvmDup(s);
  }

  // dup_x1

  function DupX1Loads(): seq<Slot> {
    [Slot(0, 0), Slot(1, 4)]
  }

  function DupX1Stores(): seq<Slot> {
    [Slot(0, 0), Slot(1, 4), Slot(0, 8)]
  }

  lemma DupX1Form()
    ensures DupX1Lines == ShuffleLines(DupX1Loads(), -4, DupX1Stores())
  {
    TRegNames();
  }

  lemma DupX1Pictured()
    ensures Pictured(DupX1Loads(), DupX1Stores(), [0, 1, 0])
  {
  }

  lemma DupX1Slots()
    ensures ShuffleSlots(DupX1Loads(), DupX1Stores(), [0, 1, 0])
  {
    DupX1Pictured();
  }

  lemma DupX1Picks(s: seq<int>)
    requires |s| >= 2
    ensures Pick(s, [0, 1, 0]) + s[2..] == JvmDupX1(s)
  {
  }

  /** DUP_X1 inserts a copy of the top word below the second. */
  lemma DupX1MatchesJvm(m: Machine, d: nat)
    requires d >= 2
    ensures Run(m, DupX1Lines).Some?
    ensures Stack(Run(m, DupX1Lines).value, d + 1) == JvmDupX1(Stack(m, d))
  {
    DupX1Form();
    DupX1Slots();
    RunTemplate(m, DupX1Lines, DupX1Loads(), -4, DupX1Stores(), [0, 1, 0], 2, d);
    DupX1Picks(Stack(m, d));
  }

  // dup_x2

  function DupX2Loads(): seq<Slot> {
    [Slot(0, 0), Slot(1, 4), Slot(2, 8)]
  }

  function DupX2Stores(): seq<Slot> {
    [Slot(0, 0), Slot(1, 4), Slot(2, 8), Slot(0, 12)]
  }

  lemma DupX2Form()
    ensures DupX2Lines == ShuffleLines(DupX2Loads(), -4, DupX2Stores())
  {
    TRegNames();
  }

  lemma DupX2Pictured()
    ensures Pictured(DupX2Loads(), DupX2Stores(), [0, 1, 2, 0])
  {
  }

  lemma DupX2Slots()
    ensures ShuffleSlots(DupX2Loads(), DupX2Stores(), [0, 1, 2, 0])
  {
    DupX2Pictured();
  }

  lemma DupX2Picks(s: seq<int>)
    requires |s| >= 3
    ensures Pick(s, [0, 1, 2, 0]) + s[3..] == JvmDupX2(s)
  {
  }

  /** DUP_X2 inserts a copy of the top word below the third. */
  lemma DupX2MatchesJvm(m: Machine, d: nat)
    requires d >= 3
    ensures Run(m, DupX2Lines).Some?
    ensures Stack(Run(m, DupX2Lines).value, d + 1) == JvmDupX2(Stack(m, d))
  {
    DupX2Form();
    DupX2Slots();
    RunTemplate(m, DupX2Lines, DupX2Loads(), -4, DupX2Stores(), [0, 1, 2, 0], 3, d);
    DupX2Picks(Stack(m, d));
  }

  function DupX2StoresAsWritten(): seq<Slot> {
    [Slot(0, 0), Slot(1, 4), Slot(2, 8), Slot(0, 0)]
  }

  lemma DupX2FormAsWritten()
    ensures DupX2LinesAsWritten == ShuffleLines(DupX2Loads(), -4, DupX2StoresAsWritten())
  {
    TRegNames();
  }

  lemma DupX2PicturedAsWritten()
    ensures Pictured(DupX2Loads(), DupX2StoresAsWritten(), [0, 1, 2])
  {
  }

  lemma DupX2SlotsAsWritten()
    ensures ShuffleSlots(DupX2Loads(), DupX2StoresAsWritten(), [0, 1, 2])
  {
    DupX2PicturedAsWritten();
  }

  /** DUP_X2 as printed leaves the third word where the copy of the top
      word belongs: the result is the operand stack rule's only when the
      top and third words are equal. */
  lemma DupX2AsWrittenDiffers(m: Machine, d: nat)
    requires d >= 3
    ensures Run(m, DupX2LinesAsWritten).Some?
    ensures var s := Stack(m, d); var t := Stack(Run(m, DupX2LinesAsWritten).value, d + 1);
      && t == [s[0], s[1], s[2], s[2]] + s[3..]
      && (t == JvmDupX2(s) <==> s[0] == s[2])
  {
    DupX2FormAsWritten();
    DupX2SlotsAsWritten();
    RunTemplate(m, DupX2LinesAsWritten, DupX2Loads(), -4, DupX2StoresAsWritten(), [0, 1, 2], 2, d);
    var s := Stack(m, d);
    assert Pick(s, [0, 1, 2]) + s[2..] == [s[0], s[1], s[2], s[2]] + s[3..];
    if [s[0], s[1], s[2], s[2]] + s[3..] == JvmDupX2(s) {
      assert ([s[0], s[1], s[2], s[2]] + s[3..])[3] == JvmDupX2(s)[3];
    }
  }

  // dup2_x1

  function Dup2X1Loads(): seq<Slot> {
    [Slot(0, 0), Slot(1, 4), Slot(2, 8)]
  }

  function Dup2X1Stores(): seq<Slot> {
    [Slot(0, 0), Slot(1, 4), Slot(2, 8), Slot(0, 12), Slot(1, 16)]
  }

  lemma Dup2X1Form()
    ensures Dup2X1Lines == ShuffleLines(Dup2X1Loads(), -8, Dup2X1Stores())
  {
    TRegNames();
  }

  lemma Dup2X1FormAsWritten()
    ensures Dup2X1LinesAsWritten == ShuffleLines(Dup2X1Loads(), -4, Dup2X1Stores())
  {
    TRegNames();
  }

  lemma Dup2X1Pictured()
    ensures Pictured(Dup2X1Loads(), Dup2X1Stores(), [0, 1, 2, 0, 1])
  {
  }

  lemma Dup2X1Slots()
    ensures ShuffleSlots(Dup2X1Loads(), Dup2X1Stores(), [0, 1, 2, 0, 1])
  {
    Dup2X1Pictured();
  }

  lemma Dup2X1Picks(s: seq<int>)
    requires |s| >= 3
    ensures Pick(s, [0, 1, 2, 0, 1]) + s[3..] == JvmDup2X1(s)
  {
  }

  /** DUP2_X1 inserts a copy of the two top words below the third. */
  lemma Dup2X1MatchesJvm(m: Machine, d: nat)
    requires d >= 3
    ensures Run(m, Dup2X1Lines).Some?
    ensures Stack(Run(m, Dup2X1Lines).value, d + 2) == JvmDup2X1(Stack(m, d))
  {
    Dup2X1Form();
    Dup2X1Slots();
    RunTemplate(m, Dup2X1Lines, Dup2X1Loads(), -8, Dup2X1Stores(), [0, 1, 2, 0, 1], 3, d);
    Dup2X1Picks(Stack(m, d));
  }

  /** DUP2_X1 as printed grows the stack by one word where the operand
      stack rule grows it by two: the five new top words are right, but
      the fourth old word is overwritten, so the result is the rule's
      stack without its sixth word. */
  lemma Dup2X1AsWrittenDiffers(m: Machine, d: nat)
    requires d >= 4
    ensures Run(m, Dup2X1LinesAsWritten).Some?
    ensures var s := Stack(m, d); var j := JvmDup2X1(s);
      Stack(Run(m, Dup2X1LinesAsWritten).value, d + 1) == j[..5] + j[6..]
  {
    Dup2X1FormAsWritten();
    Dup2X1Slots();
    RunTemplate(m, Dup2X1LinesAsWritten, Dup2X1Loads(), -4, Dup2X1Stores(), [0, 1, 2, 0, 1], 4, d);
    var s := Stack(m, d);
    var j := JvmDup2X1(s);
    assert Pick(s, [0, 1, 2, 0, 1]) + s[4..] == j[..5] + j[6..];
  }

  // dup2_x2

  function Dup2X2Loads(): seq<Slot> {
    [Slot(0, 0), Slot(1, 4), Slot(2, 8), Slot(3, 12)]
  }

  function Dup2X2LoadsAsWritten(): seq<Slot> {
    [Slot(0, 0), Slot(1, 4), Slot(2, 8), Slot(3, 8)]
  }

  function Dup2X2Stores(): seq<Slot> {
    [Slot(0, 0), Slot(1, 4), Slot(2, 8), Slot(3, 12), Slot(0, 16), Slot(1, 20)]
  }

  lemma Dup2X2Form()
    ensures Dup2X2Lines == ShuffleLines(Dup2X2Loads(), -8, Dup2X2Stores())
  {
    TRegNames();
  }

  lemma Dup2X2FormAsWritten()
    ensures Dup2X2LinesAsWritten == ShuffleLines(Dup2X2LoadsAsWritten(), -8, Dup2X2Stores())
  {
    TRegNames();
  }

  lemma Dup2X2Pictured()
    ensures Pictured(Dup2X2Loads(), Dup2X2Stores(), [0, 1, 2, 3, 0, 1])
  {
  }

  lemma Dup2X2Slots()
    ensures ShuffleSlots(Dup2X2Loads(), Dup2X2Stores(), [0, 1, 2, 3, 0, 1])
  {
    Dup2X2Pictured();
  }

  lemma Dup2X2PicturedAsWritten()
    ensures Pictured(Dup2X2LoadsAsWritten(), Dup2X2Stores(), [0, 1, 2, 2, 0, 1])
  {
  }

  lemma Dup2X2SlotsAsWritten()
    ensures ShuffleSlots(Dup2X2LoadsAsWritten(), Dup2X2Stores(), [0, 1, 2, 2, 0, 1])
  {
    Dup2X2PicturedAsWritten();
  }

  lemma Dup2X2Picks(s: seq<int>)
    requires |s| >= 4
    ensures Pick(s, [0, 1, 2, 3, 0, 1]) + s[4..] == JvmDup2X2(s)
  {
  }

  /** DUP2_X2 inserts a copy of the two top words below the fourth. */
  lemma Dup2X2MatchesJvm(m: Machine, d: nat)
    requires d >= 4
    ensures Run(m, Dup2X2Lines).Some?
    ensures Stack(Run(m, Dup2X2Lines).value, d + 2) == JvmDup2X2(Stack(m, d))
  {
    Dup2X2Form();
    Dup2X2Slots();
    RunTemplate(m, Dup2X2Lines, Dup2X2Loads(), -8, Dup2X2Stores(), [0, 1, 2, 3, 0, 1], 4, d);
    Dup2X2Picks(Stack(m, d));
  }

  /** DUP2_X2 as printed writes the third word twice and loses the fourth:
      the result is the operand stack rule's only when the third and
      fourth words are equal. */
  lemma Dup2X2AsWrittenDiffers(m: Machine, d: nat)
    requires d >= 4
    ensures Run(m, Dup2X2LinesAsWritten).Some?
    ensures var s := Stack(m, d); var t := Stack(Run(m, Dup2X2LinesAsWritten).value, d + 2);
      && t == [s[0], s[1], s[2], s[2], s[0], s[1]] + s[4..]
      && (t == JvmDup2X2(s) <==> s[2] == s[3])
  {
    Dup2X2FormAsWritten();
    Dup2X2SlotsAsWritten();
    RunTemplate(m, Dup2X2LinesAsWritten, Dup2X2LoadsAsWritten(), -8, Dup2X2Stores(), [0, 1, 2, 2, 0, 1], 4, d);
    var s := Stack(m, d);
    var t := [s[0], s[1], s[2], s[2], s[0], s[1]] + s[4..];
    assert Pick(s, [0, 1, 2, 2, 0, 1]) + s[4..] == t;
    if t == JvmDup2X2(s) {
      assert t[3] == JvmDup2X2(s)[3];
    }
  }

  // swap

  function SwapLoads(): seq<Slot> {
    [Slot(0, 0), Slot(1, 4)]
  }

  function SwapStores(): seq<Slot> {
    [Slot(1, 0), Slot(0, 4)]
  }

  lemma SwapForm()
    ensures SwapLines == ShuffleLines(SwapLoads(), 0, SwapStores())
  {
    TRegNames();
  }

  lemma SwapPictured()
    ensures Pictured(SwapLoads(), SwapStores(), [1, 0])
  {
  }

  lemma SwapSlots()
    ensures ShuffleSlots(SwapLoads(), SwapStores(), [1, 0])
  {
    SwapPictured();
  }

  /** SWAP exchanges the two top words. */
  lemma SwapMatchesJvm(m: Machine, d: nat)
    requires d >= 2
    ensures Run(m, SwapLines).Some?
    ensures Stack(Run(m, SwapLines).value, d) == JvmSwap(Stack(m, d))
  {
    SwapForm();
    SwapSlots();
    RunTemplate(m, SwapLines, SwapLoads(), 0, SwapStores(), [1, 0], 2, d);
    var s := Stack(m, d);
    assert Pick(s, [1, 0]) + s[2..] == JvmSwap(s);
  }
}
