/** The local-variable, field-store, frame and argument templates of the
    compiler's translator run on the register-and-memory machine of module
    `Asm`.

    Stacks are written top first; `p` is the stack pointer before a
    template runs and `s0` the frame pointer, below which the operand
    stack lies. */
module TemplateRuns {
  import opened Wrappers
  import opened Text
  import opened Asm
  import opened CodeTranslator

  // ---------------------------------------------------------------------
  // Locals

  /** `store32`: the top word goes to local `index` and is popped. */
  lemma RunStore32(m: Machine, index: int)
    ensures Run(m, Store32(index)).Some?
    ensures var f := Run(m, Store32(index)).value; var p := RegValue(m, "sp"); var s0 := RegValue(m, "s0");
      && RegValue(f, "sp") == p + 4
      && RegValue(f, "s0") == s0
      && Load(f, s0 + 4 * index) == Load(m, p)
      && forall a | a != s0 + 4 * index :: Load(f, a) == Load(m, a)
  {
    var p := RegValue(m, "sp");
    var ls := Store32(index);
    var m1 := SetReg(m, "t0", Load(m, p));
    var m2 := SetReg(m1, "sp", p + 4);
    var m3 := Store(m2, RegValue(m2, "s0") + index * 4, RegValue(m2, "t0"));
    ExecLw(m, "t0", 0, "sp");
    ExecAdd(m1, "add", "sp", "sp", 4);
    ExecSw(m2, "t0", index * 4, "s0");
    RunThree(m, ls, m1, m2, m3);
  }

  /** `load32`: local `index` is pushed. */
  lemma RunLoad32(m: Machine, index: int)
    ensures Run(m, Load32(index)).Some?
    ensures var f := Run(m, Load32(index)).value; var p := RegValue(m, "sp"); var s0 := RegValue(m, "s0");
      && RegValue(f, "sp") == p - 4
      && RegValue(f, "s0") == s0
      && Load(f, p - 4) == Load(m, s0 + 4 * index)
      && forall a | a != p - 4 :: Load(f, a) == Load(m, a)
  {
    var p := RegValue(m, "sp");
    var ls := Load32(index);
    var m1 := SetReg(m, "t0", Load(m, RegValue(m, "s0") + index * 4));
    var m2 := SetReg(m1, "sp", p - 4);
    var m3 := Store(m2, p - 4, RegValue(m2, "t0"));
    ExecLw(m, "t0", index * 4, "s0");
    ExecAdd(m1, "addi", "sp", "sp", -4);
    ExecSw(m2, "t0", 0, "sp");
    RunThree(m, ls, m1, m2, m3);
  }

  /** One template after another. */
  lemma RunBoth(m: Machine, a: seq<Line>, b: seq<Line>)
    requires Run(m, a).Some? && Run(Run(m, a).value, b).Some?
    ensures Run(m, a + b) == Run(Run(m, a).value, b)
  {
    RunAppend(m, a, b);
  }

  /** `store64`: the two top words go to locals index and index + 1 and
      are popped, when the locals lie above the two words. */
  lemma RunStore64(m: Machine, index: nat)
    requires RegValue(m, "sp") + 8 <= RegValue(m, "s0")
    ensures Run(m, Store64(index)).Some?
    ensures var f := Run(m, Store64(index)).value; var p := RegValue(m, "sp"); var x := RegValue(m, "s0") + 4 * index;
      && RegValue(f, "sp") == p + 8
      && RegValue(f, "s0") == RegValue(m, "s0")
      && Load(f, x) == Load(m, p)
      && Load(f, x + 4) == Load(m, p + 4)
      && forall a | a != x && a != x + 4 :: Load(f, a) == Load(m, a)
  {
    RunStore32(m, index);
    var m1 := Run(m, Store32(index)).value;
    RunStore32(m1, index + 1);
    RunBoth(m, Store32(index), Store32(index + 1));
  }

  /** `load64`: locals index + 1 and index are pushed, local index on top,
      when the locals lie at or above the stack pointer. */
  lemma RunLoad64(m: Machine, index: nat)
    requires RegValue(m, "sp") <= RegValue(m, "s0")
    ensures Run(m, Load64(index)).Some?
    ensures var f := Run(m, Load64(index)).value; var p := RegValue(m, "sp"); var x := RegValue(m, "s0") + 4 * index;
      && RegValue(f, "sp") == p - 8
      && Load(f, p - 8) == Load(m, x)
      && Load(f, p - 4) == Load(m, x + 4)
      && forall a | a != p - 8 && a != p - 4 :: Load(f, a) == Load(m, a)
  {
    RunLoad32(m, index + 1);
    var m1 := Run(m, Load32(index + 1)).value;
    RunLoad32(m1, index);
    RunBoth(m, Load32(index + 1), Load32(index));
  }

  /** LSTORE as `store64` and then LLOAD of the same local as `load64`
      give back the stack they started from, with the two words left in
      the locals. */
  lemma Store64ThenLoad64(m: Machine, index: nat, d: nat)
    requires d >= 2 && RegValue(m, "sp") + 4 * d <= RegValue(m, "s0")
    ensures Run(m, Store64(index) + Load64(index)).Some?
    ensures var f := Run(m, Store64(index) + Load64(index)).value; var s0 := RegValue(m, "s0");
      && RegValue(f, "sp") == RegValue(m, "sp")
      && Stack(f, d) == Stack(m, d)
      && Load(f, s0 + 4 * index) == Stack(m, d)[0]
      && Load(f, s0 + 4 * index + 4) == Stack(m, d)[1]
  {
    var p := RegValue(m, "sp");
    RunStore64(m, index);
    var m2 := Run(m, Store64(index)).value;
    RunLoad64(m2, index);
    RunBoth(m, Store64(index), Load64(index));
    var f := Run(m2, Load64(index)).value;
    forall k | 0 <= k < d
      ensures Stack(f, d)[k] == Stack(m, d)[k]
    {
      assert p + 4 * k < RegValue(m, "s0");
    }
  }

  // ---------------------------------------------------------------------
  // Instance fields of one word

  /** PUTFIELD of an `int` field: the field of the object under the top
      word receives the top word, both are popped, and no other word
      changes. */
  lemma PutfieldStoresValue(m: Machine, offset: int)
    ensures Run(m, PutfieldLines(offset, 1, "sw")).Some?
    ensures var f := Run(m, PutfieldLines(offset, 1, "sw")).value; var p := RegValue(m, "sp");
      var field := Load(m, p + 4) + offset;
      && RegValue(f, "sp") == p + 8
      && Load(f, field) == Load(m, p)
      && forall a | a != field :: Load(f, a) == Load(m, a)
  {
    var p := RegValue(m, "sp");
    var ls := PutfieldLines(offset, 1, "sw");
    var m1 := SetReg(m, "t1", Load(m, p + 4));
    var m2 := SetReg(m1, "t0", Load(m1, p));
    var m3 := Store(m2, RegValue(m2, "t1") + offset, RegValue(m2, "t0"));
    var m4 := SetReg(m3, "sp", p + 8);
    assert Run(m, ls) == Some(m4) by {
      ExecLw(m, "t1", 4, "sp");
      ExecLw(m1, "t0", 0, "sp");
      ExecSw(m2, "t0", offset, "t1");
      ExecAdd(m3, "addi", "sp", "sp", 8);
      RunFour(m, ls, m1, m2, m3, m4);
    }
  }

  /** PUTFIELD as printed: the field receives whatever t0 held before, and
      the top stack word is overwritten with it; the field gets the value
      on the stack only when t0 happened to hold it. */
  lemma PutfieldAsWrittenStoresStaleT0(m: Machine, offset: int)
    ensures Run(m, PutfieldLinesAsWritten(offset, 1, "sw")).Some?
    ensures var f := Run(m, PutfieldLinesAsWritten(offset, 1, "sw")).value; var p := RegValue(m, "sp");
      var field := Load(m, p + 4) + offset;
      && RegValue(f, "sp") == p + 8
      && Load(f, field) == RegValue(m, "t0")
      && (Load(f, field) == Load(m, p) <==> RegValue(m, "t0") == Load(m, p))
  {
    var p := RegValue(m, "sp");
    var ls := PutfieldLinesAsWritten(offset, 1, "sw");
    var m1 := SetReg(m, "t1", Load(m, p + 4));
    var m2 := Store(m1, p, RegValue(m1, "t0"));
    var m3 := Store(m2, RegValue(m2, "t1") + offset, RegValue(m2, "t0"));
    var m4 := SetReg(m3, "sp", p + 8);
    assert Run(m, ls) == Some(m4) by {
      ExecLw(m, "t1", 4, "sp");
      ExecSw(m1, "t0", 0, "sp");
      ExecSw(m2, "t0", offset, "t1");
      ExecAdd(m3, "addi", "sp", "sp", 8);
      RunFour(m, ls, m1, m2, m3, m4);
    }
  }

  /** GETFIELD of an `int` field: the object reference on top is replaced
      by the field's word. */
  lemma GetfieldLoadsValue(m: Machine, offset: int)
    ensures Run(m, GetfieldLines(offset, 1, "lw")).Some?
    ensures var f := Run(m, GetfieldLines(offset, 1, "lw")).value; var p := RegValue(m, "sp");
      && RegValue(f, "sp") == p
      && Load(f, p) == Load(m, Load(m, p) + offset)
      && forall a | a != p :: Load(f, a) == Load(m, a)
  {
    var p := RegValue(m, "sp");
    var ls := GetfieldLines(offset, 1, "lw");
    var m1 := SetReg(m, "t1", Load(m, p));
    var m2 := SetReg(m1, "t0", Load(m1, RegValue(m1, "t1") + offset));
    var m3 := Store(m2, p, RegValue(m2, "t0"));
    ExecLw(m, "t1", 0, "sp");
    ExecLw(m1, "t0", offset, "t1");
    ExecSw(m2, "t0", 0, "sp");
    RunThree(m, ls, m1, m2, m3);
  }

  /** A GETFIELD of the field a PUTFIELD just wrote, on the same object,
      reads back the value stored: with the stack `value, obj, obj, ...`
      the result is `value, ...`, provided the field does not lie on the
      operand stack. */
  lemma PutfieldThenGetfield(m: Machine, offset: int)
    requires var p := RegValue(m, "sp");
      Load(m, p + 4) == Load(m, p + 8) && Load(m, p + 4) + offset != p + 8
    ensures Run(m, PutfieldLines(offset, 1, "sw") + GetfieldLines(offset, 1, "lw")).Some?
    ensures var f := Run(m, PutfieldLines(offset, 1, "sw") + GetfieldLines(offset, 1, "lw")).value;
      var p := RegValue(m, "sp");
      && RegValue(f, "sp") == p + 8
      && Load(f, p + 8) == Load(m, p)
  {
    PutfieldStoresValue(m, offset);
    var g := Run(m, PutfieldLines(offset, 1, "sw")).value;
    GetfieldLoadsValue(g, offset);
    RunBoth(m, PutfieldLines(offset, 1, "sw"), GetfieldLines(offset, 1, "lw"));
  }

  // ---------------------------------------------------------------------
  // The frame

  /** Argument registers are `a0`, `a1`, ...: none of them is sp, s0, ra
      or x0, and different indexes name different registers. */
  lemma ArgRegDistinct(i: nat, j: nat)
    ensures var r := ArgReg(i).name; r != "sp" && r != "s0" && r != "ra" && r != "x0"
    ensures ArgReg(i).name == ArgReg(j).name <==> i == j
  {
    assert ArgReg(i).name[0] == 'a';
    if ArgReg(i).name == ArgReg(j).name {
      PrefixedNumberInjective("a", i, j);
    }
  }

  /** The frame setup: sp moves down over the locals and two saved words,
      ra and s0 are saved in those two words, and s0 points at the frame. */
  lemma RunFrameSetup(m: Machine, maxLocals: nat)
    ensures Run(m, FrameSetup(maxLocals)).Some?
    ensures var f := Run(m, FrameSetup(maxLocals)).value; var q := RegValue(m, "sp") - 4 * (maxLocals + 2);
      && RegValue(f, "sp") == q
      && RegValue(f, "s0") == q
      && Load(f, q + 4 * maxLocals) == RegValue(m, "ra")
      && Load(f, q + 4 * maxLocals + 4) == RegValue(m, "s0")
      && (forall a | a != q + 4 * maxLocals && a != q + 4 * maxLocals + 4 :: Load(f, a) == Load(m, a))
      && (forall r | r != "sp" && r != "s0" :: RegValue(f, r) == RegValue(m, r))
  {
    var q := RegValue(m, "sp") - 4 * (maxLocals + 2);
    var ls := FrameSetup(maxLocals);
    var m1 := SetReg(m, "sp", q);
    var m2 := Store(m1, q + maxLocals * 4, RegValue(m1, "ra"));
    var m3 := Store(m2, q + (maxLocals + 1) * 4, RegValue(m2, "s0"));
    var m4 := SetReg(m3, "s0", RegValue(m3, "sp"));
    ExecAdd(m, "addi", "sp", "sp", -((maxLocals + 2) * 4));
    ExecSw(m1, "ra", maxLocals * 4, "sp");
    ExecSw(m2, "s0", (maxLocals + 1) * 4, "sp");
    ExecMv(m3, "s0", "sp");
    RunFour(m, ls, m1, m2, m3, m4);
  }

  /** After spilling the first `words` argument registers from machine
      m: registers unchanged, a_i in local i, memory outside the spilled
      locals unchanged. */
  ghost predicate Spilled(m: Machine, f: Machine, words: nat) {
    var s0 := RegValue(m, "s0");
    && (forall r :: RegValue(f, r) == RegValue(m, r))
    && (forall i | 0 <= i < words :: Load(f, s0 + 4 * i) == RegValue(m, ArgReg(i).name))
    && (forall a | a < s0 || s0 + 4 * words <= a :: Load(f, a) == Load(m, a))
  }

  /** The spill of the argument registers: a_i goes to local i, and
      nothing else changes. */
  lemma {:induction false} RunSpill(m: Machine, words: nat)
    ensures Run(m, Spill(words)).Some?
    ensures Spilled(m, Run(m, Spill(words)).value, words)
    decreases words
  {
    if words > 0 {
      var k := words - 1;
      RunSpill(m, k);
      var g := Run(m, Spill(k)).value;
      RunSpillLast(m, k, g);
      SpillStep(m, g, Store(g, RegValue(g, "s0") + k * 4, RegValue(g, ArgReg(k).name)), k);
    }
  }

  /** The last store of a spill. */
  lemma RunSpillLast(m: Machine, k: nat, g: Machine)
    requires Run(m, Spill(k)) == Some(g)
    ensures Run(m, Spill(k + 1)) == Some(Store(g, RegValue(g, "s0") + k * 4, RegValue(g, ArgReg(k).name)))
  {
    RunThenSw(m, Spill(k), g, ArgReg(k), k * 4, "s0");
  }

  /** One more spilled register. */
  lemma SpillStep(m: Machine, g: Machine, f: Machine, k: nat)
    requires Spilled(m, g, k)
    requires f == Store(g, RegValue(g, "s0") + k * 4, RegValue(g, ArgReg(k).name))
    ensures Spilled(m, f, k + 1)
  {
    var s0 := RegValue(g, "s0");
    assert s0 == RegValue(m, "s0");
    assert Load(f, s0 + 4 * k) == RegValue(m, ArgReg(k).name);
    assert forall a | a != s0 + 4 * k :: Load(f, a) == Load(g, a);
  }

  /** The frame teardown, from a machine whose sp and saved words are as
      the setup left them, gives back sp, s0 and ra. */
  lemma FrameTeardownRestores(m: Machine, g: Machine, maxLocals: nat)
    requires var q := RegValue(m, "sp") - 4 * (maxLocals + 2);
      && RegValue(g, "sp") == q
      && Load(g, q + 4 * maxLocals) == RegValue(m, "ra")
      && Load(g, q + 4 * maxLocals + 4) == RegValue(m, "s0")
    ensures Run(g, FrameTeardown(maxLocals)).Some?
    ensures var f := Run(g, FrameTeardown(maxLocals)).value;
      && RegValue(f, "sp") == RegValue(m, "sp")
      && RegValue(f, "s0") == RegValue(m, "s0")
      && RegValue(f, "ra") == RegValue(m, "ra")
      && forall a :: Load(f, a) == Load(g, a)
  {
    FrameRegsDistinct();
    RunFrameTeardown(g, maxLocals);
  }

  /** The machine the frame teardown ends in: s0 and ra reloaded from the
      two saved words, sp moved back above them. */
  lemma RunFrameTeardown(g: Machine, maxLocals: nat)
    ensures var q := RegValue(g, "sp");
      Run(g, FrameTeardown(maxLocals))
      == Some(SetReg(SetReg(SetReg(g, "s0", Load(g, q + (maxLocals + 1) * 4)), "ra", Load(g, q + maxLocals * 4)),
                     "sp", q + (maxLocals + 2) * 4))
  {
    FrameRegsDistinct();
    var q := RegValue(g, "sp");
    var ls := FrameTeardown(maxLocals);
    var m1 := SetReg(g, "s0", Load(g, q + (maxLocals + 1) * 4));
    var m2 := SetReg(m1, "ra", Load(m1, q + maxLocals * 4));
    var m3 := SetReg(m2, "sp", q + (maxLocals + 2) * 4);
    assert RegValue(m1, "sp") == q && Load(m1, q + maxLocals * 4) == Load(g, q + maxLocals * 4);
    assert RegValue(m2, "sp") == q;
    ExecLw(g, "s0", (maxLocals + 1) * 4, "sp");
    ExecLw(m1, "ra", maxLocals * 4, "sp");
    ExecAdd(m2, "add", "sp", "sp", (maxLocals + 2) * 4);
    RunThreeLines(g, ls[0], ls[1], ls[2], m1, m2, m3);
  }

  /** Setup and spill, word by word: when the arguments fit in the locals
      the spill leaves the saved words alone. */
  lemma SetupSpillWords(m: Machine, g: Machine, f: Machine, maxLocals: nat, words: nat)
    requires words <= maxLocals
    requires var q := RegValue(m, "sp") - 4 * (maxLocals + 2);
      && RegValue(g, "sp") == q && RegValue(g, "s0") == q
      && Load(g, q + 4 * maxLocals) == RegValue(m, "ra")
      && Load(g, q + 4 * maxLocals + 4) == RegValue(m, "s0")
      && (forall r | r != "sp" && r != "s0" :: RegValue(g, r) == RegValue(m, r))
    requires Spilled(g, f, words)
    ensures var q := RegValue(m, "sp") - 4 * (maxLocals + 2);
      && RegValue(f, "sp") == q && RegValue(f, "s0") == q
      && Load(f, q + 4 * maxLocals) == RegValue(m, "ra")
      && Load(f, q + 4 * maxLocals + 4) == RegValue(m, "s0")
      && forall i | 0 <= i < words :: Load(f, q + 4 * i) == RegValue(m, ArgReg(i).name)
  {
    forall i | 0 <= i < words
      ensures RegValue(g, ArgReg(i).name) == RegValue(m, ArgReg(i).name)
    {
      ArgRegDistinct(i, 0);
    }
  }

  /** The prologue's frame setup and spill: the frame lies just below the
      caller's sp, argument word i is in local i, and ra and s0 are saved
      above the locals. */
  lemma SetupAndSpill(m: Machine, maxLocals: nat, words: nat)
    requires words <= maxLocals
    ensures Run(m, FrameSetup(maxLocals) + Spill(words)).Some?
    ensures var f := Run(m, FrameSetup(maxLocals) + Spill(words)).value;
      var q := RegValue(m, "sp") - 4 * (maxLocals + 2);
      && RegValue(f, "sp") == q && RegValue(f, "s0") == q
      && Load(f, q + 4 * maxLocals) == RegValue(m, "ra")
      && Load(f, q + 4 * maxLocals + 4) == RegValue(m, "s0")
      && forall i | 0 <= i < words :: Load(f, q + 4 * i) == RegValue(m, ArgReg(i).name)
  {
    RunFrameSetup(m, maxLocals);
    var g := Run(m, FrameSetup(maxLocals)).value;
    RunSpill(g, words);
    var f := Run(g, Spill(words)).value;
    RunBoth(m, FrameSetup(maxLocals), Spill(words));
    SetupSpillWords(m, g, f, maxLocals, words);
  }

  /** The method frame round trip: setup and spill, then the teardown,
      give the caller back its sp, s0 and ra. */
  lemma FrameRoundTrip(m: Machine, maxLocals: nat, words: nat)
    requires words <= maxLocals
    ensures Run(m, FrameSetup(maxLocals) + Spill(words) + FrameTeardown(maxLocals)).Some?
    ensures var f := Run(m, FrameSetup(maxLocals) + Spill(words) + FrameTeardown(maxLocals)).value;
      && RegValue(f, "sp") == RegValue(m, "sp")
      && RegValue(f, "s0") == RegValue(m, "s0")
      && RegValue(f, "ra") == RegValue(m, "ra")
  {
    SetupAndSpill(m, maxLocals, words);
    var g := Run(m, FrameSetup(maxLocals) + Spill(words)).value;
    FrameTeardownRestores(m, g, maxLocals);
    RunBoth(m, FrameSetup(maxLocals) + Spill(words), FrameTeardown(maxLocals));
  }
}
