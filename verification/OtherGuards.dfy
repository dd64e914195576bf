/**
 The stubs that depend on what RAX holds when they start, or that change a register the
 displaced code does not: the archive-state slot 590ec9, the table publication 5927f2, the state
 fast path 5902d5 and the forced comparison 590ccb.
 */
module OtherGuards {
  import opened Wrappers
  import opened Words
  import opened ProcessMemory
  import opened Machine
  import opened InstructionEncoding
  import opened Programs
  import opened Spelling
  import opened StepRules
  import opened Agreement
  import opened Stubs
  import opened Guards
  import opened CompareGuard

  /* ---------- 590ec9 ---------- */

  /** The slot pointer for an archive index: `[index * 32 + r11 + 0x10c10]`. */
  function SlotPointer(s: State, index: U64): Option<U64> {
    Field(s, Wrap(32 * index) + Get(s, R11) + 0x1_0C10, W64)
  }

  /** A slot that holds no pointer: null, the sentinel, or below 64 KiB. */
  predicate Missing(slot: U64) {
    slot < 0x1_0000 || slot == 0xFFFF_FFFF_FFFF_FFFF
  }

  function ArchiveState(s: State, slot: U64): Option<U64> {
    Field(s, slot + Get(s, RBX) + 1, W8)
  }

  /** What looking an index up yields: zero for no pointer, None for a fault. */
  function SlotState(s: State, index: U64): Option<U64> {
    var slot := SlotPointer(s, index);
    if slot.None? then None
    else if Missing(slot.value) then Some(0)
    else ArchiveState(s, slot.value)
  }

  lemma Listing590ec9(resume: U64)
    ensures var p, q := Stub590ec9(resume), Displaced590ec9();
            && |p| == 14 && |q| == 3
            && p[0] == q[0] == Ins(Shift(Shl, W64, R(RAX), 5), Std)
            && p[1] == q[1] == Ins(Mov(W64, R(RAX), From(AtIndex(RAX, R11, 0x1_0C10))), Alt)
            && p[2] == Ins(Alu(Test, W64, R(RAX), From(R(RAX))), Std)
            && p[3] == Branch(E, 11)
            && p[4] == Ins(Alu(Cmp, W64, R(RAX), Imm(-1)), Std)
            && p[5] == Branch(E, 11)
            && p[6] == Ins(Alu(Cmp, W64, R(RAX), Imm(0x1_0000)), Std)
            && p[7] == Branch(B, 11)
            && p[8] == q[2] == Ins(Movzx(W32, RDX, AtIndex(RAX, RBX, 1)), Std)
            && ExitAt(p, 9, resume)
            && p[11] == Ins(Alu(Xor, W32, R(RDX), From(R(RDX))), Std)
            && ExitAt(p, 12, resume)
  {
  }

  lemma TimesThirtyTwo(x: U64)
    ensures ShiftResult(Shl, W64, x, 5) == Wrap(32 * x)
    ensures Immediate(W64, -1) == 0xFFFF_FFFF_FFFF_FFFF && Immediate(W64, 0x1_0000) == 0x1_0000
  {
    assert Pow2(5) == 32;
  }

  /** Loads the slot pointer for the index in RAX. */
  lemma LoadsSlot(p: Program, base: U64, s: State, n: nat) returns (t: State)
    requires n >= 2 && |p| >= 2 && p[0] == Ins(Shift(Shl, W64, R(RAX), 5), Std)
    requires p[1] == Ins(Mov(W64, R(RAX), From(AtIndex(RAX, R11, 0x1_0C10))), Alt)
    ensures var slot := SlotPointer(s, Get(s, RAX));
            if slot.None? then ItemSteps(p, base, AtItem(0, s), n) == Fault
            else
              && ItemSteps(p, base, AtItem(0, s), n) == ItemSteps(p, base, AtItem(2, t), n - 2)
              && Agree(t, s) && Get(t, RAX) == slot.value
  {
    hide ItemSteps, Wrap, ItemStep, Exec, Encode, Offset, Mapped, Load, ShiftResult, ShiftCarry;
    var index: int := Get(s, RAX);
    TimesThirtyTwo(index);
    var s1 := ShiftBy(p, base, 0, s, n);
    AgreeScratch(s, Wrap(32 * index), s1.zf, s1.cf);
    var slot := SlotPointer(s, index);
    t := s1;
    if slot.None? {
      SetFaults(p, base, 1, s1, n - 1);
    } else {
      t := Set(p, base, 1, s1, n - 1, slot.value);
      AgreeScratch(s, slot.value, s1.zf, s1.cf);
    }
  }

  lemma MissingExit(base: U64, s: State, t: State, n: nat, resume: U64)
    requires n >= 3 && Agree(s, t)
    ensures LeftFor(ItemSteps(Stub590ec9(resume), base, AtItem(11, s), n), resume, SetReg(t, RDX, 0))
  {
    hide ItemSteps, Wrap, ItemStep, Exec, Encode, Offset, Agree, LeftFor, ExitAt, Stub590ec9;
    Listing590ec9(resume);
    var p := Stub590ec9(resume);
    var s1 := Clear(p, base, 11, s, n);
    AgreeSet(s, t, RDX, 0);
    AgreeFlagged(SetReg(s, RDX, 0), true, false);
    AgreeTransitive(s1, SetReg(s, RDX, 0), SetReg(t, RDX, 0));
    Exits(p, base, 12, s1, n - 1, resume, SetReg(t, RDX, 0));
  }

  /** Items 2 to 7: is the slot a pointer? */
  lemma SlotChecks(base: U64, s: State, t: State, n: nat, resume: U64) returns (u: State, m: nat)
    requires n >= 6 && Agree(s, t)
    ensures m <= 6 && Agree(u, t) && Get(u, RAX) == Get(s, RAX)
    ensures var p := Stub590ec9(resume);
            ItemSteps(p, base, AtItem(2, s), n) == ItemSteps(p, base, AtItem(if Missing(Get(s, RAX)) then 11 else 8, u), n - m)
  {
    hide ItemSteps, Wrap, ItemStep, Exec, Encode, Offset, Agree, ExitAt, Stub590ec9, Immediate;
    Listing590ec9(resume);
    TimesThirtyTwo(0);
    var p, slot := Stub590ec9(resume), Get(s, RAX);
    u := TestSelf(p, base, 2, s, n);
    Decide(p, base, 3, u, n - 1);
    AgreeFlagged(s, u.zf, u.cf);
    AgreeTransitive(u, s, t);
    m := 2;
    if slot != 0 {
      var s1 := u;
      u := Compare(p, base, 4, s1, n - 2, slot, 0xFFFF_FFFF_FFFF_FFFF);
      Decide(p, base, 5, u, n - 3);
      AgreeFlagged(s1, u.zf, u.cf);
      AgreeTransitive(u, s1, t);
      m := 4;
      if slot != 0xFFFF_FFFF_FFFF_FFFF {
        var s2 := u;
        u := Compare(p, base, 6, s2, n - 4, slot, 0x1_0000);
        Decide(p, base, 7, u, n - 5);
        AgreeFlagged(s2, u.zf, u.cf);
        AgreeTransitive(u, s2, t);
        m := 6;
      }
    }
  }

  /**
   The stub reads the slot of whatever index RAX holds when it starts: `a`, which at an installed
   site is the trampoline's own address and not the archive index the site had in RAX.
   */
  lemma Guard590ec9(base: U64, s: State, a: U64, resume: U64, n: nat)
    requires n >= 12
    ensures var c := ItemSteps(Stub590ec9(resume), base, AtItem(0, SetReg(s, RAX, a)), n);
            var state := SlotState(s, a);
            if state.None? then c.Fault? else LeftFor(c, resume, SetReg(s, RDX, state.value))
  {
    hide ItemSteps, Wrap, ItemStep, Exec, Encode, Offset, Agree, LeftFor, ExitAt, Stub590ec9, Mapped, Load, Missing;
    Listing590ec9(resume);
    var p, s0 := Stub590ec9(resume), SetReg(s, RAX, a);
    var slot := SlotPointer(s, a);
    assert SlotPointer(s0, a) == slot;
    var s1 := LoadsSlot(p, base, s0, n);
    if slot.Some? {
      AgreeScratch(s, a, s.zf, s.cf);
      assert s0 == SetReg(s, RAX, a).(zf := s.zf, cf := s.cf);
      AgreeTransitive(s1, s0, s);
      var s2, m := SlotChecks(base, s1, s, n - 2, resume);
      if Missing(slot.value) {
        MissingExit(base, s2, s, n - 2 - m, resume);
      } else {
        var state := ArchiveState(s, slot.value);
        AgreeOn(s2, s, RBX);
        assert Read(s2, W8, AtIndex(RAX, RBX, 1)) == state;
        if state.None? {
          WidenFaults(p, base, 8, s2, n - 2 - m);
        } else {
          var s3 := Widen(p, base, 8, s2, n - 2 - m, state.value);
          AgreeSet(s2, s, RDX, state.value);
          Exits(p, base, 9, s3, n - 3 - m, resume, SetReg(s, RDX, state.value));
        }
      }
    }
  }

  /** The displaced block reads the slot of the index the site has in RAX. */
  lemma Block590ec9(site: U64, s: State, n: nat)
    requires n >= 4
    ensures var block := ItemSteps(Displaced590ec9(), site, AtItem(0, s), n);
            var slot := SlotPointer(s, Get(s, RAX));
            if slot.None? || ArchiveState(s, slot.value).None? then block.Fault?
            else
              && block.Left? && block.rip == End(Displaced590ec9(), site)
              && Agree(block.s, SetReg(s, RDX, ArchiveState(s, slot.value).value))
  {
    hide ItemSteps, Wrap, ItemStep, Exec, Encode, Offset, Agree, Displaced590ec9, Mapped, Load;
    Listing590ec9(0);
    var q, slot := Displaced590ec9(), SlotPointer(s, Get(s, RAX));
    var s1 := LoadsSlot(q, site, s, n);
    if slot.Some? {
      var state := ArchiveState(s, slot.value);
      AgreeOn(s1, s, RBX);
      assert Read(s1, W8, AtIndex(RAX, RBX, 1)) == state;
      if state.None? {
        WidenFaults(q, site, 2, s1, n - 2);
      } else {
        var s2 := Widen(q, site, 2, s1, n - 2, state.value);
        AgreeSet(s1, s, RDX, state.value);
        FallOff(q, site, s2, n - 3);
      }
    }
  }

  /**
   Run from the site's own state the stub would be the intended guard: it replaces the block for
   every slot that holds a pointer, and does not follow one that does not.
   */
  lemma Intended590ec9(base: U64, site: U64, s: State, resume: U64, n: nat)
    requires n >= 12 && SlotPointer(s, Get(s, RAX)).Some?
    ensures var c := ItemSteps(Stub590ec9(resume), base, AtItem(0, s), n);
            if Missing(SlotPointer(s, Get(s, RAX)).value) then LeftFor(c, resume, SetReg(s, RDX, 0))
            else Replaces(c, ItemSteps(Displaced590ec9(), site, AtItem(0, s), n), End(Displaced590ec9(), site), resume)
  {
    hide ItemSteps, Wrap, Stub590ec9, Displaced590ec9, Agree, End, ArchiveState, SlotPointer, Missing;
    assert SetReg(s, RAX, Get(s, RAX)) == s;
    Guard590ec9(base, s, Get(s, RAX), resume, n);
    Block590ec9(site, s, n);
    var c, block := ItemSteps(Stub590ec9(resume), base, AtItem(0, s), n), ItemSteps(Displaced590ec9(), site, AtItem(0, s), n);
    var slot := SlotPointer(s, Get(s, RAX)).value;
    if !Missing(slot) && ArchiveState(s, slot).Some? {
      var t := SetReg(s, RDX, ArchiveState(s, slot).value);
      AgreeTransitive(block.s, t, t) by {
        AgreeReflexive(t);
      }
      AgreeTransitive(c.s, t, block.s);
    }
  }

  /* ---------- 5927f2 ---------- */

  /** A table of the healthy shape: kind 0x42, 0x43 entries, and an entry array. */
  predicate Healthy(s: State) {
    var table := Get(s, R15);
    && table != 0
    && Field(s, table, W32) == Some(0x42) && Field(s, table + 0x10, W64) == Some(0x43)
    && NonZero(Field(s, table + 0x18, W64))
  }

  /** A table some inspected field of which rules it out, the fields before it being readable. */
  predicate Unhealthy(s: State) {
    var table := Get(s, R15);
    var kind, count, entries := Field(s, table, W32), Field(s, table + 0x10, W64), Field(s, table + 0x18, W64);
    || table == 0
    || (kind.Some? && kind != Some(0x42))
    || (kind == Some(0x42) && count.Some? && count != Some(0x43))
    || (kind == Some(0x42) && count == Some(0x43) && entries == Some(0))
  }

  lemma Listing5927f2(skip: U64)
    ensures var p := Stub5927f2(skip);
            && |p| == 11
            && p[0] == Ins(Alu(Test, W64, R(R15), From(R(R15))), Std)
            && p[1] == Branch(E, 9)
            && p[2] == Ins(Alu(Cmp, W32, At(R15, 0), Imm(0x42)), Std)
            && p[3] == Branch(NE, 9)
            && p[4] == Ins(Alu(Cmp, W64, At(R15, 0x10), Imm(0x43)), Std)
            && p[5] == Branch(NE, 9)
            && p[6] == Ins(Alu(Cmp, W64, At(R15, 0x18), Imm(0)), Std)
            && p[7] == Branch(E, 9)
            && p[8] == Ins(Mov(W64, At(RAX, 0), From(R(R15))), Std)
            && ExitAt(p, 9, skip)
  {
  }

  lemma HealthyConstants()
    ensures Immediate(W32, 0x42) == 0x42 && Immediate(W64, 0x43) == 0x43 && Immediate(W64, 0) == 0
  {
  }

  /** Items 4 to 7. */
  lemma EntriesChecked(base: U64, s: State, t: State, n: nat, skip: U64) returns (u: State, m: nat)
    requires n >= 4 && Agree(s, t)
    ensures m <= 4 && Agree(u, t) && Get(u, RAX) == Get(s, RAX)
    ensures var p, table := Stub5927f2(skip), Get(t, R15);
            var count, entries := Field(t, table + 0x10, W64), Field(t, table + 0x18, W64);
            var run := ItemSteps(p, base, AtItem(4, s), n);
            if count.None? || (count == Some(0x43) && entries.None?) then run == Fault
            else run == ItemSteps(p, base, AtItem(if count == Some(0x43) && NonZero(entries) then 8 else 9, u), n - m)
  {
    hide ItemSteps, Wrap, ItemStep, Exec, Encode, Offset, Agree, ExitAt, Stub5927f2, Immediate, Mapped, Load;
    Listing5927f2(skip);
    HealthyConstants();
    AgreeOn(s, t, R15);
    var p := Stub5927f2(skip);
    var table: int := Get(t, R15);
    var count, entries := Field(t, table + 0x10, W64), Field(t, table + 0x18, W64);
    u, m := s, 0;
    if count.None? {
      AluFaults(p, base, 4, s, n);
    } else {
      u := Compare(p, base, 4, s, n, count.value, 0x43);
      Decide(p, base, 5, u, n - 1);
      AgreeFlagged(s, u.zf, u.cf);
      AgreeTransitive(u, s, t);
      m := 2;
      if count.value == 0x43 {
        if entries.None? {
          AluFaults(p, base, 6, u, n - 2);
        } else {
          var s1 := u;
          u := Compare(p, base, 6, s1, n - 2, entries.value, 0);
          Decide(p, base, 7, u, n - 3);
          AgreeFlagged(s1, u.zf, u.cf);
          AgreeTransitive(u, s1, t);
          m := 4;
        }
      }
    }
  }

  /**
   Only a healthy table is published, and it is published at `a`, the address RAX holds when the
   stub starts: at an installed site that is the trampoline itself, not the owner's table slot.
   */
  lemma Guard5927f2(base: U64, s: State, a: U64, skip: U64, n: nat)
    requires n >= 11
    ensures var c := ItemSteps(Stub5927f2(skip), base, AtItem(0, SetReg(s, RAX, a)), n);
            if Unhealthy(s) then LeftFor(c, skip, s)
            else if Healthy(s) && Mapped(s.mem, a, 8) then LeftFor(c, skip, s.(mem := Store(s.mem, a, 8, Get(s, R15))))
            else c.Fault?
  {
    hide ItemSteps, Wrap, ItemStep, Exec, Encode, Offset, Agree, ExitAt, Stub5927f2, Immediate, Mapped, Load, Store, LeftFor;
    Listing5927f2(skip);
    HealthyConstants();
    var p, s0, table := Stub5927f2(skip), SetReg(s, RAX, a), Get(s, R15);
    var s1 := TestSelf(p, base, 0, s0, n);
    AgreeScratch(s, a, s1.zf, s1.cf);
    Decide(p, base, 1, s1, n - 1);
    if table == 0 {
      Exits(p, base, 9, s1, n - 2, skip, s);
    } else {
      var kind := Field(s, table, W32);
      if kind.None? {
        AluFaults(p, base, 2, s1, n - 2);
      } else {
        var s2 := Compare(p, base, 2, s1, n - 2, kind.value, 0x42);
        AgreeScratch(s, a, s2.zf, s2.cf);
        Decide(p, base, 3, s2, n - 3);
        if kind.value != 0x42 {
          Exits(p, base, 9, s2, n - 4, skip, s);
        } else {
          Publishes(base, s2, s, a, n - 4, skip);
        }
      }
    }
  }

  lemma Publishes(base: U64, s: State, t: State, a: U64, n: nat, skip: U64)
    requires n >= 7 && Agree(s, t) && Get(s, RAX) == a && Get(t, R15) != 0 && Field(t, Get(t, R15), W32) == Some(0x42)
    ensures var c := ItemSteps(Stub5927f2(skip), base, AtItem(4, s), n);
            if Unhealthy(t) then LeftFor(c, skip, t)
            else if Healthy(t) && Mapped(t.mem, a, 8) then LeftFor(c, skip, t.(mem := Store(t.mem, a, 8, Get(t, R15))))
            else c.Fault?
  {
    hide ItemSteps, Wrap, ItemStep, Exec, Encode, Offset, Agree, ExitAt, Stub5927f2, Mapped, Load, Store, LeftFor, Field;
    Listing5927f2(skip);
    var p := Stub5927f2(skip);
    var u, m := EntriesChecked(base, s, t, n, skip);
    if Unhealthy(t) {
      Exits(p, base, 9, u, n - m, skip, t);
    } else if Healthy(t) {
      AgreeOn(u, t, R15);
      if Mapped(t.mem, a, 8) {
        var v := Put(p, base, 8, u, n - m, Get(t, R15));
        AgreeMemory(u, t, v.mem);
        Exits(p, base, 9, v, n - m - 1, skip, t.(mem := v.mem));
      } else {
        PutFaults(p, base, 8, u, n - m);
      }
    }
  }

  /* ---------- 5902d5 ---------- */

  function StateFlag(s: State): Option<U64> {
    Field(s, Get(s, RDX) + 0x7734, W8)
  }

  function StateVector(s: State): Option<U64> {
    Field(s, Get(s, RDX) + 0x77D8, W64)
  }

  predicate FastPath(s: State) {
    Truncate(W8, Get(s, R10)) == 1
  }

  lemma Listing5902d5(skip: U64, resume: U64)
    ensures var p, q := Stub5902d5(skip, resume), Displaced5902d5();
            && |p| == 12 && |q| == 3
            && p[0] == q[0] == Ins(Alu(Cmp, W8, R(R10), Imm(1)), Std)
            && p[1] == Branch(NE, 7) && q[1] == Ins(Jcc(E, 0xDE), Std)
            && p[2] == Ins(Movzx(W32, R9, At(RDX, 0x7734)), Std)
            && p[3] == Ins(Alu(Test, W8, R(R9), From(R(R9))), Std)
            && p[4] == Branch(NE, 10)
            && p[5] == Ins(Alu(Cmp, W64, At(RDX, 0x77D8), Imm(0)), Std)
            && p[6] == Branch(NE, 10)
            && p[7] == q[2] == Ins(Mov(W64, R(RAX), From(At(R8, 0))), Alt)
            && ObliviousBlock(q, 2, 1)
            && ExitAt(p, 8, resume) && ExitAt(p, 10, skip)
  {
  }

  /** Items 7 to 9, against the last instruction of the block. */
  lemma Continues5902d5(base: U64, site: U64, s: State, n: nat, t: State, n': nat, skip: U64, resume: U64)
    requires n >= 3 && n' >= 2 && Agree(s, t)
    ensures var c := ItemSteps(Stub5902d5(skip, resume), base, AtItem(7, s), n);
            && Replaces(c, ItemSteps(Displaced5902d5(), site, AtItem(2, t), n'), End(Displaced5902d5(), site), resume)
            && (if Mapped(t.mem, Get(t, R8), 8) then LeftFor(c, resume, t) else c.Fault?)
  {
    hide ItemSteps, Wrap, ItemStep, Exec, Encode, Offset, Agree, ExitAt, Stub5902d5, Displaced5902d5, Mapped, Load, LeftFor, ObliviousBlock;
    Listing5902d5(skip, resume);
    var p, q := Stub5902d5(skip, resume), Displaced5902d5();
    assert p[7..8] == [p[7]] == q[2..];
    ResumesThrough(p, base, 7, s, n, q, site, 2, t, n', resume);
    AgreeOn(s, t, R8);
    var slot := Field(t, Get(t, R8), W64);
    if slot.None? {
      SetFaults(p, base, 7, s, n);
    } else {
      var s1 := Set(p, base, 7, s, n, slot.value);
      AgreeScratch(s, slot.value, s.zf, s.cf);
      assert s1 == SetReg(s, RAX, slot.value).(zf := s.zf, cf := s.cf);
      AgreeTransitive(s1, s, t);
      Exits(p, base, 8, s1, n - 1, resume, t);
    }
  }

  /** Items 2 to 6: whether the data buffers are populated, leaving the flag byte in R9. */
  lemma BuffersChecked(base: U64, s: State, t: State, n: nat, skip: U64, resume: U64) returns (u: State, m: nat)
    requires n >= 5 && Agree(s, t)
    ensures m <= 5 && (StateFlag(t).Some? ==> Agree(u, SetReg(t, R9, StateFlag(t).value)))
    ensures var p := Stub5902d5(skip, resume);
            var run := ItemSteps(p, base, AtItem(2, s), n);
            if StateFlag(t).None? || (StateFlag(t) == Some(0) && StateVector(t).None?) then run == Fault
            else run == ItemSteps(p, base, AtItem(if StateFlag(t) == Some(0) && StateVector(t) == Some(0) then 7 else 10, u), n - m)
  {
    hide ItemSteps, Wrap, ItemStep, Exec, Encode, Offset, Agree, ExitAt, Stub5902d5, Displaced5902d5, Mapped, Load, Immediate;
    Listing5902d5(skip, resume);
    HealthyConstants();
    var p, flag := Stub5902d5(skip, resume), StateFlag(t);
    AgreeOn(s, t, RDX);
    u, m := s, 0;
    if flag.None? {
      WidenFaults(p, base, 2, s, n);
    } else {
      var s1 := Widen(p, base, 2, s, n, flag.value);
      var t1 := SetReg(t, R9, flag.value);
      AgreeSet(s, t, R9, flag.value);
      u := TestSelf(p, base, 3, s1, n - 1);
      Decide(p, base, 4, u, n - 2);
      AgreeFlagged(s1, u.zf, u.cf);
      AgreeTransitive(u, s1, t1);
      m := 3;
      if flag.value == 0 {
        AgreeOn(u, t1, RDX);
        if StateVector(t).None? {
          AluFaults(p, base, 5, u, n - 3);
        } else {
          var s2 := u;
          u := Compare(p, base, 5, s2, n - 3, StateVector(t).value, 0);
          Decide(p, base, 6, u, n - 4);
          AgreeFlagged(s2, u.zf, u.cf);
          AgreeTransitive(u, s2, t1);
          m := 5;
        }
      }
    }
  }

  /** Where the block goes in state 1. */
  function FastPath5902d5(site: U64): U64 {
    Wrap(site + 0xE8)
  }

  lemma BranchOffset5902d5(site: U64)
    ensures |Displaced5902d5()| == 3 && Wrap(Next(Displaced5902d5(), site, 1) + 0xDE) == FastPath5902d5(site)
  {
    hide Encode, Wrap;
    CmpR10bOne();
    JeNearDE();
    assert Offset(Displaced5902d5(), 2) == 10;
    WrapAdd(site + 10, 0xDE);
  }

  /**
   Outside state 1 the stub replaces the block. In state 1 the block always takes its fast path;
   the stub takes it exactly when the buffers are populated, and with R9 overwritten either way.
   */
  lemma Guard5902d5(base: U64, site: U64, s: State, a: U64, skip: U64, resume: U64, n: nat)
    requires n >= 12
    ensures var c := ItemSteps(Stub5902d5(skip, resume), base, AtItem(0, SetReg(s, RAX, a)), n);
            var block := ItemSteps(Displaced5902d5(), site, AtItem(0, s), n);
            var flag, vector := StateFlag(s), StateVector(s);
            if !FastPath(s) then Replaces(c, block, End(Displaced5902d5(), site), resume)
            else
              && block.Left? && block.rip == FastPath5902d5(site) && Agree(block.s, s)
              && if flag.None? || (flag == Some(0) && vector.None?) then c.Fault?
                 else if flag == Some(0) && vector == Some(0)
                 then (if Mapped(s.mem, Get(s, R8), 8) then LeftFor(c, resume, SetReg(s, R9, 0)) else c.Fault?)
                 else LeftFor(c, skip, SetReg(s, R9, flag.value))
  {
    hide ItemSteps, Wrap, ItemStep, Exec, Encode, Offset, Agree, ExitAt, Stub5902d5, Displaced5902d5, Mapped, Load, LeftFor, ObliviousBlock,
      Immediate, Truncate, Replaces, End, FastPath5902d5;
    Listing5902d5(skip, resume);
    OneByte();
    var p, q, s0 := Stub5902d5(skip, resume), Displaced5902d5(), SetReg(s, RAX, a);
    var low := Truncate(W8, Get(s, R10));
    var s1 := Compare(p, base, 0, s0, n, low, 1);
    var t1 := Compare(q, site, 0, s, n, low, 1);
    AgreeScratch(s, a, s1.zf, s1.cf);
    AgreeFlagged(s, t1.zf, t1.cf);
    AgreeTransitive(t1, s, s) by {
      AgreeReflexive(s);
    }
    AgreeTransitive(s1, s, t1);
    Decide(p, base, 1, s1, n - 1);
    DecideOut(q, site, 1, t1, n - 1);
    BranchOffset5902d5(site);
    if !FastPath(s) {
      Continues5902d5(base, site, s1, n - 2, t1, n - 2, skip, resume);
    } else {
      var u, m := BuffersChecked(base, s1, s, n - 2, skip, resume);
      var flag, vector := StateFlag(s), StateVector(s);
      if flag == Some(0) && vector == Some(0) {
        Continues5902d5(base, site, u, n - 2 - m, SetReg(s, R9, 0), 2, skip, resume);
      } else if flag.Some? && !(flag == Some(0) && vector.None?) {
        Exits(p, base, 10, u, n - 2 - m, skip, SetReg(s, R9, flag.value));
      }
    }
  }

  lemma SettingAgrees(s: State, r: Reg, v: U64)
    requires r != RAX
    ensures Agree(s, SetReg(s, r, v)) <==> Get(s, r) == v
  {
    if Agree(s, SetReg(s, r, v)) {
      AgreeOn(s, SetReg(s, r, v), r);
    }
    if Get(s, r) == v {
      assert SetReg(s, r, v) == s;
    }
  }

  /**
   Both ways out: the stub does what the block does if and only if, in state 1, a buffer field is
   set and R9 already holds the flag byte that the stub loads into it.
   */
  lemma FollowsExactly5902d5(base: U64, site: U64, s: State, a: U64, skip: U64, resume: U64, n: nat)
    requires n >= 12 && skip != resume
    ensures var flag, vector := StateFlag(s), StateVector(s);
            Follows(ItemSteps(Stub5902d5(skip, resume), base, AtItem(0, SetReg(s, RAX, a)), n),
              ItemSteps(Displaced5902d5(), site, AtItem(0, s), n), End(Displaced5902d5(), site), FastPath5902d5(site), resume, skip)
            <==> (FastPath(s) ==> flag == Some(Get(s, R9)) && (NonZero(flag) || NonZero(vector)))
  {
    hide ItemSteps, Wrap, Stub5902d5, Displaced5902d5, Agree, End, FastPath, FastPath5902d5, StateFlag, StateVector, Mapped;
    Guard5902d5(base, site, s, a, skip, resume, n);
    EndElsewhere5902d5(site);
    var c := ItemSteps(Stub5902d5(skip, resume), base, AtItem(0, SetReg(s, RAX, a)), n);
    var block, flag := ItemSteps(Displaced5902d5(), site, AtItem(0, s), n), StateFlag(s);
    if FastPath(s) && flag.Some? && c.Left? {
      SettingAgrees(s, R9, flag.value);
      if Agree(c.s, SetReg(s, R9, flag.value)) {
        AgreeThrough(c.s, SetReg(s, R9, flag.value), s, block.s);
      }
    }
  }

  /** Two states in two classes of agreement agree exactly when the classes do. */
  lemma AgreeThrough(c: State, t: State, s: State, b: State)
    requires Agree(c, t) && Agree(b, s)
    ensures Agree(c, b) <==> Agree(s, t)
  {
  }

  lemma EndElsewhere5902d5(site: U64)
    ensures FastPath5902d5(site) != End(Displaced5902d5(), site)
  {
    hide Encode, Wrap;
    CmpR10bOne();
    JeNearDE();
    LoadRaxR8();
    assert Offset(Displaced5902d5(), 2) == 10;
    assert CodeLength(Displaced5902d5()) == 13;
    Apart5902d5(site);
  }

  lemma Apart5902d5(site: U64)
    ensures Wrap(site + 0xE8) != Wrap(site + 13)
  {
  }

  lemma OneByte()
    ensures Immediate(W8, 1) == 1
  {
  }

  /* ---------- 590ccb ---------- */

  lemma Listing590ccb(resume: U64, success: U64)
    ensures var p := Stub590ccb(resume, success);
            && |p| == 9
            && p[0] == Ins(Mov(W32, R(RCX), From(R(RBX))), Std)
            && p[1] == Ins(Mov(W32, R(RAX), From(R(R8))), Std)
            && p[2] == Ins(Alu(Test, W8, R(RDX), From(R(RDX))), Std)
            && p[3] == Branch(E, 7)
            && p[4] == Ins(Mov(W32, R(RAX), From(At(RDI, 0x20))), Alt)
            && ExitAt(p, 5, success) && ExitAt(p, 7, resume)
  {
  }

  /**
   The comparison is forced: DL chooses between the inline value and the indexed lookup, as in
   the displaced code, but of the values loaded for it only the copy in ECX outlives the exit.
   */
  lemma Guard590ccb(base: U64, s: State, a: U64, resume: U64, success: U64, n: nat)
    requires n >= 7
    ensures var c := ItemSteps(Stub590ccb(resume, success), base, AtItem(0, SetReg(s, RAX, a)), n);
            var t := SetReg(s, RCX, Truncate(W32, Get(s, RBX)));
            if Truncate(W8, Get(s, RDX)) == 0 then LeftFor(c, resume, t)
            else if Mapped(s.mem, Wrap(Get(s, RDI) + 0x20), 4) then LeftFor(c, success, t)
            else c.Fault?
  {
    hide ItemSteps, ItemStep, Exec, Encode, Offset, Agree, ExitAt, Stub590ccb, Mapped, Load, LeftFor, Truncate, Wrap;
    Listing590ccb(resume, success);
    var p, s0, low := Stub590ccb(resume, success), SetReg(s, RAX, a), Truncate(W32, Get(s, RBX));
    AgreeScratch(s, a, s.zf, s.cf);
    assert s0 == SetReg(s, RAX, a).(zf := s.zf, cf := s.cf);
    var s1 := Set(p, base, 0, s0, n, low);
    AgreeSet(s0, s, RCX, low);
    var t := SetReg(s, RCX, low);
    var s2 := Set(p, base, 1, s1, n - 1, Truncate(W32, Get(s, R8)));
    var s3 := TestSelf(p, base, 2, s2, n - 2);
    AgreeScratch(s1, Truncate(W32, Get(s, R8)), s3.zf, s3.cf);
    AgreeTransitive(s3, s1, t);
    Decide(p, base, 3, s3, n - 3);
    if Truncate(W8, Get(s, RDX)) == 0 {
      Exits(p, base, 7, s3, n - 4, resume, t);
    } else {
      Loads590ccb(base, s3, t, n - 4, resume, success);
    }
  }

  lemma Loads590ccb(base: U64, s: State, t: State, n: nat, resume: U64, success: U64)
    requires n >= 3 && Agree(s, t)
    ensures var c := ItemSteps(Stub590ccb(resume, success), base, AtItem(4, s), n);
            if Mapped(t.mem, Wrap(Get(t, RDI) + 0x20), 4) then LeftFor(c, success, t) else c.Fault?
  {
    hide ItemSteps, ItemStep, Exec, Encode, Offset, Agree, ExitAt, Stub590ccb, Mapped, Load, LeftFor, Wrap;
    Listing590ccb(resume, success);
    var p, value := Stub590ccb(resume, success), Field(t, Get(t, RDI) + 0x20, W32);
    AgreeOn(s, t, RDI);
    if value.None? {
      SetFaults(p, base, 4, s, n);
    } else {
      var s1 := Set(p, base, 4, s, n, value.value);
      AgreeScratch(s, value.value, s.zf, s.cf);
      assert s1 == SetReg(s, RAX, value.value).(zf := s.zf, cf := s.cf);
      AgreeTransitive(s1, s, t);
      Exits(p, base, 5, s1, n - 1, success, t);
    }
  }
}
