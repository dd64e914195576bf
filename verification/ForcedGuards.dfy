/**
 The stubs that force a check: the length gate 59c1ea, the sentinels 590c72 and the
 two per-entry comparisons 590ccb and 590cf1. What they do in every state, and that where the
 displaced comparison holds they go where it goes.
 */
module ForcedGuards {
  import opened Wrappers
  import opened Words
  import opened ProcessMemory
  import opened Machine
  import Decoder
  import opened InstructionEncoding
  import opened Programs
  import opened OneMemory
  import opened Spelling
  import opened StepRules
  import opened Agreement
  import opened Stubs
  import opened GuardedSites
  import opened Guards
  import opened OtherGuards

  /* ---------- the comparisons the patches overwrite ---------- */

  /** The instructions displaced at 0x59C1EA. */
  function Gate59c1ea(): Program {
    [
      Ins(Alu(Cmp, W64, R(R14), Imm(0x41)), Std),
      Ins(Jcc(E, 0x2B), Alt),
      Ins(Alu(Test, W64, R(RBX), From(R(RBX))), Std),
      Ins(Jcc(E, 0x0D), Alt),
      Ins(Alu(Test, W64, R(R14), From(R(R14))), Std),
      Ins(Jcc(E, 0x08), Alt)
    ]
  }

  /** The first two displaced at 0x590CF1. */
  function Compare590cf1(): Program {
    [Ins(Alu(Cmp, W32, R(RAX), From(R(R9))), Alt), Ins(Jcc(E, 0xD1), Std)]
  }

  /** Those displaced at 0x590CCB, up to the closing short jump. */
  function Compare590ccb(): Program {
    [
      Ins(Alu(Cmp, W32, R(RAX), From(R(R8))), Alt),
      Ins(Jcc(NE, 0x2A), Alt),
      Ins(Alu(Test, W8, R(RDX), From(R(RDX))), Std),
      Ins(Jcc(E, 0x05), Alt),
      Ins(Mov(W32, R(RAX), From(At(RDI, 0x20))), Alt)
    ]
  }

  lemma EncodableGates()
    ensures WellFormed(Gate59c1ea()) && WellFormed(Compare590cf1())
  {
    hide Encode, Offset;
    CodeLengthBound(Gate59c1ea());
    CodeLengthBound(Compare590cf1());
  }

  lemma Encodable590ccb()
    ensures WellFormed(Compare590ccb())
  {
    hide Encode, Offset;
    CodeLengthBound(Compare590ccb());
  }

  lemma CmpR14Length()
    ensures Encode(Alu(Cmp, W64, R(R14), Imm(0x41)), Std) == [0x49, 0x83, 0xFE, 0x41]
  {
    hide Encode, Emit, WithModRm;
    Spell(Alu(Cmp, W64, R(R14), Imm(0x41)), Std, Modded(W64, [0x83], RDI, R(R14), Imm8(0x41)), [0x49], [0xFE], [0x41]);
  }

  lemma CmpEaxR9()
    ensures Encode(Alu(Cmp, W32, R(RAX), From(R(R9))), Alt) == [0x41, 0x3B, 0xC1]
  {
  }

  lemma CmpEaxR8()
    ensures Encode(Alu(Cmp, W32, R(RAX), From(R(R8))), Alt) == [0x41, 0x3B, 0xC0]
  {
  }

  lemma SpelledComparisons()
    ensures Encode(Alu(Cmp, W64, R(R14), Imm(0x41)), Std) == [0x49, 0x83, 0xFE, 0x41]
    ensures Encode(Alu(Cmp, W32, R(RAX), From(R(R9))), Alt) == [0x41, 0x3B, 0xC1]
    ensures Encode(Alu(Cmp, W32, R(RAX), From(R(R8))), Alt) == [0x41, 0x3B, 0xC0]
  {
    hide Encode;
    CmpR14Length();
    CmpEaxR9();
    CmpEaxR8();
  }

  /** A short conditional jump is its opcode and one byte. */
  lemma ShortJump(c: Condition, opcode: Byte, rel: nat)
    requires rel < 0x80 && ((c == E && opcode == 0x74) || (c == NE && opcode == 0x75))
    ensures Encode(Jcc(c, rel), Alt) == [opcode, rel]
  {
    hide Emit, WithModRm;
    assert LittleEndian(rel, 1) == [rel];
    SpellPlain(Jcc(c, rel), Alt, Plain(W32, [opcode], false, Imm8(rel)), [], [rel]);
  }

  lemma SpelledJumps()
    ensures Encode(Jcc(E, 0x2B), Alt) == [0x74, 0x2B]
    ensures Encode(Jcc(NE, 0x2A), Alt) == [0x75, 0x2A]
    ensures Encode(Jcc(E, 0x05), Alt) == [0x74, 0x05]
    ensures Encode(Jcc(E, 0x0D), Alt) == [0x74, 0x0D]
    ensures Encode(Jcc(E, 0x08), Alt) == [0x74, 0x08]
    ensures Encode(Jcc(E, 0xD1), Std) == [0x0F, 0x84, 0xD1, 0x00, 0x00, 0x00]
  {
    hide Emit, WithModRm, Encode;
    ShortJump(E, 0x74, 0x2B);
    ShortJump(NE, 0x75, 0x2A);
    ShortJump(E, 0x74, 0x05);
    ShortJump(E, 0x74, 0x0D);
    ShortJump(E, 0x74, 0x08);
    SpellPlain(Jcc(E, 0xD1), Std, Plain(W32, [0x0F, 0x84], false, Imm32(0xD1)), [], [0xD1, 0x00, 0x00, 0x00]);
  }

  lemma TestR14()
    ensures Encode(Alu(Test, W64, R(R14), From(R(R14))), Std) == [0x4D, 0x85, 0xF6]
  {
  }

  lemma Expected59c1ea()
    ensures WellFormed(Gate59c1ea()) && Assemble(Gate59c1ea()) == EXPECTED_59C1EA
  {
    hide Encode, WellFormed, Layout;
    var p := Gate59c1ea();
    EncodableGates();
    SpelledComparisons();
    SpelledJumps();
    TestRbx();
    TestR14();
    LaidNone(p);
    Laid(p, 0);
    Laid(p, 1);
    assert Layout(p, 2) == [0x49, 0x83, 0xFE, 0x41, 0x74, 0x2B];
    Laid(p, 2);
    Laid(p, 3);
    assert Layout(p, 4) == [0x49, 0x83, 0xFE, 0x41, 0x74, 0x2B, 0x48, 0x85, 0xDB, 0x74, 0x0D];
    Laid(p, 4);
    Laid(p, 5);
    assert Layout(p, 6) == EXPECTED_59C1EA;
  }

  /** The site is the comparison and the clearing of a vector register. */
  lemma Expected590cf1()
    ensures WellFormed(Compare590cf1()) && Assemble(Compare590cf1()) == EXPECTED_590CF1[..9]
    ensures Decoder.Decode(EXPECTED_590CF1[9..]) == Some(Decoder.Decoded(ClearVector, 3))
  {
    hide Encode, WellFormed, Layout;
    assert EXPECTED_590CF1[9..] == [0x0F, 0x57, 0xC0];
    assert Decoder.Decode([0x0F, 0x57, 0xC0]) == Some(Decoder.Decoded(ClearVector, 3));
    var p := Compare590cf1();
    EncodableGates();
    SpelledComparisons();
    SpelledJumps();
    LaidNone(p);
    Laid(p, 0);
    Laid(p, 1);
    assert Layout(p, 2) == EXPECTED_590CF1[..9];
  }

  /** The site is the block and a short jump over 24 bytes. */
  lemma Expected590ccb()
    ensures WellFormed(Compare590ccb()) && Assemble(Compare590ccb()) == EXPECTED_590CCB[..12]
    ensures Decoder.Decode(EXPECTED_590CCB[12..]) == Some(Decoder.Decoded(Jmp(0x18), 2))
  {
    hide Encode, WellFormed, Layout;
    assert EXPECTED_590CCB[12..] == [0xEB, 0x18];
    assert Decoder.Decode([0xEB, 0x18]) == Some(Decoder.Decoded(Jmp(0x18), 2));
    var p := Compare590ccb();
    Encodable590ccb();
    SpelledComparisons();
    SpelledJumps();
    TestDl();
    LoadEaxSecondary();
    LaidNone(p);
    Laid(p, 0);
    Laid(p, 1);
    assert Layout(p, 2) == [0x41, 0x3B, 0xC0, 0x75, 0x2A];
    Laid(p, 2);
    Laid(p, 3);
    assert Layout(p, 4) == [0x41, 0x3B, 0xC0, 0x75, 0x2A, 0x84, 0xD2, 0x74, 0x05];
    Laid(p, 4);
    assert Layout(p, 5) == EXPECTED_590CCB[..12];
  }

  const NULL_LOAD: Instr := Mov(W32, R(R8), From(M(None, None, X1, 0)))

  /** Four zero bytes are the displacement zero. */
  lemma ZeroField(b: seq<Byte>, at: nat)
    requires at + 4 <= |b| && b[at] == b[at + 1] == b[at + 2] == b[at + 3] == 0
    ensures Decoder.SignedField(b, at, 4) == Some(0)
  {
    hide Decoder.DwordOf;
    assert Decoder.DwordOf(b[at], b[at + 1], b[at + 2], b[at + 3]) == 0 by {
      ZeroDword(b[at], b[at + 1], b[at + 2], b[at + 3]);
    }
  }

  lemma ZeroDword(b0: int, b1: int, b2: int, b3: int)
    requires b0 == b1 == b2 == b3 == 0
    ensures Decoder.DwordOf(b0, b1, b2, b3) == 0
  {
  }

  lemma Displaced(b: seq<Byte>, at: nat, r: Reg, digit: nat, disp: int)
    requires Decoder.SignedField(b, at, 4) == Some(disp)
    ensures Decoder.WithDisplacement(b, at, 4, r, digit, None, None, X1)
            == Some(Decoder.ModRm(r, M(None, None, X1, disp), digit, at + 4))
  {
    hide Decoder.SignedField;
  }

  lemma NullOperand()
    ensures var rex := Decoder.ParseRex(EXPECTED_590C72);
            && rex.present && !rex.w
            && Decoder.ParseModRm(EXPECTED_590C72, 2, rex) == Some(Decoder.ModRm(R8, M(None, None, X1, 0), 0, 8))
  {
    hide Decoder.WithDisplacement, Decoder.SignedField;
    ZeroField(EXPECTED_590C72, 4);
    Displaced(EXPECTED_590C72, 4, R8, 0, 0);
  }

  lemma Displaced590c72()
    ensures Decoder.Decode(EXPECTED_590C72) == Some(Decoder.Decoded(NULL_LOAD, 8))
  {
    hide Decoder.ParseModRm, Decoder.ParseRex, Decoder.SignedField, Decoder.Field;
    NullOperand();
  }

  /** The first instruction displaced at 0x590C72 loads from address zero: it faults unless that is mapped. */
  lemma NullLoad590c72(next: U64, s: State)
    ensures Decoder.Decode(EXPECTED_590C72) == Some(Decoder.Decoded(NULL_LOAD, 8))
    ensures Exec(NULL_LOAD, next, s)
            == if Mapped(s.mem, 0, 4) then Running(next, SetReg(s, R8, Load32(s.mem, 0))) else Faulted
  {
    hide Mapped, Load, Decoder.Decode;
    Displaced590c72();
    assert Wrap(0) == 0;
  }

  /** The other two. */
  function Tail590c72(): Program {
    [Ins(Mov(W64, R(RCX), From(R(RSI))), Alt), Ins(Mov(W32, R(R9), From(At(RCX, 4))), Alt)]
  }

  lemma MovRcxRsi()
    ensures Encode(Mov(W64, R(RCX), From(R(RSI))), Alt) == [0x48, 0x8B, 0xCE]
  {
  }

  lemma LoadR9Rcx()
    ensures Encode(Mov(W32, R(R9), From(At(RCX, 4))), Alt) == [0x44, 0x8B, 0x49, 0x04]
  {
    hide Encode, Emit, WithModRm;
    Spell(Mov(W32, R(R9), From(At(RCX, 4))), Alt, Modded(W32, [0x8B], R9, At(RCX, 4), NoImm), [0x44], [0x49, 0x04], []);
  }

  lemma TailBytes590c72()
    ensures WellFormed(Tail590c72()) && Assemble(Tail590c72()) == EXPECTED_590C72[8..]
  {
    hide Encode, Layout;
    var p := Tail590c72();
    CodeLengthBound(p);
    assert WellFormed(p);
    hide WellFormed;
    MovRcxRsi();
    LoadR9Rcx();
    LaidNone(p);
    Laid(p, 0);
    Laid(p, 1);
    assert Layout(p, 2) == EXPECTED_590C72[8..];
  }

  lemma {:induction false} FetchBounded(m: Memory, a: U64, n: nat)
    ensures |Fetch(m, a, n)| <= n
    decreases n
  {
    if n > 0 && a in m {
      FetchBounded(m, Wrap(a + 1), n - 1);
    }
  }

  /** The tail, run at its place. */
  lemma RunsTail590c72(site: U64, s: State)
    requires HoldsCode(s.mem, site, EXPECTED_590C72[8..])
    ensures var p := Wrap(Get(s, RSI) + 4);
            if Mapped(s.mem, p, 4)
            then Reaches(Running(site, s), Running(Wrap(site + 7), SetReg(SetReg(s, RCX, Get(s, RSI)), R9, Load32(s.mem, p))))
            else Reaches(Running(site, s), Faulted)
  {
    hide ItemSteps, ItemStep, Exec, Encode, Wrap, Mapped, Load, HoldsCode, Assemble, WellFormed, Reaches, IntactThroughout, Offset;
    TailBytes590c72();
    var q := Tail590c72();
    assert |EXPECTED_590C72[8..]| == 7;
    assert CodeLength(q) == 7;
    ReadOnlyStaysIntact(q, site, AtItem(0, s), 3);
    Exactly(q, site, AtItem(0, s), 3);
    var t := Set(q, site, 0, s, 3, Get(s, RSI));
    var value := Field(t, Get(t, RCX) + 4, W32);
    ZeroOffset(q, site);
    if value.None? {
      SetFaults(q, site, 1, t, 2);
    } else {
      var u := Set(q, site, 1, t, 2, value.value);
      FallOff(q, site, u, 1);
    }
  }

  lemma ZeroOffset(q: Program, site: U64)
    ensures Wrap(site + Offset(q, 0)) == site
  {
  }

  lemma TailHeld590c72(m: Memory, site: U64)
    requires HoldsCode(m, site, EXPECTED_590C72)
    ensures HoldsCode(m, Wrap(site + 8), EXPECTED_590C72[8..])
  {
    hide HoldsCode;
    CodeSlice(m, site, EXPECTED_590C72, 8, 15);
    assert EXPECTED_590C72[8..15] == EXPECTED_590C72[8..];
  }

  /** The null load, fetched and executed. */
  lemma LoadsNull590c72(site: U64, s: State)
    requires HoldsCode(s.mem, site, EXPECTED_590C72)
    ensures if Mapped(s.mem, 0, 4) then Reaches(Running(site, s), Running(Wrap(site + 8), SetReg(s, R8, Load32(s.mem, 0))))
            else Reaches(Running(site, s), Faulted)
  {
    hide Mapped, Load, HoldsCode, Decoder.Decode, Exec;
    FetchFindsCode(s.mem, site, EXPECTED_590C72, LONGEST_INSTRUCTION);
    FetchBounded(s.mem, site, LONGEST_INSTRUCTION);
    assert Fetch(s.mem, site, LONGEST_INSTRUCTION) == EXPECTED_590C72;
    hide Fetch;
    NullLoad590c72(Wrap(site + 8), s);
    var o := Running(site, s);
    assert ByteSteps(o, 1) == ByteSteps(ByteStep(o), 0);
  }

  /**
   The whole displaced block, in every state: it needs the null page and the pointer in RSI, and
   unlike the stub it leaves RSI in RCX.
   */
  lemma Block590c72(site: U64, s: State)
    requires HoldsCode(s.mem, site, EXPECTED_590C72)
    ensures var p := Wrap(Get(s, RSI) + 4);
            if Mapped(s.mem, 0, 4) && Mapped(s.mem, p, 4)
            then Reaches(Running(site, s), Running(Wrap(site + 15),
                         SetReg(SetReg(SetReg(s, R8, Load32(s.mem, 0)), RCX, Get(s, RSI)), R9, Load32(s.mem, p))))
            else Reaches(Running(site, s), Faulted)
  {
    hide Mapped, Load, HoldsCode, Exec, Reaches, EXPECTED_590C72, Wrap;
    LoadsNull590c72(site, s);
    TailHeld590c72(s.mem, site);
    if Mapped(s.mem, 0, 4) {
      var o, t, p := Running(site, s), SetReg(s, R8, Load32(s.mem, 0)), Wrap(Get(s, RSI) + 4);
      RunsTail590c72(Wrap(site + 8), t);
      WrapAdd(site + 8, 7);
      if Mapped(s.mem, p, 4) {
        ReachesTransitive(o, Running(Wrap(site + 8), t), Running(Wrap(site + 15), SetReg(SetReg(t, RCX, Get(s, RSI)), R9, Load32(s.mem, p))));
      } else {
        ReachesTransitive(o, Running(Wrap(site + 8), t), Faulted);
      }
    }
  }

  /* ---------- the stubs ---------- */

  lemma ListingForced(exit: U64)
    ensures var p := Stub59c1ea(exit);
            && |p| == 4
            && p[0] == Ins(Mov(W32, R(R14), Imm(0x41)), Std)
            && p[1] == Ins(Mov(W64, At(RSP, 0x38), Imm(0x41)), Std)
            && ExitAt(p, 2, exit)
    ensures var p := Stub590c72(exit);
            && |p| == 4
            && p[0] == Ins(Mov(W32, R(R8), Imm(0xFFFF_FFFF)), Std)
            && p[1] == Ins(Mov(W32, R(R9), Imm(0xFFFF_FFFF)), Std)
            && ExitAt(p, 2, exit)
    ensures var p := Stub590cf1(exit);
            |p| == 3 && p[0] == Ins(Mov(W32, R(RAX), From(R(R9))), Std) && ExitAt(p, 1, exit)
  {
  }

  /** The state with a length of 65 in R14 and in its stack slot. */
  function WithLength(s: State): State
    requires Mapped(s.mem, Wrap(Get(s, RSP) + 0x38), 8)
  {
    var t := SetReg(s, R14, 0x41);
    t.(mem := Store(t.mem, Wrap(Get(s, RSP) + 0x38), 8, 0x41))
  }

  /** The length gate: always open, the length written to register and slot. */
  lemma Guard59c1ea(base: U64, s: State, a: U64, skip: U64, n: nat)
    requires n >= 4
    ensures var c := ItemSteps(Stub59c1ea(skip), base, AtItem(0, SetReg(s, RAX, a)), n);
            if Mapped(s.mem, Wrap(Get(s, RSP) + 0x38), 8) then LeftFor(c, skip, WithLength(s)) else c.Fault?
  {
    hide ItemSteps, ItemStep, Exec, Encode, Offset, Agree, ExitAt, Stub59c1ea, Mapped, Store, LeftFor, Wrap;
    ListingForced(skip);
    var p, s0 := Stub59c1ea(skip), SetReg(s, RAX, a);
    AgreeScratch(s, a, s.zf, s.cf);
    assert s0 == SetReg(s, RAX, a).(zf := s.zf, cf := s.cf);
    var s1 := Set(p, base, 0, s0, n, 0x41);
    AgreeSet(s0, s, R14, 0x41);
    AgreeOn(s1, SetReg(s, R14, 0x41), RSP);
    if Mapped(s.mem, Wrap(Get(s, RSP) + 0x38), 8) {
      var s2 := Put(p, base, 1, s1, n - 1, 0x41);
      AgreeStored(s1, SetReg(s, R14, 0x41), s2.mem);
      Exits(p, base, 2, s2, n - 2, skip, WithLength(s));
    } else {
      PutFaults(p, base, 1, s1, n - 1);
    }
  }

  lemma AgreeStored(s: State, t: State, m: Memory)
    requires Agree(s, t)
    ensures Agree(s.(mem := m), t.(mem := m))
  {
  }

  /** The sentinels: never faults; RCX keeps its value, which the block would have replaced. */
  lemma Guard590c72(base: U64, s: State, a: U64, resume: U64, n: nat)
    requires n >= 4
    ensures LeftFor(ItemSteps(Stub590c72(resume), base, AtItem(0, SetReg(s, RAX, a)), n), resume,
                    SetReg(SetReg(s, R8, 0xFFFF_FFFF), R9, 0xFFFF_FFFF))
  {
    hide ItemSteps, ItemStep, Exec, Encode, Offset, Agree, ExitAt, Stub590c72, LeftFor;
    ListingForced(resume);
    var p, s0 := Stub590c72(resume), SetReg(s, RAX, a);
    AgreeScratch(s, a, s.zf, s.cf);
    assert s0 == SetReg(s, RAX, a).(zf := s.zf, cf := s.cf);
    var s1 := Set(p, base, 0, s0, n, 0xFFFF_FFFF);
    AgreeSet(s0, s, R8, 0xFFFF_FFFF);
    var s2 := Set(p, base, 1, s1, n - 1, 0xFFFF_FFFF);
    AgreeSet(s1, SetReg(s, R8, 0xFFFF_FFFF), R9, 0xFFFF_FFFF);
    Exits(p, base, 2, s2, n - 2, resume, SetReg(SetReg(s, R8, 0xFFFF_FFFF), R9, 0xFFFF_FFFF));
  }

  /** The second comparison: nothing but RAX changes, and the value put there does not survive the exit. */
  lemma Guard590cf1(base: U64, s: State, a: U64, success: U64, n: nat)
    requires n >= 3
    ensures ItemSteps(Stub590cf1(success), base, AtItem(0, SetReg(s, RAX, a)), n) == Left(success, SetReg(s, RAX, success))
  {
    hide ItemSteps, ItemStep, Exec, Encode, Offset, Stub590cf1;
    ListingForced(success);
    var p, s0 := Stub590cf1(success), SetReg(s, RAX, a);
    var s1 := Set(p, base, 0, s0, n, Truncate(W32, Get(s, R9)));
    ExitTo(p, base, 1, s1, n - 1, success);
    assert SetReg(s1, RAX, success).regs == SetReg(s, RAX, success).regs;
  }

  /* ---------- where the displaced comparison holds ---------- */

  lemma GateOffsets()
    ensures Offset(Gate59c1ea(), 2) == 6 && Offset(Gate59c1ea(), 4) == 11 && CodeLength(Gate59c1ea()) == 16
  {
    hide Encode;
    SpelledComparisons();
    SpelledJumps();
    TestRbx();
    TestR14();
    assert Offset(Gate59c1ea(), 2) == 6;
    assert Offset(Gate59c1ea(), 4) == 11;
  }

  lemma Offset590cf1()
    ensures Offset(Compare590cf1(), 2) == CodeLength(Compare590cf1()) == 9
  {
    hide Encode;
    SpelledComparisons();
    SpelledJumps();
  }

  lemma Offsets590ccb()
    ensures Offset(Compare590ccb(), 2) == 5 && Offset(Compare590ccb(), 4) == 9 && CodeLength(Compare590ccb()) == 12
  {
    hide Encode;
    SpelledComparisons();
    SpelledJumps();
    TestDl();
    LoadEaxSecondary();
    assert Offset(Compare590ccb(), 2) == 5;
    assert Offset(Compare590ccb(), 4) == 9;
  }

  /** The displaced gate: on for length 65, else to one of two other places by whether there is anything to compare. */
  lemma Block59c1ea(site: U64, s: State, n: nat)
    requires n >= 7
    ensures var block := ItemSteps(Gate59c1ea(), site, AtItem(0, s), n);
            && block.Left? && Agree(block.s, s)
            && block.rip == Wrap(site + if Get(s, R14) == 0x41 then 0x31 else if Get(s, RBX) == 0 || Get(s, R14) == 0 then 0x18 else 16)
  {
    hide ItemSteps, ItemStep, Exec, Encode, Offset, Agree, Wrap, CodeLength;
    var q := Gate59c1ea();
    GateOffsets();
    var s1 := Compare(q, site, 0, s, n, Get(s, R14), 0x41);
    DecideOut(q, site, 1, s1, n - 1);
    WrapAdd(site + 6, 0x2B);
    AgreeFlagged(s, s1.zf, s1.cf);
    if Get(s, R14) != 0x41 {
      var s2 := TestSelf(q, site, 2, s1, n - 2);
      DecideOut(q, site, 3, s2, n - 3);
      WrapAdd(site + 11, 0x0D);
      AgreeFlagged(s, s2.zf, s2.cf);
      if Get(s, RBX) != 0 {
        var s3 := TestSelf(q, site, 4, s2, n - 4);
        DecideOut(q, site, 5, s3, n - 5);
        WrapAdd(site + 16, 0x08);
        AgreeFlagged(s, s3.zf, s3.cf);
        GateEnd(site);
        if Get(s, R14) != 0 {
          FallOff(q, site, s3, n - 6);
        }
      }
    }
  }

  lemma GateEnd(site: U64)
    ensures |Gate59c1ea()| == 6 && Next(Gate59c1ea(), site, 5) == Wrap(site + CodeLength(Gate59c1ea()))
  {
    hide Encode;
  }

  lemma GateTargetsApart(site: U64)
    ensures Wrap(site + 0x31) != Wrap(site + 0x18) && Wrap(site + 0x31) != Wrap(site + 16)
  {
  }

  /**
   With its slot mapped, the stub goes where the displaced gate goes if and only if the record has
   the right length; then they differ in the slot only.
   */
  lemma OpenGate59c1ea(base: U64, site: U64, s: State, a: U64, n: nat)
    requires n >= 7
    ensures var block := ItemSteps(Gate59c1ea(), site, AtItem(0, s), n);
            var c := ItemSteps(Stub59c1ea(Wrap(site + 0x31)), base, AtItem(0, SetReg(s, RAX, a)), n);
            var mapped := Mapped(s.mem, Wrap(Get(s, RSP) + 0x38), 8);
            && block.Left? && Agree(block.s, s)
            && (c.Left? && c.rip == block.rip <==> mapped && Get(s, R14) == 0x41)
            && (mapped ==> LeftFor(c, Wrap(site + 0x31), WithLength(s)))
  {
    hide ItemSteps, ItemStep, Exec, Encode, Offset, Agree, Stub59c1ea, Gate59c1ea, Mapped, WithLength, Wrap;
    Guard59c1ea(base, s, a, Wrap(site + 0x31), n);
    Block59c1ea(site, s, n);
    GateTargetsApart(site);
  }

  /**
   The displaced comparison goes where the stub goes, with the same registers but RAX, if and only
   if it is equal; otherwise it goes on behind its branch.
   */
  lemma Equal590cf1(base: U64, site: U64, s: State, a: U64, n: nat)
    requires n >= 3
    ensures var block := ItemSteps(Compare590cf1(), site, AtItem(0, s), n);
            var c := ItemSteps(Stub590cf1(Wrap(site + 0xDA)), base, AtItem(0, SetReg(s, RAX, a)), n);
            var equal := Truncate(W32, Get(s, RAX)) == Truncate(W32, Get(s, R9));
            && block.Left? && block.rip == Wrap(site + if equal then 0xDA else 9)
            && (SameWay(c, block) <==> equal)
  {
    hide ItemSteps, ItemStep, Exec, Encode, Offset, Agree, Stub590cf1, Truncate, Wrap, CodeLength;
    var target := Wrap(site + 0xDA);
    Guard590cf1(base, s, a, target, n);
    var t := ComparesSecond(site, s, n);
    AgreeScratch(s, target, s.zf, s.cf);
    assert SetReg(s, RAX, target) == SetReg(s, RAX, target).(zf := s.zf, cf := s.cf);
    AgreeTransitive(SetReg(s, RAX, target), s, t);
    SecondTargetsApart(site);
  }

  lemma SecondTargetsApart(site: U64)
    ensures Wrap(site + 0xDA) != Wrap(site + 9)
  {
  }

  /** The displaced comparison, run. */
  lemma ComparesSecond(site: U64, s: State, n: nat) returns (t: State)
    requires n >= 3
    ensures Agree(t, s) && Agree(s, t)
    ensures ItemSteps(Compare590cf1(), site, AtItem(0, s), n)
            == Left(Wrap(site + if Truncate(W32, Get(s, RAX)) == Truncate(W32, Get(s, R9)) then 0xDA else 9), t)
  {
    hide ItemSteps, ItemStep, Exec, Encode, Offset, Agree, Truncate, Wrap, CodeLength;
    var q, v, w := Compare590cf1(), Truncate(W32, Get(s, RAX)), Truncate(W32, Get(s, R9));
    Offset590cf1();
    t := Compare(q, site, 0, s, n, v, w);
    DecideOut(q, site, 1, t, n - 1);
    WrapAdd(site + 9, 0xD1);
    AgreeFlagged(s, t.zf, t.cf);
    AgreeTransitive(t, s, s) by {
      AgreeFlagged(s, s.zf, s.cf);
    }
    if v != w {
      FallOff(q, site, t, n - 2);
    }
  }

  /**
   What becomes of the inline value: the stub of the first comparison leaves for the second with
   the exit's own address in RAX, so the unpatched second comparison finds R9 equal exactly when
   its low half is that address's.
   */
  lemma InlineValueLost(base: U64, s: State, a: U64, resume: U64, second: U64, n: nat)
    requires n >= 7 && Truncate(W8, Get(s, RDX)) != 0 && Mapped(s.mem, Wrap(Get(s, RDI) + 0x20), 4)
    ensures var c := ItemSteps(Stub590ccb(resume, second), base, AtItem(0, SetReg(s, RAX, a)), n);
            && c.Left? && c.rip == second
            && var next := ItemSteps(Compare590cf1(), second, AtItem(0, c.s), n);
               next.Left? && next.rip == Wrap(second + if Truncate(W32, second) == Truncate(W32, Get(s, R9)) then 0xDA else 9)
  {
    hide ItemSteps, ItemStep, Exec, Encode, Offset, Agree, Stub590ccb, Compare590cf1, Truncate, Wrap, CodeLength, Mapped;
    Guard590ccb(base, s, a, resume, second, n);
    var c := ItemSteps(Stub590ccb(resume, second), base, AtItem(0, SetReg(s, RAX, a)), n);
    AgreeOn(c.s, SetReg(s, RCX, Truncate(W32, Get(s, RBX))), R9);
    var t := ComparesSecond(second, c.s, n);
  }

  /** The state with the low half of RBX in RCX. */
  function WithCopy(s: State): State {
    SetReg(s, RCX, Truncate(W32, Get(s, RBX)))
  }

  lemma CopyIs(s: State)
    ensures WithCopy(s) == SetReg(s, RCX, Truncate(W32, Get(s, RBX)))
  {
  }

  lemma MovesOn(c: Control, target: U64, s: State, t: State)
    requires LeftFor(c, target, WithCopy(s)) && Agree(t, s)
    ensures LeftFor(c, target, WithCopy(t))
  {
    hide Agree, Truncate;
    AgreeOn(t, s, RBX);
    AgreeSet(t, s, RCX, Truncate(W32, Get(s, RBX)));
    AgreeTransitive(WithCopy(t), WithCopy(s), WithCopy(s)) by {
      AgreeFlagged(WithCopy(s), WithCopy(s).zf, WithCopy(s).cf);
    }
    AgreeTransitive(c.s, WithCopy(s), WithCopy(t));
  }

  /** Block and stub fault together, resume together, or go on to the second comparison together, RAX and ECX aside. */
  predicate GoesAlong590ccb(c: Control, block: Control, site: U64, resume: U64, success: U64) {
    || (c.Fault? && block.Fault?)
    || (block.Left? && block.rip == Wrap(site + 14) && LeftFor(c, resume, WithCopy(block.s)))
    || (block.Left? && block.rip == Wrap(site + 12) && LeftFor(c, success, WithCopy(block.s)))
  }

  /**
   The block goes on behind itself when DL is zero and to its closing jump when the inline value
   can be loaded, and faults when it cannot. The stub does the same if and only if the displaced
   comparison is equal; otherwise the block takes its first branch.
   */
  lemma Equal590ccb(base: U64, site: U64, s: State, a: U64, resume: U64, success: U64, n: nat)
    requires n >= 7
    ensures var block := ItemSteps(Compare590ccb(), site, AtItem(0, s), n);
            var c := ItemSteps(Stub590ccb(resume, success), base, AtItem(0, SetReg(s, RAX, a)), n);
            var equal := Truncate(W32, Get(s, RAX)) == Truncate(W32, Get(s, R8));
            && (GoesAlong590ccb(c, block, site, resume, success) <==> equal)
            && (!equal ==> block.Left? && block.rip == Wrap(site + 0x2F))
            && (equal ==> if Truncate(W8, Get(s, RDX)) == 0 then block.Left? && block.rip == Wrap(site + 14)
                          else block.Left? ==> block.rip == Wrap(site + 12))
  {
    hide ItemSteps, ItemStep, Exec, Encode, Offset, Agree, Stub590ccb, Compare590ccb, Truncate, LeftFor, WithCopy, Mapped, Load, CodeLength, Wrap;
    if Truncate(W32, Get(s, RAX)) == Truncate(W32, Get(s, R8)) {
      EqualFirst590ccb(base, site, s, a, resume, success, n);
    } else {
      UnequalFirst590ccb(site, s, n);
      FirstTargetsApart(site);
    }
  }

  lemma FirstTargetsApart(site: U64)
    ensures Wrap(site + 0x2F) != Wrap(site + 14) && Wrap(site + 0x2F) != Wrap(site + 12)
  {
  }

  lemma UnequalFirst590ccb(site: U64, s: State, n: nat)
    requires n >= 2 && Truncate(W32, Get(s, RAX)) != Truncate(W32, Get(s, R8))
    ensures var block := ItemSteps(Compare590ccb(), site, AtItem(0, s), n);
            block.Left? && block.rip == Wrap(site + 0x2F)
  {
    hide ItemSteps, ItemStep, Exec, Encode, Offset, Truncate, Wrap, CodeLength;
    var q := Compare590ccb();
    Offsets590ccb();
    var s1 := Compare(q, site, 0, s, n, Truncate(W32, Get(s, RAX)), Truncate(W32, Get(s, R8)));
    DecideOut(q, site, 1, s1, n - 1);
    WrapAdd(site + 5, 0x2A);
  }

  lemma EqualFirst590ccb(base: U64, site: U64, s: State, a: U64, resume: U64, success: U64, n: nat)
    requires n >= 7 && Truncate(W32, Get(s, RAX)) == Truncate(W32, Get(s, R8))
    ensures var block := ItemSteps(Compare590ccb(), site, AtItem(0, s), n);
            var c := ItemSteps(Stub590ccb(resume, success), base, AtItem(0, SetReg(s, RAX, a)), n);
            if Truncate(W8, Get(s, RDX)) == 0 then
              block.Left? && block.rip == Wrap(site + 14) && LeftFor(c, resume, WithCopy(block.s))
            else if block.Left? then block.rip == Wrap(site + 12) && LeftFor(c, success, WithCopy(block.s))
            else block.Fault? && c.Fault?
  {
    hide ItemSteps, ItemStep, Exec, Encode, Offset, Agree, Stub590ccb, Truncate, LeftFor, WithCopy, Mapped, Load, CodeLength;
    var q, v := Compare590ccb(), Truncate(W32, Get(s, R8));
    Guard590ccb(base, s, a, resume, success, n);
    CopyIs(s);
    Offsets590ccb();
    var s1 := Compare(q, site, 0, s, n, v, v);
    DecideOut(q, site, 1, s1, n - 1);
    var s2 := TestSelf(q, site, 2, s1, n - 2);
    DecideOut(q, site, 3, s2, n - 3);
    AgreeFlagged(s, s2.zf, s2.cf);
    if Truncate(W8, Get(s, RDX)) == 0 {
      WrapAdd(site + 9, 5);
      MovesOn(ItemSteps(Stub590ccb(resume, success), base, AtItem(0, SetReg(s, RAX, a)), n), resume, s, s2);
    } else {
      var value := Field(s, Get(s, RDI) + 0x20, W32);
      if value.None? {
        SetFaults(q, site, 4, s2, n - 4);
      } else {
        var s3 := Set(q, site, 4, s2, n - 4, value.value);
        FallOff(q, site, s3, n - 5);
        AgreeScratch(s2, value.value, s2.zf, s2.cf);
        assert s3 == SetReg(s2, RAX, value.value).(zf := s2.zf, cf := s2.cf);
        AgreeTransitive(s3, s2, s);
        MovesOn(ItemSteps(Stub590ccb(resume, success), base, AtItem(0, SetReg(s, RAX, a)), n), success, s, s3);
      }
    }
  }
}
