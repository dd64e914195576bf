/**
 The hexadecimal spelling of every instruction the stubs and the displaced blocks contain: one
 lemma per instruction, tying the bytes in the source to the mnemonic in the comment beside them.
 */
module Spelling {
  import opened Wrappers
  import opened Words
  import opened Machine
  import opened InstructionEncoding

  function At(base: Reg, disp: int): Operand {
    M(Some(base), None, X1, disp)
  }

  function AtIndex(base: Reg, index: Reg, disp: int): Operand {
    M(Some(base), Some(index), X1, disp)
  }

  /** An instruction with a ModR/M byte is its prefix, opcode, operand bytes and immediate. */
  lemma Spell(i: Instr, form: Form, plan: Plan, rex: seq<Byte>, modrm: seq<Byte>, imm: seq<Byte>)
    requires Encodable(i, form) && plan.Modded? && EncodableOperand(plan.rm) && PlanOf(i, form) == plan
    requires RexBytes(OperandRex(plan.w, plan.reg, plan.rm)) == rex
    requires ModRmBytes(plan.reg, plan.rm) == modrm
    requires ImmediateBytes(plan.imm) == imm
    ensures Encode(i, form) == rex + plan.opcode + modrm + imm
  {
    hide Encodable, PlanOf, EncodableOperand, OperandRex, RexBytes, ModRmBytes, ImmediateBytes;
  }

  /** One without is prefix, opcode and immediate. */
  lemma SpellPlain(i: Instr, form: Form, plan: Plan, rex: seq<Byte>, imm: seq<Byte>)
    requires Encodable(i, form) && plan.Plain? && PlanOf(i, form) == plan
    requires RexBytes(RexOf(plan.w, false, false, plan.r)) == rex
    requires ImmediateBytes(plan.imm) == imm
    ensures Encode(i, form) == rex + plan.opcode + imm
  {
    hide Encodable, PlanOf, RexOf, RexBytes, ImmediateBytes;
  }

  lemma TestRbx()
    ensures Encode(Alu(Test, W64, R(RBX), From(R(RBX))), Std) == [0x48, 0x85, 0xDB]
  {
  }

  lemma CmpRbxR12()
    ensures Encode(Alu(Cmp, W64, R(RBX), From(R(R12))), Std) == [0x4C, 0x39, 0xE3]
  {
  }

  lemma LoadRdxRbx()
    ensures Encode(Mov(W64, R(RDX), From(At(RBX, 0x10))), Alt) == [0x48, 0x8B, 0x53, 0x10]
  {
  }

  lemma LeaRcxRsp()
    ensures Encode(Lea(W64, RCX, At(RSP, 0x40)), Std) == [0x48, 0x8D, 0x4C, 0x24, 0x40]
  {
  }

  lemma StoreRspR12()
    ensures Encode(Mov(W64, At(RSP, 0x48), From(R(R12))), Std) == [0x4C, 0x89, 0x64, 0x24, 0x48]
  {
  }

  lemma LoadRdxTable()
    ensures Encode(Mov(W64, R(RDX), From(At(RCX, 0x30D0))), Alt) == [0x48, 0x8B, 0x91, 0xD0, 0x30, 0x00, 0x00]
  {
    hide Encode, Emit, WithModRm;
    Spell(Mov(W64, R(RDX), From(At(RCX, 0x30D0))), Alt, Modded(W64, [0x8B], RDX, At(RCX, 0x30D0), NoImm), [0x48], [0x91, 0xD0, 0x30, 0x00, 0x00], []);
  }

  lemma TestRdx()
    ensures Encode(Alu(Test, W64, R(RDX), From(R(RDX))), Std) == [0x48, 0x85, 0xD2]
  {
  }

  lemma CmpR10Length()
    ensures Encode(Alu(Cmp, W64, R(R10), From(At(RDX, 0x10))), Alt) == [0x4C, 0x3B, 0x52, 0x10]
  {
  }

  lemma SetR8Sentinel()
    ensures Encode(Mov(W32, R(R8), Imm(0xFFFF_FFFF)), Std) == [0x41, 0xB8, 0xFF, 0xFF, 0xFF, 0xFF]
  {
    hide Encode, Emit, WithModRm;
    SpellPlain(Mov(W32, R(R8), Imm(0xFFFF_FFFF)), Std, Plain(W32, [0xB8], true, Imm32(0xFFFF_FFFF)), [0x41], [0xFF, 0xFF, 0xFF, 0xFF]);
  }

  lemma SetR9Sentinel()
    ensures Encode(Mov(W32, R(R9), Imm(0xFFFF_FFFF)), Std) == [0x41, 0xB9, 0xFF, 0xFF, 0xFF, 0xFF]
  {
    hide Encode, Emit, WithModRm;
    SpellPlain(Mov(W32, R(R9), Imm(0xFFFF_FFFF)), Std, Plain(W32, [0xB9], true, Imm32(0xFFFF_FFFF)), [0x41], [0xFF, 0xFF, 0xFF, 0xFF]);
  }

  lemma JaeShort0D()
    ensures Encode(Jcc(AE, 0x0D), Alt) == [0x73, 0x0D]
  {
  }

  lemma LoadRaxTable()
    ensures Encode(Mov(W64, R(RAX), From(At(RCX, 0x30D0))), Alt) == [0x48, 0x8B, 0x81, 0xD0, 0x30, 0x00, 0x00]
  {
    hide Encode, Emit, WithModRm;
    Spell(Mov(W64, R(RAX), From(At(RCX, 0x30D0))), Alt, Modded(W64, [0x8B], RAX, At(RCX, 0x30D0), NoImm), [0x48], [0x81, 0xD0, 0x30, 0x00, 0x00], []);
  }

  lemma TestRax()
    ensures Encode(Alu(Test, W64, R(RAX), From(R(RAX))), Std) == [0x48, 0x85, 0xC0]
  {
  }

  lemma MovEdxR13()
    ensures Encode(Mov(W32, R(RDX), From(R(R13))), Alt) == [0x41, 0x8B, 0xD5]
  {
  }

  lemma LoadR12Rax()
    ensures Encode(Mov(W32, R(R12), From(At(RAX, 0))), Alt) == [0x44, 0x8B, 0x20]
  {
  }

  lemma SetR14Length()
    ensures Encode(Mov(W32, R(R14), Imm(0x41)), Std) == [0x41, 0xBE, 0x41, 0x00, 0x00, 0x00]
  {
    hide Encode, Emit, WithModRm;
    SpellPlain(Mov(W32, R(R14), Imm(0x41)), Std, Plain(W32, [0xBE], true, Imm32(0x41)), [0x41], [0x41, 0x00, 0x00, 0x00]);
  }

  lemma StoreLength()
    ensures Encode(Mov(W64, At(RSP, 0x38), Imm(0x41)), Std) == [0x48, 0xC7, 0x44, 0x24, 0x38, 0x41, 0x00, 0x00, 0x00]
  {
    hide Encode, Emit, WithModRm;
    Spell(Mov(W64, At(RSP, 0x38), Imm(0x41)), Std, Modded(W64, [0xC7], RAX, At(RSP, 0x38), Imm32(0x41)), [0x48], [0x44, 0x24, 0x38], [0x41, 0x00, 0x00, 0x00]);
  }

  lemma TestEdx()
    ensures Encode(Alu(Test, W32, R(RDX), From(R(RDX))), Std) == [0x85, 0xD2]
  {
  }

  lemma PushR9()
    ensures Encode(Push(R9), Std) == [0x41, 0x51]
  {
  }

  lemma PushR10()
    ensures Encode(Push(R10), Std) == [0x41, 0x52]
  {
  }

  lemma PushR11()
    ensures Encode(Push(R11), Std) == [0x41, 0x53]
  {
  }

  lemma LeaR11Rbx()
    ensures Encode(Lea(W64, R11, At(RBX, 1)), Std) == [0x4C, 0x8D, 0x5B, 0x01]
  {
  }

  lemma MovR9Rcx()
    ensures Encode(Mov(W64, R(R9), From(R(RCX))), Std) == [0x49, 0x89, 0xC9]
  {
  }

  lemma SetR10Count()
    ensures Encode(Mov(W32, R(R10), Imm(0x40)), Std) == [0x41, 0xBA, 0x40, 0x00, 0x00, 0x00]
  {
    hide Encode, Emit, WithModRm;
    SpellPlain(Mov(W32, R(R10), Imm(0x40)), Std, Plain(W32, [0xBA], true, Imm32(0x40)), [0x41], [0x40, 0x00, 0x00, 0x00]);
  }

  lemma LoadAlR9()
    ensures Encode(Mov(W8, R(RAX), From(At(R9, 0))), Alt) == [0x41, 0x8A, 0x01]
  {
  }

  lemma StoreR11Al()
    ensures Encode(Mov(W8, At(R11, 0), From(R(RAX))), Std) == [0x41, 0x88, 0x03]
  {
  }

  lemma IncR9()
    ensures Encode(Inc(W64, R(R9)), Std) == [0x49, 0xFF, 0xC1]
  {
  }

  lemma IncR11()
    ensures Encode(Inc(W64, R(R11)), Std) == [0x49, 0xFF, 0xC3]
  {
  }

  lemma SubR10One()
    ensures Encode(Alu(Sub, W32, R(R10), Imm(1)), Std) == [0x41, 0x83, 0xEA, 0x01]
  {
  }

  lemma PopR11()
    ensures Encode(Pop(R11), Std) == [0x41, 0x5B]
  {
  }

  lemma PopR10()
    ensures Encode(Pop(R10), Std) == [0x41, 0x5A]
  {
  }

  lemma PopR9()
    ensures Encode(Pop(R9), Std) == [0x41, 0x59]
  {
  }

  lemma LoadCompared()
    ensures Encode(Movzx(W32, RAX, AtIndex(R8, RCX, 1)), Std) == [0x41, 0x0F, 0xB6, 0x44, 0x08, 0x01]
  {
  }

  lemma CmpRcxAl()
    ensures Encode(Alu(Cmp, W8, At(RCX, 0), From(R(RAX))), Std) == [0x38, 0x01]
  {
  }

  lemma JneNearFail()
    ensures Encode(Jcc(NE, 0x3A1), Std) == [0x0F, 0x85, 0xA1, 0x03, 0x00, 0x00]
  {
    hide Encode, Emit, WithModRm;
    SpellPlain(Jcc(NE, 0x3A1), Std, Plain(W32, [0x0F, 0x85], false, Imm32(0x3A1)), [], [0xA1, 0x03, 0x00, 0x00]);
  }

  lemma TestR15()
    ensures Encode(Alu(Test, W64, R(R15), From(R(R15))), Std) == [0x4D, 0x85, 0xFF]
  {
  }

  lemma CmpKind()
    ensures Encode(Alu(Cmp, W32, At(R15, 0), Imm(0x42)), Std) == [0x41, 0x83, 0x3F, 0x42]
  {
    hide Encode, Emit, WithModRm;
    Spell(Alu(Cmp, W32, At(R15, 0), Imm(0x42)), Std, Modded(W32, [0x83], RDI, At(R15, 0), Imm8(0x42)), [0x41], [0x3F], [0x42]);
  }

  lemma CmpCount()
    ensures Encode(Alu(Cmp, W64, At(R15, 0x10), Imm(0x43)), Std) == [0x49, 0x83, 0x7F, 0x10, 0x43]
  {
    hide Encode, Emit, WithModRm;
    Spell(Alu(Cmp, W64, At(R15, 0x10), Imm(0x43)), Std, Modded(W64, [0x83], RDI, At(R15, 0x10), Imm8(0x43)), [0x49], [0x7F, 0x10], [0x43]);
  }

  lemma CmpEntries()
    ensures Encode(Alu(Cmp, W64, At(R15, 0x18), Imm(0)), Std) == [0x49, 0x83, 0x7F, 0x18, 0x00]
  {
    hide Encode, Emit, WithModRm;
    Spell(Alu(Cmp, W64, At(R15, 0x18), Imm(0)), Std, Modded(W64, [0x83], RDI, At(R15, 0x18), Imm8(0)), [0x49], [0x7F, 0x18], [0x00]);
  }

  lemma StoreRaxR15()
    ensures Encode(Mov(W64, At(RAX, 0), From(R(R15))), Std) == [0x4C, 0x89, 0x38]
  {
  }

  lemma MovEcxEbx()
    ensures Encode(Mov(W32, R(RCX), From(R(RBX))), Std) == [0x89, 0xD9]
  {
  }

  lemma MovEaxR8()
    ensures Encode(Mov(W32, R(RAX), From(R(R8))), Std) == [0x44, 0x89, 0xC0]
  {
  }

  lemma TestDl()
    ensures Encode(Alu(Test, W8, R(RDX), From(R(RDX))), Std) == [0x84, 0xD2]
  {
  }

  lemma LoadEaxSecondary()
    ensures Encode(Mov(W32, R(RAX), From(At(RDI, 0x20))), Alt) == [0x8B, 0x47, 0x20]
  {
  }

  lemma MovEaxR9()
    ensures Encode(Mov(W32, R(RAX), From(R(R9))), Std) == [0x44, 0x89, 0xC8]
  {
  }

  lemma LoadPromoted()
    ensures Encode(Movzx(W32, R9, At(R15, 0x7734)), Std) == [0x45, 0x0F, 0xB6, 0x8F, 0x34, 0x77, 0x00, 0x00]
  {
    hide Encode, Emit, WithModRm;
    Spell(Movzx(W32, R9, At(R15, 0x7734)), Std, Modded(W32, [0x0F, 0xB6], R9, At(R15, 0x7734), NoImm), [0x45], [0x8F, 0x34, 0x77, 0x00, 0x00], []);
  }

  lemma LeaRecord()
    ensures Encode(Lea(W64, R8, At(R15, 0x7710)), Std) == [0x4D, 0x8D, 0x87, 0x10, 0x77, 0x00, 0x00]
  {
    hide Encode, Emit, WithModRm;
    Spell(Lea(W64, R8, At(R15, 0x7710)), Std, Modded(W64, [0x8D], R8, At(R15, 0x7710), NoImm), [0x4D], [0x87, 0x10, 0x77, 0x00, 0x00], []);
  }

  lemma TestR9b()
    ensures Encode(Alu(Test, W8, R(R9), From(R(R9))), Std) == [0x45, 0x84, 0xC9]
  {
  }

  lemma CmpVectorZero()
    ensures Encode(Alu(Cmp, W64, At(R15, 0x77D8), Imm(0)), Std) == [0x49, 0x83, 0xBF, 0xD8, 0x77, 0x00, 0x00, 0x00]
  {
    hide Encode, Emit, WithModRm;
    Spell(Alu(Cmp, W64, At(R15, 0x77D8), Imm(0)), Std, Modded(W64, [0x83], RDI, At(R15, 0x77D8), Imm8(0)), [0x49], [0xBF, 0xD8, 0x77, 0x00, 0x00], [0x00]);
  }

  lemma TestRdi()
    ensures Encode(Alu(Test, W64, R(RDI), From(R(RDI))), Std) == [0x48, 0x85, 0xFF]
  {
  }

  lemma CmpPathFlag()
    ensures Encode(Alu(Cmp, W8, At(RDI, 0x24), Imm(0)), Std) == [0x80, 0x7F, 0x24, 0x00]
  {
    hide Encode, Emit, WithModRm;
    Spell(Alu(Cmp, W8, At(RDI, 0x24), Imm(0)), Std, Modded(W8, [0x80], RDI, At(RDI, 0x24), Imm8(0)), [], [0x7F, 0x24], [0x00]);
  }

  lemma CmpPrimary()
    ensures Encode(Alu(Cmp, W32, At(RDI, 0), Imm(0)), Std) == [0x83, 0x3F, 0x00]
  {
    hide Encode, Emit, WithModRm;
    Spell(Alu(Cmp, W32, At(RDI, 0), Imm(0)), Std, Modded(W32, [0x83], RDI, At(RDI, 0), Imm8(0)), [], [0x3F], [0x00]);
  }

  lemma CmpSecondary()
    ensures Encode(Alu(Cmp, W32, At(RDI, 0x20), Imm(0)), Std) == [0x83, 0x7F, 0x20, 0x00]
  {
    hide Encode, Emit, WithModRm;
    Spell(Alu(Cmp, W32, At(RDI, 0x20), Imm(0)), Std, Modded(W32, [0x83], RDI, At(RDI, 0x20), Imm8(0)), [], [0x7F, 0x20], [0x00]);
  }

  lemma LoadEaxPrimary()
    ensures Encode(Mov(W32, R(RAX), From(At(RDI, 0))), Alt) == [0x8B, 0x07]
  {
  }

  lemma StorePrimary()
    ensures Encode(Mov(W32, At(R15, 0x7710), From(R(RAX))), Std) == [0x41, 0x89, 0x87, 0x10, 0x77, 0x00, 0x00]
  {
    hide Encode, Emit, WithModRm;
    Spell(Mov(W32, At(R15, 0x7710), From(R(RAX))), Std, Modded(W32, [0x89], RAX, At(R15, 0x7710), NoImm), [0x41], [0x87, 0x10, 0x77, 0x00, 0x00], []);
  }

  lemma StoreSecondary()
    ensures Encode(Mov(W32, At(R15, 0x7730), From(R(RAX))), Std) == [0x41, 0x89, 0x87, 0x30, 0x77, 0x00, 0x00]
  {
    hide Encode, Emit, WithModRm;
    Spell(Mov(W32, At(R15, 0x7730), From(R(RAX))), Std, Modded(W32, [0x89], RAX, At(R15, 0x7730), NoImm), [0x41], [0x87, 0x30, 0x77, 0x00, 0x00], []);
  }

  lemma StorePromoted()
    ensures Encode(Mov(W8, At(R15, 0x7734), Imm(1)), Std) == [0x41, 0xC6, 0x87, 0x34, 0x77, 0x00, 0x00, 0x01]
  {
    hide Encode, Emit, WithModRm;
    Spell(Mov(W8, At(R15, 0x7734), Imm(1)), Std, Modded(W8, [0xC6], RAX, At(R15, 0x7734), Imm8(1)), [0x41], [0x87, 0x34, 0x77, 0x00, 0x00], [0x01]);
  }

  lemma CmpFirstVector()
    ensures Encode(Alu(Cmp, W64, At(RDI, 0x98), Imm(0)), Std) == [0x48, 0x83, 0xBF, 0x98, 0x00, 0x00, 0x00, 0x00]
  {
    hide Encode, Emit, WithModRm;
    Spell(Alu(Cmp, W64, At(RDI, 0x98), Imm(0)), Std, Modded(W64, [0x83], RDI, At(RDI, 0x98), Imm8(0)), [0x48], [0xBF, 0x98, 0x00, 0x00, 0x00], [0x00]);
  }

  lemma CmpSecondVector()
    ensures Encode(Alu(Cmp, W64, At(RDI, 0xC8), Imm(0)), Std) == [0x48, 0x83, 0xBF, 0xC8, 0x00, 0x00, 0x00, 0x00]
  {
    hide Encode, Emit, WithModRm;
    Spell(Alu(Cmp, W64, At(RDI, 0xC8), Imm(0)), Std, Modded(W64, [0x83], RDI, At(RDI, 0xC8), Imm8(0)), [0x48], [0xBF, 0xC8, 0x00, 0x00, 0x00], [0x00]);
  }

  lemma CmpVectorRsi()
    ensures Encode(Alu(Cmp, W64, At(R15, 0x77D8), From(R(RSI))), Std) == [0x49, 0x39, 0xB7, 0xD8, 0x77, 0x00, 0x00]
  {
    hide Encode, Emit, WithModRm;
    Spell(Alu(Cmp, W64, At(R15, 0x77D8), From(R(RSI))), Std, Modded(W64, [0x39], RSI, At(R15, 0x77D8), NoImm), [0x49], [0xB7, 0xD8, 0x77, 0x00, 0x00], []);
  }

  lemma JneShort0D()
    ensures Encode(Jcc(NE, 0x0D), Alt) == [0x75, 0x0D]
  {
  }

  lemma JeNearBD()
    ensures Encode(Jcc(E, 0xBD), Std) == [0x0F, 0x84, 0xBD, 0x00, 0x00, 0x00]
  {
    hide Encode, Emit, WithModRm;
    SpellPlain(Jcc(E, 0xBD), Std, Plain(W32, [0x0F, 0x84], false, Imm32(0xBD)), [], [0xBD, 0x00, 0x00, 0x00]);
  }

  lemma ShlRaxFive()
    ensures Encode(Shift(Shl, W64, R(RAX), 5), Std) == [0x48, 0xC1, 0xE0, 0x05]
  {
  }

  lemma LoadSlot()
    ensures Encode(Mov(W64, R(RAX), From(AtIndex(RAX, R11, 0x1_0C10))), Alt) == [0x4A, 0x8B, 0x84, 0x18, 0x10, 0x0C, 0x01, 0x00]
  {
    hide Encode, Emit, WithModRm;
    Spell(Mov(W64, R(RAX), From(AtIndex(RAX, R11, 0x1_0C10))), Alt, Modded(W64, [0x8B], RAX, AtIndex(RAX, R11, 0x1_0C10), NoImm), [0x4A], [0x84, 0x18, 0x10, 0x0C, 0x01, 0x00], []);
  }

  lemma CmpRaxMinusOne()
    ensures Encode(Alu(Cmp, W64, R(RAX), Imm(-1)), Std) == [0x48, 0x83, 0xF8, 0xFF]
  {
  }

  lemma CmpRax64K()
    ensures Encode(Alu(Cmp, W64, R(RAX), Imm(0x1_0000)), Std) == [0x48, 0x3D, 0x00, 0x00, 0x01, 0x00]
  {
    hide Encode, Emit, WithModRm;
    SpellPlain(Alu(Cmp, W64, R(RAX), Imm(0x1_0000)), Std, Plain(W64, [0x3D], false, Imm32(0x1_0000)), [0x48], [0x00, 0x00, 0x01, 0x00]);
  }

  lemma LoadState()
    ensures Encode(Movzx(W32, RDX, AtIndex(RAX, RBX, 1)), Std) == [0x0F, 0xB6, 0x54, 0x18, 0x01]
  {
  }

  lemma XorEdx()
    ensures Encode(Alu(Xor, W32, R(RDX), From(R(RDX))), Std) == [0x31, 0xD2]
  {
  }

  lemma LoadRsi()
    ensures Encode(Mov(W64, R(RSI), From(At(RDX, 8))), Alt) == [0x48, 0x8B, 0x72, 0x08]
  {
  }

  lemma TestRsi()
    ensures Encode(Alu(Test, W64, R(RSI), From(R(RSI))), Std) == [0x48, 0x85, 0xF6]
  {
  }

  lemma MovR15Rdx()
    ensures Encode(Mov(W64, R(R15), From(R(RDX))), Alt) == [0x4C, 0x8B, 0xFA]
  {
  }

  lemma MovR14Rcx()
    ensures Encode(Mov(W64, R(R14), From(R(RCX))), Alt) == [0x4C, 0x8B, 0xF1]
  {
  }

  lemma LeaRdxR11()
    ensures Encode(Lea(W64, RDX, At(R11, -0x58)), Std) == [0x49, 0x8D, 0x53, 0xA8]
  {
  }

  lemma AddRcx()
    ensures Encode(Alu(Add, W64, R(RCX), Imm(0x20)), Std) == [0x48, 0x83, 0xC1, 0x20]
  {
  }

  lemma MovEdiR8()
    ensures Encode(Mov(W32, R(RDI), From(R(R8))), Alt) == [0x41, 0x8B, 0xF8]
  {
  }

  lemma LoadR10()
    ensures Encode(Mov(W64, R(R10), From(At(RCX, 0))), Alt) == [0x4C, 0x8B, 0x11]
  {
  }

  lemma StoreR8d()
    ensures Encode(Mov(W32, At(RCX, 0x0C), From(R(R8))), Std) == [0x44, 0x89, 0x41, 0x0C]
  {
  }

  lemma TestR10()
    ensures Encode(Alu(Test, W64, R(R10), From(R(R10))), Std) == [0x4D, 0x85, 0xD2]
  {
  }

  lemma CmpR1064K()
    ensures Encode(Alu(Cmp, W64, R(R10), Imm(0x1_0000)), Std) == [0x49, 0x81, 0xFA, 0x00, 0x00, 0x01, 0x00]
  {
    hide Encode, Emit, WithModRm;
    Spell(Alu(Cmp, W64, R(R10), Imm(0x1_0000)), Std, Modded(W64, [0x81], RDI, R(R10), Imm32(0x1_0000)), [0x49], [0xFA], [0x00, 0x00, 0x01, 0x00]);
  }

  lemma MovRaxR10()
    ensures Encode(Mov(W64, R(RAX), From(R(R10))), Std) == [0x4C, 0x89, 0xD0]
  {
  }

  lemma ShlRax16()
    ensures Encode(Shift(Shl, W64, R(RAX), 0x10), Std) == [0x48, 0xC1, 0xE0, 0x10]
  {
  }

  lemma SarRax16()
    ensures Encode(Shift(Sar, W64, R(RAX), 0x10), Std) == [0x48, 0xC1, 0xF8, 0x10]
  {
  }

  lemma CmpRaxR10()
    ensures Encode(Alu(Cmp, W64, R(RAX), From(R(R10))), Std) == [0x4C, 0x39, 0xD0]
  {
  }

  lemma LoadRbx()
    ensures Encode(Mov(W64, R(RBX), From(At(R10, 0x18))), Alt) == [0x49, 0x8B, 0x5A, 0x18]
  {
  }

  lemma CmpRbx64K()
    ensures Encode(Alu(Cmp, W64, R(RBX), Imm(0x1_0000)), Std) == [0x48, 0x81, 0xFB, 0x00, 0x00, 0x01, 0x00]
  {
    hide Encode, Emit, WithModRm;
    Spell(Alu(Cmp, W64, R(RBX), Imm(0x1_0000)), Std, Modded(W64, [0x81], RDI, R(RBX), Imm32(0x1_0000)), [0x48], [0xFB], [0x00, 0x00, 0x01, 0x00]);
  }

  lemma MovRaxRbx()
    ensures Encode(Mov(W64, R(RAX), From(R(RBX))), Std) == [0x48, 0x89, 0xD8]
  {
  }

  lemma CmpRaxRbx()
    ensures Encode(Alu(Cmp, W64, R(RAX), From(R(RBX))), Std) == [0x48, 0x39, 0xD8]
  {
  }

  lemma XorEcx()
    ensures Encode(Alu(Xor, W32, R(RCX), From(R(RCX))), Alt) == [0x33, 0xC9]
  {
  }

  lemma MovEaxEcx()
    ensures Encode(Mov(W32, R(RAX), From(R(RCX))), Alt) == [0x8B, 0xC1]
  {
  }

  lemma XorEax()
    ensures Encode(Alu(Xor, W32, R(RAX), From(R(RAX))), Std) == [0x31, 0xC0]
  {
  }

  lemma StoreZeroResult()
    ensures Encode(Mov(W32, At(RCX, 0x10), From(R(RAX))), Std) == [0x89, 0x41, 0x10]
  {
  }

  lemma CmpR10bOne()
    ensures Encode(Alu(Cmp, W8, R(R10), Imm(1)), Std) == [0x41, 0x80, 0xFA, 0x01]
  {
  }

  lemma LoadR9Flag()
    ensures Encode(Movzx(W32, R9, At(RDX, 0x7734)), Std) == [0x44, 0x0F, 0xB6, 0x8A, 0x34, 0x77, 0x00, 0x00]
  {
    hide Encode, Emit, WithModRm;
    Spell(Movzx(W32, R9, At(RDX, 0x7734)), Std, Modded(W32, [0x0F, 0xB6], R9, At(RDX, 0x7734), NoImm), [0x44], [0x8A, 0x34, 0x77, 0x00, 0x00], []);
  }

  lemma CmpRdxVector()
    ensures Encode(Alu(Cmp, W64, At(RDX, 0x77D8), Imm(0)), Std) == [0x48, 0x83, 0xBA, 0xD8, 0x77, 0x00, 0x00, 0x00]
  {
    hide Encode, Emit, WithModRm;
    Spell(Alu(Cmp, W64, At(RDX, 0x77D8), Imm(0)), Std, Modded(W64, [0x83], RDI, At(RDX, 0x77D8), Imm8(0)), [0x48], [0xBA, 0xD8, 0x77, 0x00, 0x00], [0x00]);
  }

  lemma LoadRaxR8()
    ensures Encode(Mov(W64, R(RAX), From(At(R8, 0))), Alt) == [0x49, 0x8B, 0x00]
  {
  }

  lemma JeNearDE()
    ensures Encode(Jcc(E, 0xDE), Std) == [0x0F, 0x84, 0xDE, 0x00, 0x00, 0x00]
  {
    hide Encode, Emit, WithModRm;
    SpellPlain(Jcc(E, 0xDE), Std, Plain(W32, [0x0F, 0x84], false, Imm32(0xDE)), [], [0xDE, 0x00, 0x00, 0x00]);
  }
}
