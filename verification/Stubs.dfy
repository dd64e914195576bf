/**
 The fourteen trampolines as listings: what each builder means to emit. Branch targets are item
 numbers; `StubBuilders` proves that the emitted bytes are these listings, assembled.
 */
module Stubs {
  import opened Words
  import opened Machine
  import opened InstructionEncoding
  import opened Programs
  import opened Spelling

  /** Null or sentinel entry pointer: leave for the fallback; otherwise run the displaced instructions here. */
  function Stub59002d(skip: U64, resume: U64): Program {
    [
      Ins(Alu(Test, W64, R(RBX), From(R(RBX))), Std),
      Branch(E, 9),
      Ins(Alu(Cmp, W64, R(RBX), From(R(R12))), Std),
      Branch(E, 9),
      Ins(Mov(W64, R(RDX), From(At(RBX, 0x10))), Alt),
      Ins(Lea(W64, RCX, At(RSP, 0x40)), Std),
      Ins(Mov(W64, At(RSP, 0x48), From(R(R12))), Std),
      Ins(Mov(W64, R(RAX), Imm(resume)), Std), Ins(JmpTo(R(RAX)), Std),
      // skip:
      Ins(Mov(W64, R(RAX), Imm(skip)), Std), Ins(JmpTo(R(RAX)), Std)
    ]
  }

  /** No master table, or an index past its length: continue with the -1 sentinels. */
  function Stub590c58(skip: U64, resume: U64): Program {
    [
      Ins(Mov(W64, R(RDX), From(At(RCX, 0x30D0))), Alt),
      Ins(Alu(Test, W64, R(RDX), From(R(RDX))), Std),
      Branch(E, 7),
      Ins(Alu(Cmp, W64, R(R10), From(At(RDX, 0x10))), Alt),
      Branch(AE, 7),
      Ins(Mov(W64, R(RAX), Imm(resume)), Std), Ins(JmpTo(R(RAX)), Std),
      // skip:
      Ins(Mov(W32, R(R8), Imm(0xFFFF_FFFF)), Std),
      Ins(Mov(W32, R(R9), Imm(0xFFFF_FFFF)), Std),
      Ins(Mov(W64, R(RAX), Imm(skip)), Std), Ins(JmpTo(R(RAX)), Std)
    ]
  }

  /** No master table: skip the enrichment loop instead of dereferencing null. */
  function Stub58fa83(skip: U64, resume: U64): Program {
    [
      Ins(Mov(W64, R(RAX), From(At(RCX, 0x30D0))), Alt),
      Ins(Alu(Test, W64, R(RAX), From(R(RAX))), Std),
      Branch(E, 7),
      Ins(Mov(W32, R(RDX), From(R(R13))), Alt),
      Ins(Mov(W32, R(R12), From(At(RAX, 0))), Alt),
      Ins(Mov(W64, R(RAX), Imm(resume)), Std), Ins(JmpTo(R(RAX)), Std),
      // skip:
      Ins(Mov(W64, R(RAX), Imm(skip)), Std), Ins(JmpTo(R(RAX)), Std)
    ]
  }

  /** Force the length gate open. */
  function Stub59c1ea(skip: U64): Program {
    [
      Ins(Mov(W32, R(R14), Imm(0x41)), Std),
      Ins(Mov(W64, At(RSP, 0x38), Imm(0x41)), Std),
      Ins(Mov(W64, R(RAX), Imm(skip)), Std), Ins(JmpTo(R(RAX)), Std)
    ]
  }

  function Entry59c2a0(): Program {
    [
      Ins(Alu(Test, W32, R(RDX), From(R(RDX))), Std),
      Branch(NE, 17),
      Ins(Push(R9), Std),
      Ins(Push(R10), Std),
      Ins(Push(R11), Std),
      Ins(Lea(W64, R11, At(RBX, 1)), Std),
      Ins(Mov(W64, R(R9), From(R(RCX))), Std),
      Ins(Mov(W32, R(R10), Imm(0x40)), Std)
    ]
  }

  function Copy59c2a0(): Program {
    [
      // copy:
      Ins(Mov(W8, R(RAX), From(At(R9, 0))), Alt),
      Ins(Mov(W8, At(R11, 0), From(R(RAX))), Std),
      Ins(Inc(W64, R(R9)), Std),
      Ins(Inc(W64, R(R11)), Std),
      Ins(Alu(Sub, W32, R(R10), Imm(1)), Std),
      Branch(NE, 8),
      Ins(Pop(R11), Std),
      Ins(Pop(R10), Std),
      Ins(Pop(R9), Std),
      // compare:
      Ins(Movzx(W32, RAX, AtIndex(R8, RCX, 1)), Std)
    ]
  }

  function Compare59c2a0(fail: U64, resume: U64): Program {
    [
      Ins(Alu(Cmp, W8, At(RCX, 0), From(R(RAX))), Std),
      Branch(NE, 22),
      Ins(Mov(W64, R(RAX), Imm(resume)), Std), Ins(JmpTo(R(RAX)), Std),
      // fail:
      Ins(Mov(W64, R(RAX), Imm(fail)), Std), Ins(JmpTo(R(RAX)), Std)
    ]
  }

  /** On the first iteration copy 64 bytes over the compared buffer; then run the displaced comparison. */
  function Stub59c2a0(fail: U64, resume: U64): Program {
    Entry59c2a0() + Copy59c2a0() + Compare59c2a0(fail, resume)
  }

  /** Inject the -1 sentinels. */
  function Stub590c72(resume: U64): Program {
    [
      Ins(Mov(W32, R(R8), Imm(0xFFFF_FFFF)), Std),
      Ins(Mov(W32, R(R9), Imm(0xFFFF_FFFF)), Std),
      Ins(Mov(W64, R(RAX), Imm(resume)), Std), Ins(JmpTo(R(RAX)), Std)
    ]
  }

  /** Publish the new master table only when it has the shape of a healthy one. */
  function Stub5927f2(skip: U64): Program {
    [
      Ins(Alu(Test, W64, R(R15), From(R(R15))), Std),
      Branch(E, 9),
      Ins(Alu(Cmp, W32, At(R15, 0), Imm(0x42)), Std),
      Branch(NE, 9),
      Ins(Alu(Cmp, W64, At(R15, 0x10), Imm(0x43)), Std),
      Branch(NE, 9),
      Ins(Alu(Cmp, W64, At(R15, 0x18), Imm(0)), Std),
      Branch(E, 9),
      Ins(Mov(W64, At(RAX, 0), From(R(R15))), Std),
      // skip:
      Ins(Mov(W64, R(RAX), Imm(skip)), Std), Ins(JmpTo(R(RAX)), Std)
    ]
  }

  /** Make the first per-entry comparison succeed. */
  function Stub590ccb(resume: U64, success: U64): Program {
    [
      Ins(Mov(W32, R(RCX), From(R(RBX))), Std),
      Ins(Mov(W32, R(RAX), From(R(R8))), Std),
      Ins(Alu(Test, W8, R(RDX), From(R(RDX))), Std),
      Branch(E, 7),
      Ins(Mov(W32, R(RAX), From(At(RDI, 0x20))), Alt),
      Ins(Mov(W64, R(RAX), Imm(success)), Std), Ins(JmpTo(R(RAX)), Std),
      // indexed:
      Ins(Mov(W64, R(RAX), Imm(resume)), Std), Ins(JmpTo(R(RAX)), Std)
    ]
  }

  /** Make the second per-entry comparison succeed. */
  function Stub590cf1(success: U64): Program {
    [
      Ins(Mov(W32, R(RAX), From(R(R9))), Std),
      Ins(Mov(W64, R(RAX), Imm(success)), Std), Ins(JmpTo(R(RAX)), Std)
    ]
  }

  function Record590de8(): Program {
    [
      Ins(Movzx(W32, R9, At(R15, 0x7734)), Std),
      Ins(Lea(W64, R8, At(R15, 0x7710)), Std),
      Ins(Alu(Test, W8, R(R9), From(R(R9))), Std),
      Branch(NE, 23),
      Ins(Alu(Cmp, W64, At(R15, 0x77D8), Imm(0)), Std),
      Branch(NE, 23),
      Ins(Alu(Test, W64, R(RDI), From(R(RDI))), Std),
      Branch(E, 25)
    ]
  }

  function Path590de8(): Program {
    [
      Ins(Alu(Cmp, W8, At(RDI, 0x24), Imm(0)), Std),
      Branch(E, 19),
      Ins(Alu(Cmp, W32, At(RDI, 0), Imm(0)), Std),
      Branch(E, 25),
      Ins(Alu(Cmp, W32, At(RDI, 0x20), Imm(0)), Std),
      Branch(E, 25)
    ]
  }

  function Promote590de8(): Program {
    [
      Ins(Mov(W32, R(RAX), From(At(RDI, 0))), Alt),
      Ins(Mov(W32, At(R15, 0x7710), From(R(RAX))), Std),
      Ins(Mov(W32, R(RAX), From(At(RDI, 0x20))), Alt),
      Ins(Mov(W32, At(R15, 0x7730), From(R(RAX))), Std),
      Ins(Mov(W8, At(R15, 0x7734), Imm(1)), Std),
      // empty:
      Ins(Alu(Cmp, W64, At(RDI, 0x98), Imm(0)), Std),
      Branch(NE, 25),
      Ins(Alu(Cmp, W64, At(RDI, 0xC8), Imm(0)), Std),
      Branch(NE, 25)
    ]
  }

  function Exits590de8(skip: U64, resume: U64): Program {
    [
      // go:
      Ins(Mov(W64, R(RAX), Imm(resume)), Std), Ins(JmpTo(R(RAX)), Std),
      // skip:
      Ins(Mov(W64, R(RAX), Imm(skip)), Std), Ins(JmpTo(R(RAX)), Std)
    ]
  }

  /** Let an empty record through when its path base is empty too; promote a record whose path base holds a pair. */
  function Stub590de8(skip: U64, resume: U64): Program {
    Record590de8() + Path590de8() + Promote590de8() + Exits590de8(skip, resume)
  }

  /** Read the archive state through a slot pointer, or use zero when the slot holds no pointer. */
  function Stub590ec9(resume: U64): Program {
    [
      Ins(Shift(Shl, W64, R(RAX), 5), Std),
      Ins(Mov(W64, R(RAX), From(AtIndex(RAX, R11, 0x1_0C10))), Alt),
      Ins(Alu(Test, W64, R(RAX), From(R(RAX))), Std),
      Branch(E, 11),
      Ins(Alu(Cmp, W64, R(RAX), Imm(-1)), Std),
      Branch(E, 11),
      Ins(Alu(Cmp, W64, R(RAX), Imm(0x1_0000)), Std),
      Branch(B, 11),
      Ins(Movzx(W32, RDX, AtIndex(RAX, RBX, 1)), Std),
      Ins(Mov(W64, R(RAX), Imm(resume)), Std), Ins(JmpTo(R(RAX)), Std),
      // missing:
      Ins(Alu(Xor, W32, R(RDX), From(R(RDX))), Std),
      Ins(Mov(W64, R(RAX), Imm(resume)), Std), Ins(JmpTo(R(RAX)), Std)
    ]
  }

  /** A sentinel object has no manager: return through the epilogue. */
  function Stub2ab698(skip: U64, resume: U64): Program {
    [
      Ins(Mov(W64, R(RSI), From(At(RDX, 8))), Alt),
      Ins(Alu(Test, W64, R(RSI), From(R(RSI))), Std),
      Branch(E, 10),
      Ins(Mov(W64, R(R15), From(R(RDX))), Alt),
      Ins(Mov(W64, R(R14), From(R(RCX))), Alt),
      Ins(Lea(W64, RDX, At(R11, -0x58)), Std),
      Ins(Alu(Add, W64, R(RCX), Imm(0x20)), Std),
      Ins(Mov(W32, R(RDI), From(R(R8))), Alt),
      Ins(Mov(W64, R(RAX), Imm(resume)), Std), Ins(JmpTo(R(RAX)), Std),
      // skip:
      Ins(Mov(W64, R(RAX), Imm(skip)), Std), Ins(JmpTo(R(RAX)), Std)
    ]
  }

  function First3699b2(): Program {
    [
      Ins(Mov(W64, R(R10), From(At(RCX, 0))), Alt),
      Ins(Mov(W32, At(RCX, 0x0C), From(R(R8))), Std),
      Ins(Alu(Test, W64, R(R10), From(R(R10))), Std),
      Branch(E, 25),
      Ins(Alu(Cmp, W64, R(R10), Imm(0x1_0000)), Std),
      Branch(B, 25),
      Ins(Mov(W64, R(RAX), From(R(R10))), Std),
      Ins(Shift(Shl, W64, R(RAX), 0x10), Std),
      Ins(Shift(Sar, W64, R(RAX), 0x10), Std),
      Ins(Alu(Cmp, W64, R(RAX), From(R(R10))), Std),
      Branch(NE, 25)
    ]
  }

  function Second3699b2(): Program {
    [
      Ins(Mov(W64, R(RBX), From(At(R10, 0x18))), Alt),
      Ins(Alu(Test, W64, R(RBX), From(R(RBX))), Std),
      Branch(E, 25),
      Ins(Alu(Cmp, W64, R(RBX), Imm(0x1_0000)), Std),
      Branch(B, 25),
      Ins(Mov(W64, R(RAX), From(R(RBX))), Std),
      Ins(Shift(Shl, W64, R(RAX), 0x10), Std),
      Ins(Shift(Sar, W64, R(RAX), 0x10), Std),
      Ins(Alu(Cmp, W64, R(RAX), From(R(RBX))), Std),
      Branch(NE, 25)
    ]
  }

  function Exits3699b2(skip: U64, resume: U64): Program {
    [
      Ins(Alu(Xor, W32, R(RCX), From(R(RCX))), Alt),
      Ins(Mov(W32, R(RAX), From(R(RCX))), Alt),
      Ins(Mov(W64, R(RAX), Imm(resume)), Std), Ins(JmpTo(R(RAX)), Std),
      // bad:
      Ins(Alu(Xor, W32, R(RAX), From(R(RAX))), Std),
      Ins(Mov(W32, At(RCX, 0x10), From(R(RAX))), Std),
      Ins(Mov(W64, R(RAX), Imm(skip)), Std), Ins(JmpTo(R(RAX)), Std)
    ]
  }

  /** Follow the metadata pointers only when both are plausible addresses; otherwise return zero. */
  function Stub3699b2(skip: U64, resume: U64): Program {
    First3699b2() + Second3699b2() + Exits3699b2(skip, resume)
  }

  /** Keep the state==1 fast path only when the data buffers are populated. */
  function Stub5902d5(skip: U64, resume: U64): Program {
    [
      Ins(Alu(Cmp, W8, R(R10), Imm(1)), Std),
      Branch(NE, 7),
      Ins(Movzx(W32, R9, At(RDX, 0x7734)), Std),
      Ins(Alu(Test, W8, R(R9), From(R(R9))), Std),
      Branch(NE, 10),
      Ins(Alu(Cmp, W64, At(RDX, 0x77D8), Imm(0)), Std),
      Branch(NE, 10),
      // go:
      Ins(Mov(W64, R(RAX), From(At(R8, 0))), Alt),
      Ins(Mov(W64, R(RAX), Imm(resume)), Std), Ins(JmpTo(R(RAX)), Std),
      // skip:
      Ins(Mov(W64, R(RAX), Imm(skip)), Std), Ins(JmpTo(R(RAX)), Std)
    ]
  }

  /* ---------- the displaced blocks ---------- */

  /** The instructions the patch at 0x59002D overwrites. */
  function Displaced59002d(): Program {
    [
      Ins(Mov(W64, R(RDX), From(At(RBX, 0x10))), Alt),
      Ins(Lea(W64, RCX, At(RSP, 0x40)), Std),
      Ins(Mov(W64, At(RSP, 0x48), From(R(R12))), Std)
    ]
  }

  /** The instructions the patch at 0x590C58 overwrites. */
  function Displaced590c58(): Program {
    [
      Ins(Mov(W64, R(RDX), From(At(RCX, 0x30D0))), Alt),
      Ins(Alu(Cmp, W64, R(R10), From(At(RDX, 0x10))), Alt),
      Ins(Jcc(AE, 0x0D), Alt)
    ]
  }

  /** The instructions the patch at 0x58FA83 overwrites. */
  function Displaced58fa83(): Program {
    [
      Ins(Mov(W64, R(RAX), From(At(RCX, 0x30D0))), Alt),
      Ins(Mov(W32, R(RDX), From(R(R13))), Alt),
      Ins(Mov(W32, R(R12), From(At(RAX, 0))), Alt)
    ]
  }

  /** The instructions the patch at 0x59C2A0 overwrites. */
  function Displaced59c2a0(): Program {
    [
      Ins(Movzx(W32, RAX, AtIndex(R8, RCX, 1)), Std),
      Ins(Alu(Cmp, W8, At(RCX, 0), From(R(RAX))), Std),
      Ins(Jcc(NE, 0x3A1), Std)
    ]
  }

  /** The instructions the patch at 0x590DE8 overwrites. */
  function Displaced590de8(): Program {
    [
      Ins(Movzx(W32, R9, At(R15, 0x7734)), Std),
      Ins(Lea(W64, R8, At(R15, 0x7710)), Std),
      Ins(Alu(Test, W8, R(R9), From(R(R9))), Std),
      Ins(Jcc(NE, 0x0D), Alt),
      Ins(Alu(Cmp, W64, At(R15, 0x77D8), From(R(RSI))), Std),
      Ins(Jcc(E, 0xBD), Std)
    ]
  }

  /** The instructions the patch at 0x590EC9 overwrites. */
  function Displaced590ec9(): Program {
    [
      Ins(Shift(Shl, W64, R(RAX), 5), Std),
      Ins(Mov(W64, R(RAX), From(AtIndex(RAX, R11, 0x1_0C10))), Alt),
      Ins(Movzx(W32, RDX, AtIndex(RAX, RBX, 1)), Std)
    ]
  }

  /** The instructions the patch at 0x2AB698 overwrites. */
  function Displaced2ab698(): Program {
    [
      Ins(Mov(W64, R(RSI), From(At(RDX, 8))), Alt),
      Ins(Mov(W64, R(R15), From(R(RDX))), Alt),
      Ins(Mov(W64, R(R14), From(R(RCX))), Alt),
      Ins(Lea(W64, RDX, At(R11, -0x58)), Std),
      Ins(Alu(Add, W64, R(RCX), Imm(0x20)), Std),
      Ins(Mov(W32, R(RDI), From(R(R8))), Alt)
    ]
  }

  /** The instructions the patch at 0x3699B2 overwrites. */
  function Displaced3699b2(): Program {
    [
      Ins(Mov(W64, R(R10), From(At(RCX, 0))), Alt),
      Ins(Mov(W32, At(RCX, 0x0C), From(R(R8))), Std),
      Ins(Mov(W64, R(RBX), From(At(R10, 0x18))), Alt),
      Ins(Alu(Xor, W32, R(RCX), From(R(RCX))), Alt),
      Ins(Mov(W32, R(RAX), From(R(RCX))), Alt)
    ]
  }

  /** The instructions the patch at 0x5902D5 overwrites. */
  function Displaced5902d5(): Program {
    [
      Ins(Alu(Cmp, W8, R(R10), Imm(1)), Std),
      Ins(Jcc(E, 0xDE), Std),
      Ins(Mov(W64, R(RAX), From(At(R8, 0))), Alt)
    ]
  }
}
