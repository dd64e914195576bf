/**
 The other two passes: what a patched null read and a patched inline site come to, in the image
 base, the offsets and the memory before and after alone.
 */
module PatchedSites {
  import opened Wrappers
  import opened Words
  import opened ProcessMemory
  import opened Machine
  import opened InstructionEncoding
  import opened Programs
  import opened StepRules
  import opened OneMemory
  import opened Spelling
  import opened GuardedSites
  import opened PatchTables
  import opened PatchPasses
  import opened PatchProcess
  import opened PatchedImage

  lemma HeldCode(m: Memory, a: int, bytes: seq<Byte>)
    requires HoldsBytes(m, a, bytes) && bytes != []
    ensures 0 <= a < 0x1_0000_0000_0000_0000 && HoldsCode(m, a, bytes)
  {
    assert Has(m, a);
    forall i: nat | i < |bytes|
      ensures ByteAt(m, a + i, bytes[i])
    {
      assert Has(m, a + i) && ReadBytes(m, a, |bytes|)[i] == m[a + i];
    }
  }

  /* ---------- one instruction and nops ---------- */

  /** `i`, then `n` nops. */
  function Replaced(i: Item, n: nat): Program {
    [i] + seq(n, _ => Ins(Nop, Std))
  }

  lemma NopByte()
    ensures Encode(Nop, Std) == [0x90]
  {
  }

  lemma {:induction false} ReplacedLayout(i: Item, n: nat, k: nat)
    requires WellFormed(Replaced(i, n)) && i.Ins? && 0 < k <= n + 1
    ensures Layout(Replaced(i, n), k) == Encode(i.instr, i.form) + seq(k - 1, _ => 0x90)
    decreases k
  {
    hide Encode, WellFormed;
    NopByte();
    if k == 1 {
      LaidNone(Replaced(i, n));
      Laid(Replaced(i, n), 0);
    } else {
      ReplacedLayout(i, n, k - 1);
      Laid(Replaced(i, n), k - 1);
      assert seq(k - 2, _ => 0x90) + [0x90] == seq(k - 1, _ => 0x90);
    }
  }

  lemma ReplacedBytes(i: Item, n: nat)
    requires i.Ins? && Encodable(i.instr, i.form) && n < 15
    ensures WellFormed(Replaced(i, n)) && Assemble(Replaced(i, n)) == Encode(i.instr, i.form) + seq(n, _ => 0x90)
  {
    hide Encode;
    var p := Replaced(i, n);
    assert EncodableProgram(p);
    CodeLengthBound(p);
    hide Encodable;
    ReplacedLayout(i, n, n + 1);
  }

  /* ---------- null reads ---------- */

  const CLEAR_R8: Item := Ins(Alu(Xor, W32, R(R8), From(R(R8))), Alt)

  lemma ClearR8Bytes()
    ensures Encode(CLEAR_R8.instr, Alt) == [0x45, 0x33, 0xC0]
  {
  }

  /** The replacement of a null read clears the register that the read would have loaded. */
  lemma NullReadReplaced()
    ensures WellFormed(Replaced(CLEAR_R8, 5)) && Assemble(Replaced(CLEAR_R8, 5)) == NULL_READ_REPLACEMENT
  {
    hide Encode, WellFormed, Assemble, Replaced;
    ClearR8Bytes();
    ReplacedBytes(CLEAR_R8, 5);
    assert seq(5, _ => 0x90) == [0x90, 0x90, 0x90, 0x90, 0x90];
  }

  /** A null read loads R8 from address zero, as at 0x590C72. */
  lemma NullReadIs()
    ensures NULL_READ == EXPECTED_590C72[..8]
  {
  }

  lemma {:induction false} NopsRun(p: Program, base: U64, k: nat, s: State, n: nat)
    requires k <= |p| < k + n && forall j :: k <= j < |p| ==> p[j] == Ins(Nop, Std)
    ensures ItemSteps(p, base, AtItem(k, s), n) == Left(Wrap(base + CodeLength(p)), s)
    decreases n
  {
    hide ItemSteps, Offset, CodeLength;
    if k == |p| {
      FallOff(p, base, s, n);
    } else {
      Advance(p, base, k, s, n, s);
      NopsRun(p, base, k + 1, s, n - 1);
    }
  }

  /** The replacement, run: R8 is zero and the zero flag set, whatever is mapped at address zero. */
  lemma ClearRuns(site: U64, s: State)
    requires HoldsCode(s.mem, site, NULL_READ_REPLACEMENT)
    ensures Reaches(Running(site, s), Running(Wrap(site + 8), SetReg(s, R8, 0).(zf := true, cf := false)))
  {
    hide ItemSteps, ItemStep, Encode, WellFormed, Assemble, HoldsCode, IntactThroughout, Reaches, Offset, SetReg;
    NullReadReplaced();
    var p := Replaced(CLEAR_R8, 5);
    assert CodeLength(p) == |NULL_READ_REPLACEMENT| == 8;
    ReadOnlyStaysIntact(p, site, AtItem(0, s), 8);
    Exactly(p, site, AtItem(0, s), 8);
    var t := Clear(p, site, 0, s, 8);
    NopsRun(p, site, 1, t, 7);
    StartsAt(p, site);
  }

  lemma StartsAt(p: Program, site: U64)
    ensures Wrap(site + Offset(p, 0)) == site
  {
  }

  /* ---------- after the passes ---------- */

  /** What a pass leaves at a site that held what its request expects. */
  lemma FixedWritten(m: Memory, rs: seq<Request>, r: Request)
    requires PairwiseApart(rs) && AllApplicable(m, rs) && r in rs && r.Fixed? && HoldsBytes(m, r.address, r.bytes)
    ensures r.replacement.Ok? && |r.replacement.value| == |r.bytes| && HoldsBytes(Pass(m, rs).memory, r.address, r.replacement.value)
  {
    hide Pass, PairwiseApart, AllApplicable, Readable, ReadBytes, IsImage;
    AmongApplicable(m, rs, r);
    PassImage(m, rs);
    MatchedSite(m, rs, Pass(m, rs).memory, r);
  }

  /** Null reads fail only on memory that cannot be read. */
  lemma NullReadApplies(m: Memory, imageBase: int, offset: int)
    ensures Applicable(m, NullReadRequest(imageBase, offset)) <==> Readable(m, imageBase + offset, 8)
  {
    NullReadsChangeBytes();
    hide ReadBytes, Readable;
  }

  ghost predicate ClearsR8(m: Memory, site: int) {
    && 0 <= site < 0x1_0000_0000_0000_0000
    && forall s: State :: s.mem == m ==> Reaches(Running(site, s), Running(Wrap(site + 8), SetReg(s, R8, 0).(zf := true, cf := false)))
  }

  /** After the pass, the machine run into a patched null read goes on behind it with R8 zero and faults no more. */
  lemma NullReadCleared(m: Memory, imageBase: int, offsets: seq<int>, i: nat)
    requires var rs := NullReadRequests(imageBase, offsets);
             PairwiseApart(rs) && AllApplicable(m, rs)
    requires i < |offsets| && HoldsBytes(m, imageBase + offsets[i], NULL_READ)
    ensures ClearsR8(Pass(m, NullReadRequests(imageBase, offsets)).memory, imageBase + offsets[i])
  {
    hide PairwiseApart, AllApplicable, Pass, Reaches, HoldsCode, NULL_READ, NULL_READ_REPLACEMENT, SetReg, HoldsBytes;
    var rs, site := NullReadRequests(imageBase, offsets), imageBase + offsets[i];
    assert rs[i] in rs;
    FixedWritten(m, rs, rs[i]);
    var m' := Pass(m, rs).memory;
    ReplacementLength();
    HeldCode(m', site, NULL_READ_REPLACEMENT);
    forall s: State | s.mem == m'
      ensures Reaches(Running(site, s), Running(Wrap(site + 8), SetReg(s, R8, 0).(zf := true, cf := false)))
    {
      ClearRuns(site, s);
    }
  }

  lemma ReplacementLength()
    ensures NULL_READ_REPLACEMENT != []
  {
  }

  /** A known inline offset holds its replacement after the pass, if it held what the table expects before. */
  lemma InlineReplaced(m: Memory, imageBase: int, offsets: seq<int>, i: nat)
    requires var rs := InlineRequests(imageBase, offsets);
             PairwiseApart(rs) && AllApplicable(m, rs)
    requires i < |offsets| && KnownInlinePatch(offsets[i]).Some?
    requires HoldsBytes(m, imageBase + offsets[i], KnownInlinePatch(offsets[i]).value.expected)
    ensures HoldsBytes(Pass(m, InlineRequests(imageBase, offsets)).memory, imageBase + offsets[i], KnownInlinePatch(offsets[i]).value.replacement)
  {
    hide PairwiseApart, AllApplicable, Pass, KnownInlinePatch, HoldsBytes;
    var rs := InlineRequests(imageBase, offsets);
    assert rs[i] in rs;
    FixedWritten(m, rs, rs[i]);
  }

  /** What the null-read pass reports. */
  lemma NullReadReported(m: Memory, imageBase: int, offsets: seq<int>, i: nat)
    requires var rs := NullReadRequests(imageBase, offsets);
             PairwiseApart(rs) && AllApplicable(m, rs)
    requires i < |offsets|
    ensures var pass := Pass(m, NullReadRequests(imageBase, offsets));
            && pass.result.Ok? && |pass.result.value| == |offsets|
            && Tells(pass.result.value[i], m, pass.memory, imageBase + offsets[i], NULL_READ) && pass.result.value[i].stub == None
  {
    hide PairwiseApart, AllApplicable, Pass, Tells, NULL_READ, NULL_READ_REPLACEMENT, HoldsCode;
    ReportTells(m, NullReadRequests(imageBase, offsets), i);
  }

  /** What the inline pass reports; an offset outside its table is reported as not matched, with nothing read. */
  lemma InlineReported(m: Memory, imageBase: int, offsets: seq<int>, i: nat)
    requires var rs := InlineRequests(imageBase, offsets);
             PairwiseApart(rs) && AllApplicable(m, rs)
    requires i < |offsets|
    ensures var pass, known := Pass(m, InlineRequests(imageBase, offsets)), KnownInlinePatch(offsets[i]);
            && pass.result.Ok? && |pass.result.value| == |offsets|
            && (known.Some? ==>
                  Tells(pass.result.value[i], m, pass.memory, imageBase + offsets[i], known.value.expected) && pass.result.value[i].stub == None)
            && (known.None? ==> pass.result.value[i] == Report(false, None, None, None))
  {
    hide PairwiseApart, AllApplicable, Pass, Tells, KnownInlinePatch, HoldsCode;
    var rs := InlineRequests(imageBase, offsets);
    if KnownInlinePatch(offsets[i]).Some? {
      ReportTells(m, rs, i);
    } else {
      PassImage(m, rs);
      assert rs[i] in rs;
      UnknownReport(m, rs[i]);
    }
  }

  lemma UnknownReport(m: Memory, r: Request)
    requires r.Unknown?
    ensures Applicable(m, r) && ReportOf(m, r) == Report(false, None, None, None)
  {
  }

  /* ---------- what the inline patches mean ---------- */

  /** The instruction found at an inline offset, and what takes its place: an instruction and nops. */
  datatype InlineMeaning = InlineMeaning(before: Item, after: Item, nops: nat)

  function MeaningOf(offset: int): Option<InlineMeaning> {
    if offset == 0x59_0001 || offset == 0x59_0321 || offset == 0x59_16C3 || offset == 0x59_19E3 then
      Some(InlineMeaning(Ins(Mov(W32, R(RCX), From(At(RCX, 0))), Alt), Ins(Alu(Xor, W32, R(RCX), From(R(RCX))), Alt), 0))
    else if offset == 0x59_16F0 || offset == 0x59_1A10 then
      Some(InlineMeaning(Ins(Mov(W64, R(RDX), From(At(RBX, 0x10))), Alt), Ins(Alu(Xor, W64, R(RDX), From(R(RDX))), Std), 1))
    else if offset == 0x59_1712 || offset == 0x59_1A32 then
      Some(InlineMeaning(Ins(Mov(W64, R(R8), From(At(RBX, 0x10))), Alt), Ins(Alu(Xor, W64, R(R8), From(R(R8))), Std), 1))
    else if offset == 0x59_1719 || offset == 0x59_1A39 then
      Some(InlineMeaning(Ins(Mov(W64, R(RDX), From(At(RBX, 0x18))), Alt), Ins(Alu(Xor, W64, R(RDX), From(R(RDX))), Std), 1))
    else if offset == 0x59_0CF4 then
      Some(InlineMeaning(Ins(Jcc(E, 0xD1), Std), Ins(Nop, Std), 5))
    else if offset == 0x59_4A41 || offset == 0x59_4D61 then
      Some(InlineMeaning(Ins(Alu(Cmp, W8, At(RSI, 0x24), Imm(0)), Std), Ins(Alu(Xor, W32, R(RAX), From(R(RAX))), Std), 2))
    else if offset == 0x59_66FB then
      Some(InlineMeaning(Ins(Mov(W32, R(R14), Imm(0x0542_0800)), Std), Ins(Mov(W32, R(R14), Imm(0x0562_0800)), Std), 0))
    else if offset == 0x59_6649 then
      Some(InlineMeaning(Ins(Jcc(E, 0x3A), Alt), Ins(Jcc(E, 0x2B), Alt), 0))
    else if offset == 0x59_687F then
      Some(InlineMeaning(Ins(Mov(W8, At(RBX, 0x28), Imm(1)), Std), Ins(Mov(W8, At(RBX, 0x29), Imm(1)), Std), 0))
    else if offset == 0x59_55A2 then
      Some(InlineMeaning(Ins(Jcc(E, 0x0B), Alt), Ins(Nop, Std), 1))
    else if offset == 0x59_53E4 then
      Some(InlineMeaning(Ins(Jcc(E, 0xB2), Std), Ins(Nop, Std), 5))
    else if offset == 0x59_67E5 then
      Some(InlineMeaning(Ins(Jcc(NE, -0x2B3), Std), Ins(Nop, Std), 5))
    else if offset == 0x59_7DB1 then
      Some(InlineMeaning(Ins(Mov(W8, At(RBP, 0x20), Imm(1)), Std), Ins(Mov(W8, At(RBP, 0x21), Imm(1)), Std), 0))
    else None
  }

  lemma SpellEcxThroughRcx()
    ensures Encodable(Mov(W32, R(RCX), From(At(RCX, 0))), Alt) && Encode(Mov(W32, R(RCX), From(At(RCX, 0))), Alt) == [0x8B, 0x09]
  {
  }

  lemma SpellInsteadEcxThroughRcx()
    ensures Encodable(Alu(Xor, W32, R(RCX), From(R(RCX))), Alt) && Encode(Alu(Xor, W32, R(RCX), From(R(RCX))), Alt) == [0x33, 0xC9]
  {
  }

  lemma SpellRdxThroughRbx10()
    ensures Encodable(Mov(W64, R(RDX), From(At(RBX, 0x10))), Alt) && Encode(Mov(W64, R(RDX), From(At(RBX, 0x10))), Alt) == [0x48, 0x8B, 0x53, 0x10]
  {
  }

  lemma SpellInsteadRdxThroughRbx10()
    ensures Encodable(Alu(Xor, W64, R(RDX), From(R(RDX))), Std) && Encode(Alu(Xor, W64, R(RDX), From(R(RDX))), Std) == [0x48, 0x31, 0xD2]
  {
  }

  lemma SpellR8ThroughRbx10()
    ensures Encodable(Mov(W64, R(R8), From(At(RBX, 0x10))), Alt) && Encode(Mov(W64, R(R8), From(At(RBX, 0x10))), Alt) == [0x4C, 0x8B, 0x43, 0x10]
  {
  }

  lemma SpellInsteadR8ThroughRbx10()
    ensures Encodable(Alu(Xor, W64, R(R8), From(R(R8))), Std) && Encode(Alu(Xor, W64, R(R8), From(R(R8))), Std) == [0x4D, 0x31, 0xC0]
  {
  }

  lemma SpellRdxThroughRbx18()
    ensures Encodable(Mov(W64, R(RDX), From(At(RBX, 0x18))), Alt) && Encode(Mov(W64, R(RDX), From(At(RBX, 0x18))), Alt) == [0x48, 0x8B, 0x53, 0x18]
  {
  }

  lemma SpellBranchD1()
    ensures Encodable(Jcc(E, 0xD1), Std) && Encode(Jcc(E, 0xD1), Std) == [0x0F, 0x84, 0xD1, 0x00, 0x00, 0x00]
  {
    hide Encode, Emit, WithModRm;
    SpellPlain(Jcc(E, 0xD1), Std, Plain(W32, [0x0F, 0x84], false, Imm32(0xD1)), [], [0xD1, 0x00, 0x00, 0x00]);
  }

  lemma SpellCompareRsi24()
    ensures Encodable(Alu(Cmp, W8, At(RSI, 0x24), Imm(0)), Std) && Encode(Alu(Cmp, W8, At(RSI, 0x24), Imm(0)), Std) == [0x80, 0x7E, 0x24, 0x00]
  {
    hide Encode, Emit, WithModRm;
    Spell(Alu(Cmp, W8, At(RSI, 0x24), Imm(0)), Std, Modded(W8, [0x80], RDI, At(RSI, 0x24), Imm8(0)), [], [0x7E, 0x24], [0x00]);
  }

  lemma SpellInsteadCompareRsi24()
    ensures Encodable(Alu(Xor, W32, R(RAX), From(R(RAX))), Std) && Encode(Alu(Xor, W32, R(RAX), From(R(RAX))), Std) == [0x31, 0xC0]
  {
  }

  lemma SpellSetR14()
    ensures Encodable(Mov(W32, R(R14), Imm(0x0542_0800)), Std) && Encode(Mov(W32, R(R14), Imm(0x0542_0800)), Std) == [0x41, 0xBE, 0x00, 0x08, 0x42, 0x05]
  {
    hide Encode, Emit, WithModRm;
    SpellPlain(Mov(W32, R(R14), Imm(0x0542_0800)), Std, Plain(W32, [0xBE], true, Imm32(0x0542_0800)), [0x41], [0x00, 0x08, 0x42, 0x05]);
  }

  lemma SpellInsteadSetR14()
    ensures Encodable(Mov(W32, R(R14), Imm(0x0562_0800)), Std) && Encode(Mov(W32, R(R14), Imm(0x0562_0800)), Std) == [0x41, 0xBE, 0x00, 0x08, 0x62, 0x05]
  {
    hide Encode, Emit, WithModRm;
    SpellPlain(Mov(W32, R(R14), Imm(0x0562_0800)), Std, Plain(W32, [0xBE], true, Imm32(0x0562_0800)), [0x41], [0x00, 0x08, 0x62, 0x05]);
  }

  lemma SpellBranch3A()
    ensures Encodable(Jcc(E, 0x3A), Alt) && Encode(Jcc(E, 0x3A), Alt) == [0x74, 0x3A]
  {
    hide Encode, Emit, WithModRm;
    assert LittleEndian(0x3A, 1) == [0x3A];
    SpellPlain(Jcc(E, 0x3A), Alt, Plain(W32, [0x74], false, Imm8(0x3A)), [], [0x3A]);
  }

  lemma SpellInsteadBranch3A()
    ensures Encodable(Jcc(E, 0x2B), Alt) && Encode(Jcc(E, 0x2B), Alt) == [0x74, 0x2B]
  {
    hide Encode, Emit, WithModRm;
    assert LittleEndian(0x2B, 1) == [0x2B];
    SpellPlain(Jcc(E, 0x2B), Alt, Plain(W32, [0x74], false, Imm8(0x2B)), [], [0x2B]);
  }

  lemma SpellStoreRbx28()
    ensures Encodable(Mov(W8, At(RBX, 0x28), Imm(1)), Std) && Encode(Mov(W8, At(RBX, 0x28), Imm(1)), Std) == [0xC6, 0x43, 0x28, 0x01]
  {
    hide Encode, Emit, WithModRm;
    Spell(Mov(W8, At(RBX, 0x28), Imm(1)), Std, Modded(W8, [0xC6], RAX, At(RBX, 0x28), Imm8(1)), [], [0x43, 0x28], [0x01]);
  }

  lemma SpellInsteadStoreRbx28()
    ensures Encodable(Mov(W8, At(RBX, 0x29), Imm(1)), Std) && Encode(Mov(W8, At(RBX, 0x29), Imm(1)), Std) == [0xC6, 0x43, 0x29, 0x01]
  {
    hide Encode, Emit, WithModRm;
    Spell(Mov(W8, At(RBX, 0x29), Imm(1)), Std, Modded(W8, [0xC6], RAX, At(RBX, 0x29), Imm8(1)), [], [0x43, 0x29], [0x01]);
  }

  lemma SpellBranch0B()
    ensures Encodable(Jcc(E, 0x0B), Alt) && Encode(Jcc(E, 0x0B), Alt) == [0x74, 0x0B]
  {
    hide Encode, Emit, WithModRm;
    assert LittleEndian(0x0B, 1) == [0x0B];
    SpellPlain(Jcc(E, 0x0B), Alt, Plain(W32, [0x74], false, Imm8(0x0B)), [], [0x0B]);
  }

  lemma SpellBranchB2()
    ensures Encodable(Jcc(E, 0xB2), Std) && Encode(Jcc(E, 0xB2), Std) == [0x0F, 0x84, 0xB2, 0x00, 0x00, 0x00]
  {
    hide Encode, Emit, WithModRm;
    SpellPlain(Jcc(E, 0xB2), Std, Plain(W32, [0x0F, 0x84], false, Imm32(0xB2)), [], [0xB2, 0x00, 0x00, 0x00]);
  }

  lemma SpellBranchBack2B3()
    ensures Encodable(Jcc(NE, -0x2B3), Std) && Encode(Jcc(NE, -0x2B3), Std) == [0x0F, 0x85, 0x4D, 0xFD, 0xFF, 0xFF]
  {
    hide Encode, Emit, WithModRm;
    SpellPlain(Jcc(NE, -0x2B3), Std, Plain(W32, [0x0F, 0x85], false, Imm32(-0x2B3)), [], [0x4D, 0xFD, 0xFF, 0xFF]);
  }

  lemma SpellStoreRbp20()
    ensures Encodable(Mov(W8, At(RBP, 0x20), Imm(1)), Std) && Encode(Mov(W8, At(RBP, 0x20), Imm(1)), Std) == [0xC6, 0x45, 0x20, 0x01]
  {
    hide Encode, Emit, WithModRm;
    Spell(Mov(W8, At(RBP, 0x20), Imm(1)), Std, Modded(W8, [0xC6], RAX, At(RBP, 0x20), Imm8(1)), [], [0x45, 0x20], [0x01]);
  }

  lemma SpellInsteadStoreRbp20()
    ensures Encodable(Mov(W8, At(RBP, 0x21), Imm(1)), Std) && Encode(Mov(W8, At(RBP, 0x21), Imm(1)), Std) == [0xC6, 0x45, 0x21, 0x01]
  {
    hide Encode, Emit, WithModRm;
    Spell(Mov(W8, At(RBP, 0x21), Imm(1)), Std, Modded(W8, [0xC6], RAX, At(RBP, 0x21), Imm8(1)), [], [0x45, 0x21], [0x01]);
  }

  /** The bytes of a known inline patch are those of its meaning. */
  predicate Means(p: InlinePatch, q: InlineMeaning) {
    && q.before.Ins? && Encodable(q.before.instr, q.before.form) && Encode(q.before.instr, q.before.form) == p.expected
    && WellFormed(Replaced(q.after, q.nops)) && Assemble(Replaced(q.after, q.nops)) == p.replacement
  }

  lemma MeansBy(p: InlinePatch, q: InlineMeaning)
    requires q.before.Ins? && Encodable(q.before.instr, q.before.form) && Encode(q.before.instr, q.before.form) == p.expected
    requires q.after.Ins? && Encodable(q.after.instr, q.after.form) && q.nops < 15
    requires p.replacement == Encode(q.after.instr, q.after.form) + seq(q.nops, _ => 0x90)
    ensures Means(p, q)
  {
    hide Encode, Encodable, WellFormed, Assemble, Replaced;
    ReplacedBytes(q.after, q.nops);
  }

  lemma ManyNops()
    ensures seq(0, _ => 0x90) == [] && seq(1, _ => 0x90) == [0x90] && seq(2, _ => 0x90) == [0x90, 0x90]
    ensures seq(5, _ => 0x90) == [0x90, 0x90, 0x90, 0x90, 0x90]
  {
  }

  /** Every known inline patch, and nothing else, replaces one instruction as listed. */
  lemma InlineMeans(offset: int)
    ensures KnownInlinePatch(offset).Some? <==> MeaningOf(offset).Some?
    ensures KnownInlinePatch(offset).Some? ==> Means(KnownInlinePatch(offset).value, MeaningOf(offset).value)
  {
    hide Encode, Encodable, Means;
    ManyNops();
    NopEncodable();
    if offset == 0x59_0001 || offset == 0x59_0321 || offset == 0x59_16C3 || offset == 0x59_19E3 {
      SpellEcxThroughRcx();
      SpellInsteadEcxThroughRcx();
      MeansBy(KnownInlinePatch(offset).value, MeaningOf(offset).value);
    } else if offset == 0x59_16F0 || offset == 0x59_1A10 {
      SpellRdxThroughRbx10();
      SpellInsteadRdxThroughRbx10();
      MeansBy(KnownInlinePatch(offset).value, MeaningOf(offset).value);
    } else if offset == 0x59_1712 || offset == 0x59_1A32 {
      SpellR8ThroughRbx10();
      SpellInsteadR8ThroughRbx10();
      MeansBy(KnownInlinePatch(offset).value, MeaningOf(offset).value);
    } else if offset == 0x59_1719 || offset == 0x59_1A39 {
      SpellRdxThroughRbx18();
      SpellInsteadRdxThroughRbx10();
      MeansBy(KnownInlinePatch(offset).value, MeaningOf(offset).value);
    } else if offset == 0x59_0CF4 {
      SpellBranchD1();
      NopByte();
      MeansBy(KnownInlinePatch(offset).value, MeaningOf(offset).value);
    } else if offset == 0x59_4A41 || offset == 0x59_4D61 {
      SpellCompareRsi24();
      SpellInsteadCompareRsi24();
      MeansBy(KnownInlinePatch(offset).value, MeaningOf(offset).value);
    } else if offset == 0x59_66FB {
      SpellSetR14();
      SpellInsteadSetR14();
      MeansBy(KnownInlinePatch(offset).value, MeaningOf(offset).value);
    } else if offset == 0x59_6649 {
      SpellBranch3A();
      SpellInsteadBranch3A();
      MeansBy(KnownInlinePatch(offset).value, MeaningOf(offset).value);
    } else if offset == 0x59_687F {
      SpellStoreRbx28();
      SpellInsteadStoreRbx28();
      MeansBy(KnownInlinePatch(offset).value, MeaningOf(offset).value);
    } else if offset == 0x59_55A2 {
      SpellBranch0B();
      NopByte();
      MeansBy(KnownInlinePatch(offset).value, MeaningOf(offset).value);
    } else if offset == 0x59_53E4 {
      SpellBranchB2();
      NopByte();
      MeansBy(KnownInlinePatch(offset).value, MeaningOf(offset).value);
    } else if offset == 0x59_67E5 {
      SpellBranchBack2B3();
      NopByte();
      MeansBy(KnownInlinePatch(offset).value, MeaningOf(offset).value);
    } else if offset == 0x59_7DB1 {
      SpellStoreRbp20();
      SpellInsteadStoreRbp20();
      MeansBy(KnownInlinePatch(offset).value, MeaningOf(offset).value);
    }
  }

  lemma NopEncodable()
    ensures Encodable(Nop, Std)
  {
  }
}
