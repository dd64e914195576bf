/**
 An instruction decoder for the subset, after the Intel 64 and IA-32 Software Developer's
 Manual, Volume 2, sections 2.1 (instruction format) and 2.2.1 (REX prefixes): prefix,
 opcode, ModR/M, SIB, displacement, immediate. It knows nothing of the stubs.
 */
module Decoder {
  import opened Wrappers
  import opened Words
  import opened Machine

  datatype Decoded = Decoded(instr: Instr, length: nat)

  datatype Rex = Rex(present: bool, w: bool, r: bool, x: bool, b: bool)

  datatype ModRm = ModRm(reg: Reg, rm: Operand, digit: nat, next: nat)

  /** The byte at `i`, or -1 past the end of what could be fetched. */
  function At(b: seq<Byte>, i: nat): int {
    if i < |b| then b[i] else -1
  }

  function Byte1(b: seq<Byte>, i: nat): Option<U64> {
    if i < |b| then Some(b[i]) else None
  }

  function DwordOf(b0: int, b1: int, b2: int, b3: int): int {
    b0 + 0x100 * b1 + 0x1_0000 * b2 + 0x100_0000 * b3
  }

  function Dword(b: seq<Byte>, i: nat): Option<U64> {
    if i + 4 <= |b| then Some(DwordOf(b[i], b[i + 1], b[i + 2], b[i + 3])) else None
  }

  function Qword(b: seq<Byte>, i: nat): Option<U64> {
    var low, high := Dword(b, i), Dword(b, i + 4);
    if low.Some? && high.Some? then Some(low.value + 0x1_0000_0000 * high.value) else None
  }

  /** The unsigned little-endian field of `n` bytes at `i`. */
  function Field(b: seq<Byte>, i: nat, n: nat): Option<nat>
    requires n == 1 || n == 4 || n == 8
  {
    if n == 1 then Byte1(b, i) else if n == 4 then Dword(b, i) else Qword(b, i)
  }

  function SignedField(b: seq<Byte>, i: nat, n: nat): Option<int>
    requires n == 1 || n == 4
  {
    if n == 1 then
      (if i < |b| then Some(Signed(b[i], 0x100)) else None)
    else
      var v := Dword(b, i);
      if v.Some? then Some(Signed(v.value, 0x1_0000_0000)) else None
  }

  const NO_REX: Rex := Rex(false, false, false, false, false)

  /** `weight` when the bit is set. */
  function Weigh(bit: bool, weight: nat): (v: nat)
    ensures v == if bit then weight else 0
  {
    if bit then weight else 0
  }

  function ParseRex(b: seq<Byte>): Rex {
    var p := At(b, 0) - 0x40;
    if 0 <= p < 0x10 then
      var w := p >= 8;
      var p3 := p - Weigh(w, 8);
      var r := p3 >= 4;
      var p2 := p3 - Weigh(r, 4);
      var x := p2 >= 2;
      Rex(true, w, r, x, p2 - Weigh(x, 2) == 1)
    else NO_REX
  }

  /** A register field of three bits, extended by a prefix bit. */
  function Extended(bit: bool, low: nat): Reg
    requires low < 8
  {
    RegOf(Weigh(bit, 8) + low)
  }

  /** The top two bits, the middle three and the low three of a ModR/M or SIB byte. */
  datatype Fields = Fields(top: nat, mid: nat, low: nat)

  function Split(m: int): (f: Fields)
    requires 0 <= m < 0x100
    ensures f.top < 4 && f.mid < 8 && f.low < 8 && m == 0x40 * f.top + 8 * f.mid + f.low
  {
    var top := if m < 0x40 then 0 else if m < 0x80 then 1 else if m < 0xC0 then 2 else 3;
    var six := m - 0x40 * top;
    var mid := if six < 8 then 0 else if six < 16 then 1 else if six < 24 then 2 else if six < 32 then 3
               else if six < 40 then 4 else if six < 48 then 5 else if six < 56 then 6 else 7;
    Fields(top, mid, six - 8 * mid)
  }

  /** Base without index, or nothing: the forms with a zero, 8-bit or 32-bit displacement. */
  function WithDisplacement(b: seq<Byte>, at: nat, size: nat, reg: Reg, digit: nat, base: Option<Reg>,
                            index: Option<Reg>, scale: Scale): Option<ModRm>
    requires size == 0 || size == 1 || size == 4
  {
    if size == 0 then Some(ModRm(reg, M(base, index, scale, 0), digit, at))
    else
      var disp := SignedField(b, at, size);
      if disp.Some? then Some(ModRm(reg, M(base, index, scale, disp.value), digit, at + size)) else None
  }

  function DisplacementSize(mode: nat): nat {
    if mode == 0 then 0 else if mode == 1 then 1 else 4
  }

  function ParseSib(b: seq<Byte>, at: nat, rex: Rex, mode: nat, reg: Reg, digit: nat): Option<ModRm>
  {
    var sib := At(b, at);
    if sib < 0 then None
    else
      var f := Split(sib);
      var scale := if f.top == 0 then X1 else if f.top == 1 then X2 else if f.top == 2 then X4 else X8;
      var r := Extended(rex.x, f.mid);
      var index := if r == RSP then None else Some(r);
      if f.low == 5 && mode == 0
      then WithDisplacement(b, at + 1, 4, reg, digit, None, index, scale)
      else WithDisplacement(b, at + 1, DisplacementSize(mode), reg, digit, Some(Extended(rex.b, f.low)), index, scale)
  }

  function ParseModRm(b: seq<Byte>, at: nat, rex: Rex): Option<ModRm>
  {
    var m := At(b, at);
    if m < 0 then None
    else
      var f := Split(m);
      var reg := Extended(rex.r, f.mid);
      if f.top == 3 then Some(ModRm(reg, R(Extended(rex.b, f.low)), f.mid, at + 1))
      else if f.low == 4 then ParseSib(b, at + 1, rex, f.top, reg, f.mid)
      else if f.low == 5 && f.top == 0 then None  // RIP-relative: outside the subset
      else WithDisplacement(b, at + 1, DisplacementSize(f.top), reg, f.mid, Some(Extended(rex.b, f.low)), None, X1)
  }

  /** Without a REX prefix the byte registers 4 to 7 are AH, CH, DH and BH. */
  predicate ByteRegister(rex: Rex, r: Reg) {
    rex.present || Code(r) < 4
  }

  predicate ByteOperand(rex: Rex, op: Operand) {
    op.M? || ByteRegister(rex, op.r)
  }

  function ConditionOf(nibble: int): Option<Condition> {
    if nibble == 2 then Some(B)
    else if nibble == 3 then Some(AE)
    else if nibble == 4 then Some(E)
    else if nibble == 5 then Some(NE)
    else None
  }

  function GroupOp(digit: nat): Option<AluOp> {
    if digit == 0 then Some(Add)
    else if digit == 5 then Some(Sub)
    else if digit == 6 then Some(Xor)
    else if digit == 7 then Some(Cmp)
    else None
  }

  function ConditionalJump(cond: Option<Condition>, rel: Option<int>, length: nat): Option<Decoded> {
    if cond.Some? && rel.Some? then Some(Decoded(Jcc(cond.value, rel.value), length)) else None
  }

  /** `0F` opcodes: the near conditional jumps, MOVZX from a byte, and the clearing of XMM0. */
  function DecodeTwoByte(b: seq<Byte>, at: nat, rex: Rex): Option<Decoded>
  {
    var op := At(b, at + 1);
    if op == 0xB6 then
      var m := ParseModRm(b, at + 2, rex);
      if m.None? || !ByteOperand(rex, m.value.rm) then None
      else Some(Decoded(Movzx(if rex.w then W64 else W32, m.value.reg, m.value.rm), m.value.next))
    else if 0x80 <= op < 0x90 then ConditionalJump(ConditionOf(op - 0x80), SignedField(b, at + 2, 4), at + 6)
    else if op == 0x57 && At(b, at + 2) == 0xC0 && !rex.present then Some(Decoded(ClearVector, at + 3))
    else None
  }

  /** Opcodes with a ModR/M byte and no immediate. */
  function DecodeModRm(op: int, m: ModRm, rex: Rex): Option<Decoded> {
    var w := if rex.w then W64 else W32;
    var byteForm := ByteOperand(rex, m.rm) && ByteRegister(rex, m.reg);
    if op == 0x31 then Some(Decoded(Alu(Xor, w, m.rm, From(R(m.reg))), m.next))
    else if op == 0x33 then Some(Decoded(Alu(Xor, w, R(m.reg), From(m.rm)), m.next))
    else if op == 0x38 && byteForm then Some(Decoded(Alu(Cmp, W8, m.rm, From(R(m.reg))), m.next))
    else if op == 0x39 then Some(Decoded(Alu(Cmp, w, m.rm, From(R(m.reg))), m.next))
    else if op == 0x3B then Some(Decoded(Alu(Cmp, w, R(m.reg), From(m.rm)), m.next))
    else if op == 0x84 && byteForm then Some(Decoded(Alu(Test, W8, m.rm, From(R(m.reg))), m.next))
    else if op == 0x85 then Some(Decoded(Alu(Test, w, m.rm, From(R(m.reg))), m.next))
    else if op == 0x88 && byteForm then Some(Decoded(Mov(W8, m.rm, From(R(m.reg))), m.next))
    else if op == 0x89 then Some(Decoded(Mov(w, m.rm, From(R(m.reg))), m.next))
    else if op == 0x8A && byteForm then Some(Decoded(Mov(W8, R(m.reg), From(m.rm)), m.next))
    else if op == 0x8B then Some(Decoded(Mov(w, R(m.reg), From(m.rm)), m.next))
    else if op == 0x8D && m.rm.M? then Some(Decoded(Lea(w, m.reg, m.rm), m.next))
    else if op == 0xFF && m.digit == 0 then Some(Decoded(Inc(w, m.rm), m.next))
    else if op == 0xFF && m.digit == 4 then Some(Decoded(JmpTo(m.rm), m.next))
    else None
  }

  function Grouped(w: Width, m: ModRm, imm: Option<int>, length: nat): Option<Decoded> {
    var g := GroupOp(m.digit);
    if g.Some? && imm.Some? then Some(Decoded(Alu(g.value, w, m.rm, Imm(imm.value)), length)) else None
  }

  /** Opcodes with a ModR/M byte and an immediate. */
  function DecodeModRmImmediate(b: seq<Byte>, op: int, m: ModRm, rex: Rex): Option<Decoded> {
    var w := if rex.w then W64 else W32;
    var imm8, imm32 := SignedField(b, m.next, 1), SignedField(b, m.next, 4);
    if op == 0x80 && ByteOperand(rex, m.rm) then Grouped(W8, m, imm8, m.next + 1)
    else if op == 0x81 then Grouped(w, m, imm32, m.next + 4)
    else if op == 0x83 then Grouped(w, m, imm8, m.next + 1)
    else if op == 0xC1 && Field(b, m.next, 1).Some? && (m.digit == 4 || m.digit == 7)
    then Some(Decoded(Shift(if m.digit == 4 then Shl else Sar, w, m.rm, Field(b, m.next, 1).value), m.next + 1))
    else if op == 0xC6 && m.digit == 0 && ByteOperand(rex, m.rm) && imm8.Some?
    then Some(Decoded(Mov(W8, m.rm, Imm(imm8.value)), m.next + 1))
    else if op == 0xC7 && m.digit == 0 && imm32.Some?
    then Some(Decoded(Mov(w, m.rm, Imm(imm32.value)), m.next + 4))
    else None
  }

  /** Opcodes without a ModR/M byte. */
  function DecodePlain(b: seq<Byte>, op: int, at: nat, rex: Rex): Option<Decoded>
  {
    var w := if rex.w then W64 else W32;
    if 0x50 <= op < 0x58 then Some(Decoded(Push(Extended(rex.b, op - 0x50)), at))
    else if 0x58 <= op < 0x60 then Some(Decoded(Pop(Extended(rex.b, op - 0x58)), at))
    else if 0x70 <= op < 0x80 then ConditionalJump(ConditionOf(op - 0x70), SignedField(b, at, 1), at + 1)
    else if op == 0x3D && SignedField(b, at, 4).Some?
    then Some(Decoded(Alu(Cmp, w, R(RAX), Imm(SignedField(b, at, 4).value)), at + 4))
    else if op == 0x90 && !rex.b then Some(Decoded(Nop, at))
    else if 0xB8 <= op < 0xC0 then
      var v := Field(b, at, Size(w));
      if v.Some? then Some(Decoded(Mov(w, R(Extended(rex.b, op - 0xB8)), Imm(v.value)), at + Size(w))) else None
    else if op == 0xE9 && SignedField(b, at, 4).Some? then Some(Decoded(Jmp(SignedField(b, at, 4).value), at + 4))
    else if op == 0xEB && SignedField(b, at, 1).Some? then Some(Decoded(Jmp(SignedField(b, at, 1).value), at + 1))
    else None
  }

  predicate TakesImmediate(op: int) {
    op == 0x80 || op == 0x81 || op == 0x83 || op == 0xC1 || op == 0xC6 || op == 0xC7
  }

  predicate TakesModRm(op: int) {
    op == 0x31 || op == 0x33 || op == 0x38 || op == 0x39 || op == 0x3B || 0x84 <= op <= 0x85
    || 0x88 <= op <= 0x8B || op == 0x8D || op == 0xFF || TakesImmediate(op)
  }

  /** The instruction at the start of `b`, or None outside the subset or when bytes are missing. */
  function Decode(b: seq<Byte>): Option<Decoded> {
    var rex := ParseRex(b);
    DecodeOpcode(b, if rex.present then 1 else 0, rex)
  }

  function DecodeOpcode(b: seq<Byte>, at: nat, rex: Rex): Option<Decoded>
  {
    var op := At(b, at);
    if op == 0x0F then DecodeTwoByte(b, at, rex)
    else if TakesModRm(op) then
      var m := ParseModRm(b, at + 1, rex);
      if m.None? then None
      else if TakesImmediate(op) then DecodeModRmImmediate(b, op, m.value, rex)
      else DecodeModRm(op, m.value, rex)
    else DecodePlain(b, op, at + 1, rex)
  }

  /* ---------- fields written little-endian ---------- */

  predicate FitsSigned8(d: int) {
    -0x80 <= d < 0x80
  }

  predicate FitsSigned32(d: int) {
    -0x8000_0000 <= d < 0x8000_0000
  }

  /** A little-endian dword decodes to the signed number it was written from. */
  lemma SignedOfLittleEndian(before: seq<Byte>, d: int, after: seq<Byte>)
    requires FitsSigned32(d)
    ensures SignedField(before + LittleEndian(d, 4) + after, |before|, 4) == Some(d)
  {
    hide Dword, LittleEndian;
    DwordOfLittleEndian(before, d, after);
    assert d % 0x1_0000_0000 == if d < 0 then d + 0x1_0000_0000 else d;
  }

  lemma DwordOfLittleEndian(before: seq<Byte>, d: int, after: seq<Byte>)
    ensures Dword(before + LittleEndian(d, 4) + after, |before|) == Some(d % 0x1_0000_0000)
  {
    var bytes := LittleEndian(d, 4);
    FourBytes(d);
    assert (before + bytes + after)[|before|..|before| + 4] == bytes;
  }

  lemma FourBytes(d: int)
    ensures LittleEndian(d, 4) == [d % 0x100, d / 0x100 % 0x100, d / 0x1_0000 % 0x100, d / 0x100_0000 % 0x100]
    ensures DwordOf(d % 0x100, d / 0x100 % 0x100, d / 0x1_0000 % 0x100, d / 0x100_0000 % 0x100) == d % 0x1_0000_0000
  {
    assert LittleEndian(d / 0x1_0000, 2) == [d / 0x1_0000 % 0x100, d / 0x100_0000 % 0x100];
    assert LittleEndian(d / 0x100, 3) == [d / 0x100 % 0x100] + LittleEndian(d / 0x1_0000, 2);
  }

  lemma Halves(v: U64)
    ensures v % 0x1_0000_0000 + 0x1_0000_0000 * (v / 0x1_0000_0000 % 0x1_0000_0000) == v
  {
    assert v / 0x1_0000_0000 < 0x1_0000_0000;
  }

  lemma TwoDwords(before: seq<Byte>, low: seq<Byte>, high: seq<Byte>, after: seq<Byte>, a: U64, b: U64)
    requires |low| == 4
    requires Dword(before + low + (high + after), |before|) == Some(a)
    requires Dword((before + low) + high + after, |before + low|) == Some(b)
    requires a + 0x1_0000_0000 * b < 0x1_0000_0000_0000_0000
    ensures Qword(before + (low + high) + after, |before|) == Some(a + 0x1_0000_0000 * b)
  {
    hide Dword;
    assert before + (low + high) + after == before + low + (high + after);
    assert before + (low + high) + after == (before + low) + high + after;
  }

  lemma QwordOfLittleEndian(before: seq<Byte>, v: U64, after: seq<Byte>)
    ensures Qword(before + LittleEndian(v, 8) + after, |before|) == Some(v)
  {
    hide LittleEndian, Dword, Qword;
    EightBytes(v);
    Halves(v);
    var low, high := LittleEndian(v, 4), LittleEndian(v / 0x1_0000_0000, 4);
    DwordOfLittleEndian(before, v, high + after);
    DwordOfLittleEndian(before + low, v / 0x1_0000_0000, after);
    TwoDwords(before, low, high, after, v % 0x1_0000_0000, v / 0x1_0000_0000 % 0x1_0000_0000);
  }

  lemma EightBytes(v: int)
    ensures LittleEndian(v, 8) == LittleEndian(v, 4) + LittleEndian(v / 0x1_0000_0000, 4)
  {
    FourBytes(v);
    hide LittleEndian;
    DropByte(v, 7);
    DropByte(v / 0x100, 6);
    DropByte(v / 0x1_0000, 5);
    DropByte(v / 0x100_0000, 4);
    assert v / 0x100 / 0x100 == v / 0x1_0000;
    assert v / 0x1_0000 / 0x100 == v / 0x100_0000;
    assert v / 0x100_0000 / 0x100 == v / 0x1_0000_0000;
  }

  lemma DropByte(v: int, n: nat)
    ensures LittleEndian(v, n + 1) == [v % 0x100] + LittleEndian(v / 0x100, n)
  {
  }
}
