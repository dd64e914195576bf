/**
 The canonical encoding of each instruction of the subset, and the proof that the decoder
 inverts it. The stub builders emit hexadecimal bytes; the listings they are proved against
 are written as instructions and turned into bytes here.
 */
module InstructionEncoding {
  import opened Wrappers
  import opened Words
  import opened Machine
  import opened Decoder

  /**
   Where the subset has two encodings of one instruction: `Alt` puts the source, not the
   destination, in the r/m field, and makes a conditional jump short.
   */
  datatype Form = Std | Alt

  /** The bit of a register's number that goes into the prefix, and the three that do not. */
  function High(r: Reg): bool {
    Code(r) >= 8
  }

  function Low(r: Reg): (l: nat)
    ensures l < 8
  {
    Code(r) - Weigh(High(r), 8)
  }

  /** The two parts of a register's number give the register back. */
  lemma Halved(r: Reg)
    ensures Extended(High(r), Low(r)) == r
  {
  }

  /** The registers whose numbers serve as opcode extensions or as the escape to a SIB byte. */
  lemma DigitFacts()
    ensures Low(RAX) == 0 && Low(RSP) == 4 && Low(RBP) == 5 && Low(RSI) == 6 && Low(RDI) == 7
    ensures !High(RAX) && !High(RSP) && !High(RBP) && !High(RSI) && !High(RDI)
    ensures Code(RAX) == 0 && Code(RSP) == 4 && Code(RBP) == 5 && Code(RSI) == 6 && Code(RDI) == 7
    ensures Extended(false, 4) == RSP
  {
  }

  predicate EncodableOperand(op: Operand) {
    op.M? ==> op.base.Some? && op.index != Some(RSP) && op.scale == X1 && FitsSigned32(op.disp)
  }

  function DispSize(base: Reg, disp: int): (n: nat)
    ensures n == 0 || n == 1 || n == 4
  {
    if disp == 0 && Low(base) != 5 then 0 else if FitsSigned8(disp) then 1 else 4
  }

  function ModeOf(size: nat): (mode: nat)
    ensures mode < 3
  {
    if size == 0 then 0 else if size == 1 then 1 else 2
  }

  /** ModR/M byte, SIB byte when the base or an index needs one, displacement. */
  function ModRmBytes(reg: Reg, rm: Operand): seq<Byte>
    requires EncodableOperand(rm)
  {
    hide Code, RegOf, Extended;
    if rm.R? then [0xC0 + 8 * Low(reg) + Low(rm.r)]
    else
      var base := rm.base.value;
      var size := DispSize(base, rm.disp);
      var mode := ModeOf(size);
      (if rm.index.Some? then [0x40 * mode + 8 * Low(reg) + 4, 8 * Low(rm.index.value) + Low(base)]
       else if Low(base) == 4 then [0x40 * mode + 8 * Low(reg) + 4, 0x20 + Low(base)]
       else [0x40 * mode + 8 * Low(reg) + Low(base)])
      + LittleEndian(rm.disp, size)
  }

  function IndexBit(rm: Operand): bool {
    rm.M? && rm.index.Some? && High(rm.index.value)
  }

  function BaseBit(rm: Operand): bool {
    if rm.R? then High(rm.r) else rm.base.Some? && High(rm.base.value)
  }

  /** The prefix, left out when it would say nothing. */
  function RexOf(w: Width, r: bool, x: bool, b: bool): Rex {
    Rex(w == W64 || r || x || b, w == W64, r, x, b)
  }

  function RexBytes(rex: Rex): seq<Byte> {
    if rex.present then [0x40 + Weigh(rex.w, 8) + Weigh(rex.r, 4) + Weigh(rex.x, 2) + Weigh(rex.b, 1)] else []
  }

  function OperandRex(w: Width, reg: Reg, rm: Operand): (rex: Rex)
  {
    RexOf(w, High(reg), IndexBit(rm), BaseBit(rm))
  }

  /** Prefix, opcode, ModR/M and what it brings, immediate. */
  function WithModRm(w: Width, opcode: seq<Byte>, reg: Reg, rm: Operand, imm: seq<Byte>): seq<Byte>
    requires EncodableOperand(rm)
  {
    RexBytes(OperandRex(w, reg, rm)) + opcode + ModRmBytes(reg, rm) + imm
  }

  function OpcodeOf(c: Condition): seq<Byte> {
    match c
    case B => [0x0F, 0x82]
    case AE => [0x0F, 0x83]
    case E => [0x0F, 0x84]
    case NE => [0x0F, 0x85]
  }

  /** Byte registers other than AL, CL, DL, BL need a prefix that only R8 to R15 bring here. */
  predicate EncodableByteRegister(r: Reg) {
    Code(r) < 4 || Code(r) >= 8
  }

  function MrOpcode(op: AluOp, w: Width): Byte {
    match op
    case Add => if w == W8 then 0x00 else 0x01
    case Sub => if w == W8 then 0x28 else 0x29
    case Xor => if w == W8 then 0x30 else 0x31
    case Cmp => if w == W8 then 0x38 else 0x39
    case Test => if w == W8 then 0x84 else 0x85
  }

  /** The register whose number is the operation's opcode extension. */
  function DigitOf(op: AluOp): Reg {
    match op
    case Add => RAX
    case Sub => RBP
    case Xor => RSI
    case Cmp => RDI
    case Test => RAX
  }

  predicate ByteOperandOk(w: Width, op: Operand) {
    w == W8 && op.R? ==> EncodableByteRegister(op.r)
  }

  predicate EncodableMov(w: Width, dst: Operand, src: Source, form: Form) {
    && EncodableOperand(dst) && ByteOperandOk(w, dst)
    && match src
       case Imm(v) =>
         if dst.R? then w != W8 && 0 <= v < Modulus(w)
         else if w == W8 then FitsSigned8(v)
         else FitsSigned32(v)
       case From(op) =>
         && EncodableOperand(op) && ByteOperandOk(w, op)
         && if form == Std then op.R? else dst.R?
  }

  predicate EncodableAlu(op: AluOp, w: Width, dst: Operand, src: Source, form: Form) {
    && EncodableOperand(dst) && ByteOperandOk(w, dst)
    && match src
       case Imm(v) => op != Test && if w == W8 then FitsSigned8(v) else FitsSigned32(v)
       case From(o) =>
         && EncodableOperand(o) && ByteOperandOk(w, o)
         && if form == Std then o.R? && (op == Cmp || op == Test || (op == Xor && w != W8))
            else dst.R? && w != W8 && (op == Cmp || op == Xor)
  }

  predicate Encodable(i: Instr, form: Form) {
    match i
    case Mov(w, dst, src) => EncodableMov(w, dst, src, form)
    case Movzx(w, _, byteSrc) => w != W8 && EncodableOperand(byteSrc) && ByteOperandOk(W8, byteSrc)
    case Lea(w, _, addr) => w != W8 && addr.M? && EncodableOperand(addr)
    case Alu(op, w, dst, src) => EncodableAlu(op, w, dst, src, form)
    case Shift(_, w, dst, count) => w != W8 && EncodableOperand(dst) && count < 0x100
    case Inc(w, dst) => w != W8 && EncodableOperand(dst)
    case Push(_) => true
    case Pop(_) => true
    case Jcc(_, rel) => if form == Std then FitsSigned32(rel) else FitsSigned8(rel)
    case Jmp(_) => false
    case ClearVector => false
    case JmpTo(target) => target.R?
    case Nop => true
  }

  /** What the bytes of an instruction are made of, before they are laid out. */
  datatype Plan =
    | Modded(w: Width, opcode: seq<Byte>, reg: Reg, rm: Operand, imm: Trailer)
    | Plain(w: Width, opcode: seq<Byte>, r: bool, imm: Trailer)

  /** The immediate: none, or a number in one, four or eight bytes. */
  datatype Trailer = NoImm | Imm8(v: int) | Imm32(v: int) | Imm64(v: int)

  function PlanMov(w: Width, dst: Operand, src: Source, form: Form): Plan
    requires EncodableMov(w, dst, src, form)
  {
    match src
    case Imm(v) =>
      if dst.R? then Plain(w, [0xB8 + Low(dst.r)], High(dst.r), if w == W32 then Imm32(v) else Imm64(v))
      else if w == W8 then Modded(w, [0xC6], RAX, dst, Imm8(v))
      else Modded(w, [0xC7], RAX, dst, Imm32(v))
    case From(op) =>
      if form == Std then Modded(w, [if w == W8 then 0x88 else 0x89], op.r, dst, NoImm)
      else Modded(w, [if w == W8 then 0x8A else 0x8B], dst.r, op, NoImm)
  }

  function PlanAlu(op: AluOp, w: Width, dst: Operand, src: Source, form: Form): Plan
    requires EncodableAlu(op, w, dst, src, form)
  {
    match src
    case Imm(v) =>
      if w == W8 then Modded(w, [0x80], DigitOf(op), dst, Imm8(v))
      else if FitsSigned8(v) then Modded(w, [0x83], DigitOf(op), dst, Imm8(v))
      else if op == Cmp && dst == R(RAX) then Plain(w, [0x3D], false, Imm32(v))
      else Modded(w, [0x81], DigitOf(op), dst, Imm32(v))
    case From(o) =>
      if form == Std then Modded(w, [MrOpcode(op, w)], o.r, dst, NoImm)
      else Modded(w, [if op == Cmp then 0x3B else 0x33], dst.r, o, NoImm)
  }

  function PlanOf(i: Instr, form: Form): (plan: Plan)
    requires Encodable(i, form)
    ensures plan.Modded? ==> EncodableOperand(plan.rm)
  {
    hide Code, RegOf, Extended, Low, High;
    match i
    case Mov(w, dst, src) => PlanMov(w, dst, src, form)
    case Movzx(w, reg, byteSrc) => Modded(w, [0x0F, 0xB6], reg, byteSrc, NoImm)
    case Lea(w, reg, addr) => Modded(w, [0x8D], reg, addr, NoImm)
    case Alu(op, w, dst, src) => PlanAlu(op, w, dst, src, form)
    case Shift(op, w, dst, count) => Modded(w, [0xC1], if op == Shl then RSP else RDI, dst, Imm8(count))
    case Inc(w, dst) => Modded(w, [0xFF], RAX, dst, NoImm)
    case Push(reg) => Plain(W32, [0x50 + Low(reg)], High(reg), NoImm)
    case Pop(reg) => Plain(W32, [0x58 + Low(reg)], High(reg), NoImm)
    case Jcc(cond, rel) =>
      if form == Std then Plain(W32, OpcodeOf(cond), false, Imm32(rel))
      else Plain(W32, [OpcodeOf(cond)[1] - 0x10], false, Imm8(rel))
    case JmpTo(target) => Modded(W32, [0xFF], RSP, target, NoImm)
    case Nop => Plain(W32, [0x90], false, NoImm)
  }

  function ImmediateBytes(t: Trailer): seq<Byte> {
    match t
    case NoImm => []
    case Imm8(v) => LittleEndian(v, 1)
    case Imm32(v) => LittleEndian(v, 4)
    case Imm64(v) => LittleEndian(v, 8)
  }

  function Emit(plan: Plan): seq<Byte>
    requires plan.Modded? ==> EncodableOperand(plan.rm)
  {
    match plan
    case Modded(w, opcode, reg, rm, imm) => WithModRm(w, opcode, reg, rm, ImmediateBytes(imm))
    case Plain(w, opcode, r, imm) => RexBytes(RexOf(w, false, false, r)) + opcode + ImmediateBytes(imm)
  }

  /** The bytes of an instruction; none when it has no encoding here. */
  function Encode(i: Instr, form: Form): seq<Byte> {
    if Encodable(i, form) then Emit(PlanOf(i, form)) else []
  }

  /* ---------- decoding what was encoded ---------- */

  lemma SignedOfByte(before: seq<Byte>, d: int, after: seq<Byte>)
    requires FitsSigned8(d)
    ensures SignedField(before + LittleEndian(d, 1) + after, |before|, 1) == Some(d)
  {
    assert LittleEndian(d, 1) == [d % 0x100];
    assert (before + LittleEndian(d, 1) + after)[|before|] == d % 0x100;
  }

  lemma DisplacementDecodes(before: seq<Byte>, disp: int, size: nat, after: seq<Byte>, reg: Reg, digit: nat,
                            base: Option<Reg>, index: Option<Reg>)
    requires size == 0 || size == 1 || size == 4
    requires if size == 0 then disp == 0 else if size == 1 then FitsSigned8(disp) else FitsSigned32(disp)
    ensures WithDisplacement(before + LittleEndian(disp, size) + after, |before|, size, reg, digit, base, index, X1)
            == Some(ModRm(reg, M(base, index, X1, disp), digit, |before| + size))
  {
    if size == 1 {
      SignedOfByte(before, disp, after);
    } else if size == 4 {
      SignedOfLittleEndian(before, disp, after);
    }
  }

  lemma SplitJoins(top: nat, mid: nat, low: nat)
    requires top < 4 && mid < 8 && low < 8
    ensures 0x40 * top + 8 * mid + low < 0x100
    ensures Split(0x40 * top + 8 * mid + low) == Fields(top, mid, low)
  {
  }

  /** Reading a SIB byte back, once the displacement after it is known to decode. */
  lemma SibDecodes(bytes: seq<Byte>, at: nat, rex: Rex, mode: nat, reg: Reg, digit: nat, rm: Operand, size: nat)
    requires rm.M? && EncodableOperand(rm) && (rm.index.Some? || Low(rm.base.value) == 4)
    requires rex.x == IndexBit(rm) && rex.b == BaseBit(rm)
    requires size == DispSize(rm.base.value, rm.disp) && mode == ModeOf(size)
    requires At(bytes, at) == 8 * (if rm.index.Some? then Low(rm.index.value) else 4) + Low(rm.base.value)
    ensures ParseSib(bytes, at, rex, mode, reg, digit)
            == WithDisplacement(bytes, at + 1, size, reg, digit, rm.base, rm.index, X1)
  {
    hide Code, RegOf, Extended, Low;
    DigitFacts();
    Halved(rm.base.value);
    if rm.index.Some? {
      Halved(rm.index.value);
    }
    hide WithDisplacement, Split;
    SplitJoins(0, if rm.index.Some? then Low(rm.index.value) else 4, Low(rm.base.value));
  }

  lemma MemoryWithSib(before: seq<Byte>, reg: Reg, rm: Operand, after: seq<Byte>, rex: Rex)
    requires rm.M? && EncodableOperand(rm) && (rm.index.Some? || Low(rm.base.value) == 4)
    requires rex.r == High(reg) && rex.x == IndexBit(rm) && rex.b == BaseBit(rm)
    ensures ParseModRm(before + ModRmBytes(reg, rm) + after, |before|, rex)
            == Some(ModRm(reg, rm, Low(reg), |before| + |ModRmBytes(reg, rm)|))
  {
    hide Code, RegOf, Extended, Low;
    DigitFacts();
    Halved(reg);
    hide WithDisplacement, LittleEndian, Split, ParseSib;
    var base, size := rm.base.value, DispSize(rm.base.value, rm.disp);
    var mid := if rm.index.Some? then Low(rm.index.value) else 4;
    SplitJoins(ModeOf(size), Low(reg), 4);
    var head: seq<Byte> := [0x40 * ModeOf(size) + 8 * Low(reg) + 4, 8 * mid + Low(base)];
    var bytes := before + ModRmBytes(reg, rm) + after;
    assert ModRmBytes(reg, rm) == head + LittleEndian(rm.disp, size);
    assert bytes == (before + head) + LittleEndian(rm.disp, size) + after;
    DisplacementDecodes(before + head, rm.disp, size, after, reg, Low(reg), rm.base, rm.index);
    assert At(bytes, |before|) == head[0] && At(bytes, |before| + 1) == head[1];
    SibDecodes(bytes, |before| + 1, rex, ModeOf(size), reg, Low(reg), rm, size);
  }

  /** Reading a ModR/M byte back that names a base register alone. */
  lemma BaseDecodes(bytes: seq<Byte>, at: nat, rex: Rex, reg: Reg, rm: Operand, size: nat)
    requires rm.M? && EncodableOperand(rm) && rm.index.None? && Low(rm.base.value) != 4
    requires rex.r == High(reg) && rex.b == BaseBit(rm) && size == DispSize(rm.base.value, rm.disp)
    requires At(bytes, at) == 0x40 * ModeOf(size) + 8 * Low(reg) + Low(rm.base.value)
    ensures ParseModRm(bytes, at, rex) == WithDisplacement(bytes, at + 1, size, reg, Low(reg), rm.base, None, X1)
  {
    hide Code, RegOf, Extended, Low;
    DigitFacts();
    Halved(reg);
    Halved(rm.base.value);
    hide WithDisplacement, Split, ParseSib;
    SplitJoins(ModeOf(size), Low(reg), Low(rm.base.value));
  }

  lemma MemoryWithoutSib(before: seq<Byte>, reg: Reg, rm: Operand, after: seq<Byte>, rex: Rex)
    requires rm.M? && EncodableOperand(rm) && rm.index.None? && Low(rm.base.value) != 4
    requires rex.r == High(reg) && rex.x == IndexBit(rm) && rex.b == BaseBit(rm)
    ensures ParseModRm(before + ModRmBytes(reg, rm) + after, |before|, rex)
            == Some(ModRm(reg, rm, Low(reg), |before| + |ModRmBytes(reg, rm)|))
  {
    hide Code, RegOf, Extended, Low;
    DigitFacts();
    hide WithDisplacement, LittleEndian, Split, ParseModRm, FitsSigned32;
    var base, size := rm.base.value, DispSize(rm.base.value, rm.disp);
    SplitJoins(ModeOf(size), Low(reg), Low(base));
    var head: seq<Byte> := [0x40 * ModeOf(size) + 8 * Low(reg) + Low(base)];
    var bytes := before + ModRmBytes(reg, rm) + after;
    assert bytes == (before + head) + LittleEndian(rm.disp, size) + after;
    DisplacementDecodes(before + head, rm.disp, size, after, reg, Low(reg), rm.base, rm.index);
    assert At(bytes, |before|) == head[0];
    BaseDecodes(bytes, |before|, rex, reg, rm, size);
  }

  lemma RegisterOperandBytes(reg: Reg, rm: Operand)
    requires rm.R?
    ensures ModRmBytes(reg, rm) == [0xC0 + 8 * Low(reg) + Low(rm.r)]
  {
    hide Code, RegOf, Extended, Low;
    DigitFacts();
  }

  lemma RegisterOperandDecodes(before: seq<Byte>, reg: Reg, rm: Operand, after: seq<Byte>, rex: Rex)
    requires rm.R? && rex.r == High(reg) && !rex.x && rex.b == High(rm.r)
    ensures ParseModRm(before + ModRmBytes(reg, rm) + after, |before|, rex)
            == Some(ModRm(reg, rm, Low(reg), |before| + |ModRmBytes(reg, rm)|))
  {
    hide Code, RegOf, Extended, Low;
    DigitFacts();
    Halved(reg);
    Halved(rm.r);
    hide Split, WithDisplacement, ParseSib;
    hide ModRmBytes;
    var m: Byte := 0xC0 + 8 * Low(reg) + Low(rm.r);
    RegisterOperandBytes(reg, rm);
    assert (before + [m] + after)[|before|] == m;
    SplitJoins(3, Low(reg), Low(rm.r));
  }

  /** The operand bytes decode to the operands, under the prefix bits the encoder emits. */
  lemma ModRmDecodes(before: seq<Byte>, reg: Reg, rm: Operand, after: seq<Byte>, rex: Rex)
    requires EncodableOperand(rm)
    requires rex.r == High(reg) && rex.x == IndexBit(rm) && rex.b == BaseBit(rm)
    ensures ParseModRm(before + ModRmBytes(reg, rm) + after, |before|, rex)
            == Some(ModRm(reg, rm, Low(reg), |before| + |ModRmBytes(reg, rm)|))
  {
    hide Code, RegOf, Extended, Low;
    DigitFacts();
    hide ParseModRm, ModRmBytes;
    if rm.R? {
      RegisterOperandDecodes(before, reg, rm, after, rex);
    } else if rm.index.Some? || Low(rm.base.value) == 4 {
      MemoryWithSib(before, reg, rm, after, rex);
    } else {
      MemoryWithoutSib(before, reg, rm, after, rex);
    }
  }

  /** Prefixes are read back as emitted, and an absent one is not mistaken for the opcode. */
  lemma RexDecodes(rex: Rex, op: Byte, tail: seq<Byte>)
    requires !rex.present ==> rex == NO_REX && !(0x40 <= op < 0x50)
    ensures ParseRex(RexBytes(rex) + [op] + tail) == rex
    ensures At(RexBytes(rex) + [op] + tail, |RexBytes(rex)|) == op
  {
    var b := RexBytes(rex) + [op] + tail;
    assert b[0] == if rex.present then RexBytes(rex)[0] else op;
  }

  /** The part of an encoding before its immediate, and the operands found there. */
  function Stem(w: Width, opcode: seq<Byte>, reg: Reg, rm: Operand): seq<Byte>
    requires EncodableOperand(rm)
  {
    RexBytes(OperandRex(w, reg, rm)) + opcode + ModRmBytes(reg, rm)
  }

  function Operands(w: Width, opcode: seq<Byte>, reg: Reg, rm: Operand): ModRm
    requires EncodableOperand(rm)
  {
    ModRm(reg, rm, Low(reg), |Stem(w, opcode, reg, rm)|)
  }

  lemma OneByteOpcode(w: Width, op: Byte, reg: Reg, rm: Operand, tail: seq<Byte>)
    requires EncodableOperand(rm) && TakesModRm(op)
    ensures var b, m, rex := Stem(w, [op], reg, rm) + tail, Operands(w, [op], reg, rm), OperandRex(w, reg, rm);
            Decode(b) == if TakesImmediate(op) then DecodeModRmImmediate(b, op, m, rex) else DecodeModRm(op, m, rex)
  {
    hide Code, RegOf, Extended, Low;
    DigitFacts();
    hide DecodeModRm, DecodeModRmImmediate, ModRmBytes, ParseModRm, ParseRex, RexBytes;
    var rex := OperandRex(w, reg, rm);
    var b := Stem(w, [op], reg, rm) + tail;
    var prefix := RexBytes(rex);
    PrefixLength(rex);
    RexDecodes(rex, op, ModRmBytes(reg, rm) + tail);
    assert b == prefix + [op] + (ModRmBytes(reg, rm) + tail);
    assert b == (prefix + [op]) + ModRmBytes(reg, rm) + tail;
    ModRmDecodes(prefix + [op], reg, rm, tail, rex);
  }

  lemma PrefixLength(rex: Rex)
    ensures |RexBytes(rex)| == if rex.present then 1 else 0
  {
  }

  lemma TwoByteOpcode(w: Width, reg: Reg, rm: Operand, tail: seq<Byte>)
    requires w != W8 && EncodableOperand(rm) && ByteOperandOk(W8, rm)
    ensures Decode(Stem(w, [0x0F, 0xB6], reg, rm) + tail)
            == Some(Decoded(Movzx(w, reg, rm), |Stem(w, [0x0F, 0xB6], reg, rm)|))
  {
    hide Code, RegOf, Extended, Low;
    DigitFacts();
    hide ModRmBytes, ParseModRm, ParseRex, RexBytes;
    var rex := OperandRex(w, reg, rm);
    var b := Stem(w, [0x0F, 0xB6], reg, rm) + tail;
    var prefix := RexBytes(rex);
    PrefixLength(rex);
    RexDecodes(rex, 0x0F, [0xB6] + ModRmBytes(reg, rm) + tail);
    assert b == prefix + [0x0F] + ([0xB6] + ModRmBytes(reg, rm) + tail);
    assert b == (prefix + [0x0F, 0xB6]) + ModRmBytes(reg, rm) + tail;
    assert b[|prefix| + 1] == 0xB6;
    ModRmDecodes(prefix + [0x0F, 0xB6], reg, rm, tail, rex);
  }

  lemma StemAndImmediate(w: Width, opcode: seq<Byte>, reg: Reg, rm: Operand, imm: seq<Byte>, after: seq<Byte>)
    requires EncodableOperand(rm)
    ensures WithModRm(w, opcode, reg, rm, imm) + after == Stem(w, opcode, reg, rm) + (imm + after)
    ensures Stem(w, opcode, reg, rm) + (imm + after) == Stem(w, opcode, reg, rm) + imm + after
    ensures |WithModRm(w, opcode, reg, rm, imm)| == |Stem(w, opcode, reg, rm)| + |imm|
  {
    hide Code, RegOf, Extended, Low;
    DigitFacts();
    hide ModRmBytes, RexBytes, OperandRex;
  }

  lemma MovRegisterDecodes(w: Width, dst: Operand, op: Operand, form: Form, after: seq<Byte>)
    requires EncodableMov(w, dst, From(op), form)
    ensures Decode(Emit(PlanMov(w, dst, From(op), form)) + after)
            == Some(Decoded(Mov(w, dst, From(op)), |Emit(PlanMov(w, dst, From(op), form))|))
  {
    hide Code, RegOf, Extended, Low;
    DigitFacts();
    hide Decode, ModRmBytes, RexBytes, Stem, WithModRm;
    var opcode: Byte := if form == Std then (if w == W8 then 0x88 else 0x89) else if w == W8 then 0x8A else 0x8B;
    var reg, rm := if form == Std then op.r else dst.r, if form == Std then dst else op;
    StemAndImmediate(w, [opcode], reg, rm, [], after);
    OneByteOpcode(w, opcode, reg, rm, [] + after);
  }

  lemma MovStoreRead(b: seq<Byte>, w: Width, dst: Operand, m: ModRm, v: int)
    requires EncodableOperand(dst) && ByteOperandOk(w, dst)
    requires m == ModRm(RAX, dst, 0, m.next)
    requires SignedField(b, m.next, if w == W8 then 1 else 4) == Some(v)
    ensures DecodeModRmImmediate(b, if w == W8 then 0xC6 else 0xC7, m, OperandRex(w, RAX, dst))
            == Some(Decoded(Mov(w, dst, Imm(v)), m.next + if w == W8 then 1 else 4))
  {
    hide Code, RegOf, Extended, Low;
    DigitFacts();
    hide SignedField, Field, GroupOp;
  }

  lemma MovStoreDecodes(w: Width, dst: Operand, v: int, after: seq<Byte>)
    requires EncodableOperand(dst) && ByteOperandOk(w, dst)
    requires if w == W8 then FitsSigned8(v) else FitsSigned32(v)
    ensures var code := WithModRm(w, [if w == W8 then 0xC6 else 0xC7], RAX, dst, LittleEndian(v, if w == W8 then 1 else 4));
            Decode(code + after) == Some(Decoded(Mov(w, dst, Imm(v)), |code|))
  {
    hide Code, RegOf, Extended, Low;
    DigitFacts();
    hide Decode, DecodeModRmImmediate, ModRmBytes, RexBytes, Stem, WithModRm, LittleEndian, SignedField;
    var opcode: Byte := if w == W8 then 0xC6 else 0xC7;
    var imm := LittleEndian(v, if w == W8 then 1 else 4);
    var stem := Stem(w, [opcode], RAX, dst);
    StemAndImmediate(w, [opcode], RAX, dst, imm, after);
    OneByteOpcode(w, opcode, RAX, dst, imm + after);
    if w == W8 {
      SignedOfByte(stem, v, after);
    } else {
      SignedOfLittleEndian(stem, v, after);
    }
    MovStoreRead(stem + imm + after, w, dst, Operands(w, [opcode], RAX, dst), v);
  }

  lemma MovDecodes(w: Width, dst: Operand, src: Source, form: Form, after: seq<Byte>)
    requires EncodableMov(w, dst, src, form)
    ensures Decode(Emit(PlanMov(w, dst, src, form)) + after)
            == Some(Decoded(Mov(w, dst, src), |Emit(PlanMov(w, dst, src, form))|))
  {
    hide Code, RegOf, Extended, Low;
    DigitFacts();
    hide Decode, RexBytes, WithModRm, LittleEndian;
    match src
    case Imm(v) =>
      if dst.R? {
        MovImmediateDecodes(w, dst.r, v, after);
      } else {
        MovStoreDecodes(w, dst, v, after);
      }
    case From(op) => MovRegisterDecodes(w, dst, op, form, after);
  }

  /** Prefix and opcode of an instruction without a ModR/M byte, read back. */
  lemma PlainOpcode(rex: Rex, op: Byte, tail: seq<Byte>)
    requires !rex.present ==> rex == NO_REX
    requires !TakesModRm(op) && op != 0x0F && !(0x40 <= op < 0x50)
    ensures var b := RexBytes(rex) + [op] + tail;
            Decode(b) == DecodePlain(b, op, |RexBytes(rex) + [op]|, rex)
  {
    hide RexBytes, ParseRex, DecodePlain;
    PrefixLength(rex);
    RexDecodes(rex, op, tail);
  }

  lemma MovImmediateDecodes(w: Width, r: Reg, v: int, after: seq<Byte>)
    requires w != W8 && 0 <= v < Modulus(w)
    ensures Decode(Emit(PlanMov(w, R(r), Imm(v), Std)) + after)
            == Some(Decoded(Mov(w, R(r), Imm(v)), |Emit(PlanMov(w, R(r), Imm(v), Std))|))
  {
    hide Code, RegOf, Extended, Low;
    DigitFacts();
    hide LittleEndian, Dword, Qword, RexBytes, Decode, DecodePlain;
    var rex := RexOf(w, false, false, High(r));
    var opcode := 0xB8 + Low(r);
    var head, imm := RexBytes(rex) + [opcode], LittleEndian(v, Size(w));
    PlainOpcode(rex, opcode, imm + after);
    assert Emit(PlanMov(w, R(r), Imm(v), Std)) == head + imm;
    Associative(head, imm, after);
    hide PlanMov, Emit, Field;
    FieldReads(head, v, w, after);
    MovPlain(head + imm + after, w, r, |head|, v);
  }

  lemma FieldReads(head: seq<Byte>, v: nat, w: Width, after: seq<Byte>)
    requires w != W8 && v < Modulus(w)
    ensures Field(head + LittleEndian(v, Size(w)) + after, |head|, Size(w)) == Some(v)
  {
    hide Code, RegOf, Extended, Low;
    DigitFacts();
    hide LittleEndian, Dword, Qword;
    if w == W32 {
      DwordOfLittleEndian(head, v, after);
    } else {
      QwordOfLittleEndian(head, v, after);
    }
  }

  lemma MovPlain(b: seq<Byte>, w: Width, r: Reg, at: nat, v: nat)
    requires w != W8 && Field(b, at, Size(w)) == Some(v)
    ensures DecodePlain(b, 0xB8 + Low(r), at, RexOf(w, false, false, High(r)))
            == Some(Decoded(Mov(w, R(r), Imm(v)), at + Size(w)))
  {
    hide Code, RegOf, Extended, Low;
    DigitFacts();
    Halved(r);
    hide Field;
  }

  lemma GroupedRead(b: seq<Byte>, op: AluOp, w: Width, opcode: Byte, dst: Operand, m: ModRm, v: int)
    requires op != Test && EncodableOperand(dst) && ByteOperandOk(w, dst)
    requires opcode == 0x80 || opcode == 0x81 || opcode == 0x83
    requires opcode == 0x80 <==> w == W8
    requires m == ModRm(DigitOf(op), dst, Code(DigitOf(op)), m.next)
    requires SignedField(b, m.next, if opcode == 0x81 then 4 else 1) == Some(v)
    ensures DecodeModRmImmediate(b, opcode, m, OperandRex(w, DigitOf(op), dst))
            == Some(Decoded(Alu(op, w, dst, Imm(v)), m.next + if opcode == 0x81 then 4 else 1))
  {
    hide SignedField, Field;
  }

  lemma GroupedDecodes(op: AluOp, w: Width, opcode: Byte, dst: Operand, v: int, after: seq<Byte>)
    requires op != Test && EncodableOperand(dst) && ByteOperandOk(w, dst)
    requires opcode == (if w == W8 then 0x80 else if FitsSigned8(v) then 0x83 else 0x81)
    requires if opcode == 0x81 then FitsSigned32(v) else FitsSigned8(v)
    ensures var code := WithModRm(w, [opcode], DigitOf(op), dst, LittleEndian(v, if opcode == 0x81 then 4 else 1));
            Decode(code + after) == Some(Decoded(Alu(op, w, dst, Imm(v)), |code|))
  {
    hide Code, RegOf, Extended, Low;
    DigitFacts();
    hide Decode, DecodeModRmImmediate, ModRmBytes, RexBytes, Stem, WithModRm, LittleEndian, SignedField;
    var reg, imm := DigitOf(op), LittleEndian(v, if opcode == 0x81 then 4 else 1);
    var stem := Stem(w, [opcode], reg, dst);
    StemAndImmediate(w, [opcode], reg, dst, imm, after);
    OneByteOpcode(w, opcode, reg, dst, imm + after);
    if opcode == 0x81 {
      SignedOfLittleEndian(stem, v, after);
    } else {
      SignedOfByte(stem, v, after);
    }
    GroupedRead(stem + imm + after, op, w, opcode, dst, Operands(w, [opcode], reg, dst), v);
  }

  lemma AluRegisterDecodes(op: AluOp, w: Width, dst: Operand, o: Operand, form: Form, after: seq<Byte>)
    requires EncodableAlu(op, w, dst, From(o), form)
    ensures Decode(Emit(PlanAlu(op, w, dst, From(o), form)) + after)
            == Some(Decoded(Alu(op, w, dst, From(o)), |Emit(PlanAlu(op, w, dst, From(o), form))|))
  {
    hide Code, RegOf, Extended, Low;
    DigitFacts();
    hide Decode, ModRmBytes, RexBytes, Stem, WithModRm;
    var opcode: Byte := if form == Std then MrOpcode(op, w) else if op == Cmp then 0x3B else 0x33;
    var reg, rm := if form == Std then o.r else dst.r, if form == Std then dst else o;
    StemAndImmediate(w, [opcode], reg, rm, [], after);
    OneByteOpcode(w, opcode, reg, rm, [] + after);
  }

  lemma AluDecodes(op: AluOp, w: Width, dst: Operand, src: Source, form: Form, after: seq<Byte>)
    requires EncodableAlu(op, w, dst, src, form)
    ensures Decode(Emit(PlanAlu(op, w, dst, src, form)) + after)
            == Some(Decoded(Alu(op, w, dst, src), |Emit(PlanAlu(op, w, dst, src, form))|))
  {
    hide Code, RegOf, Extended, Low;
    DigitFacts();
    hide Decode, WithModRm, LittleEndian;
    match src
    case Imm(v) =>
      if w == W8 {
        GroupedDecodes(op, w, 0x80, dst, v, after);
      } else if FitsSigned8(v) {
        GroupedDecodes(op, w, 0x83, dst, v, after);
      } else if op == Cmp && dst == R(RAX) {
        CmpRaxDecodes(w, v, after);
      } else {
        GroupedDecodes(op, w, 0x81, dst, v, after);
      }
    case From(o) => AluRegisterDecodes(op, w, dst, o, form, after);
  }

  lemma CmpRaxDecodes(w: Width, v: int, after: seq<Byte>)
    requires w != W8 && FitsSigned32(v) && !FitsSigned8(v)
    ensures Decode(Emit(PlanAlu(Cmp, w, R(RAX), Imm(v), Std)) + after)
            == Some(Decoded(Alu(Cmp, w, R(RAX), Imm(v)), |Emit(PlanAlu(Cmp, w, R(RAX), Imm(v), Std))|))
  {
    hide Code, RegOf, Extended, Low;
    DigitFacts();
    hide LittleEndian, SignedField, RexBytes, Decode;
    var rex := RexOf(w, false, false, false);
    var head := RexBytes(rex) + [0x3D];
    PlainOpcode(rex, 0x3D, LittleEndian(v, 4) + after);
    assert Emit(PlanAlu(Cmp, w, R(RAX), Imm(v), Std)) == head + LittleEndian(v, 4);
    Associative(head, LittleEndian(v, 4), after);
    SignedOfLittleEndian(head, v, after);
  }

  lemma StackDecodes(reg: Reg, pop: bool, after: seq<Byte>)
    ensures var i := if pop then Pop(reg) else Push(reg);
            Decode(Encode(i, Std) + after) == Some(Decoded(i, |Encode(i, Std)|))
  {
    hide Code, RegOf, Extended, Low;
    DigitFacts();
    Halved(reg);
    hide RexBytes, Decode;
    var rex, op := RexOf(W32, false, false, High(reg)), (if pop then 0x58 else 0x50) + Low(reg);
    PlainOpcode(rex, op, after);
    assert RexBytes(rex) + [op] + [] == RexBytes(rex) + [op];
  }

  lemma JccDecodes(cond: Condition, rel: int, after: seq<Byte>)
    requires FitsSigned32(rel)
    ensures Decode(OpcodeOf(cond) + LittleEndian(rel, 4) + after) == Some(Decoded(Jcc(cond, rel), 6))
    ensures RexBytes(RexOf(W32, false, false, false)) + OpcodeOf(cond) + LittleEndian(rel, 4) == OpcodeOf(cond) + LittleEndian(rel, 4)
  {
    hide LittleEndian, SignedField;
    assert RexBytes(RexOf(W32, false, false, false)) + OpcodeOf(cond) == OpcodeOf(cond);
    SignedOfLittleEndian(OpcodeOf(cond), rel, after);
    var b := OpcodeOf(cond) + LittleEndian(rel, 4) + after;
    assert b[0] == 0x0F && b[1] == OpcodeOf(cond)[1];
  }

  lemma ByteBetween(before: seq<Byte>, b: Byte, after: seq<Byte>)
    ensures Byte1(before + ([b] + after), |before|) == Some(b)
    ensures Byte1(before + [b] + after, |before|) == Some(b)
  {
  }

  lemma OneByte(v: Byte)
    ensures LittleEndian(v, 1) == [v]
  {
  }

  lemma ShiftRead(b: seq<Byte>, op: ShiftOp, w: Width, dst: Operand, m: ModRm, count: nat)
    requires w != W8 && m == ModRm(m.reg, dst, if op == Shl then 4 else 7, m.next)
    requires Field(b, m.next, 1) == Some(count)
    ensures DecodeModRmImmediate(b, 0xC1, m, OperandRex(w, m.reg, dst))
            == Some(Decoded(Shift(op, w, dst, count), m.next + 1))
  {
    hide Field, SignedField, GroupOp, Code;
  }

  lemma ShiftDecodes(op: ShiftOp, w: Width, dst: Operand, count: nat, after: seq<Byte>)
    requires w != W8 && EncodableOperand(dst) && count < 0x100
    ensures var code := WithModRm(w, [0xC1], if op == Shl then RSP else RDI, dst, LittleEndian(count, 1));
            Decode(code + after) == Some(Decoded(Shift(op, w, dst, count), |code|))
  {
    hide Code, RegOf, Extended, Low, Decode, DecodeModRmImmediate, ModRmBytes, RexBytes, Stem, WithModRm, LittleEndian, Byte1;
    DigitFacts();
    var digit, stem := if op == Shl then RSP else RDI, Stem(w, [0xC1], if op == Shl then RSP else RDI, dst);
    OneByte(count);
    StemAndImmediate(w, [0xC1], digit, dst, [count], after);
    OneByteOpcode(w, 0xC1, digit, dst, [count] + after);
    ByteBetween(stem, count, after);
    ShiftRead(stem + [count] + after, op, w, dst, Operands(w, [0xC1], digit, dst), count);
  }

  lemma SimpleRead(w: Width, opcode: Byte, reg: Reg, rm: Operand, m: ModRm)
    requires EncodableOperand(rm) && w != W8 && m == ModRm(reg, rm, Low(reg), m.next)
    ensures opcode == 0x8D && rm.M? ==>
              DecodeModRm(opcode, m, OperandRex(w, reg, rm)) == Some(Decoded(Lea(w, reg, rm), m.next))
    ensures opcode == 0xFF && reg == RAX ==>
              DecodeModRm(opcode, m, OperandRex(w, reg, rm)) == Some(Decoded(Inc(w, rm), m.next))
    ensures opcode == 0xFF && reg == RSP ==>
              DecodeModRm(opcode, m, OperandRex(w, reg, rm)) == Some(Decoded(JmpTo(rm), m.next))
  {
    hide Code, RegOf, Extended, Low;
    DigitFacts();
    hide IndexBit, BaseBit, High, EncodableOperand, Low;
  }

  lemma SimpleDecodes(w: Width, opcode: Byte, reg: Reg, rm: Operand, i: Instr, after: seq<Byte>)
    requires EncodableOperand(rm) && w != W8
    requires (opcode == 0x8D && rm.M? && i == Lea(w, reg, rm)) || (opcode == 0xFF && reg == RAX && i == Inc(w, rm))
          || (opcode == 0xFF && reg == RSP && i == JmpTo(rm))
    ensures var code := WithModRm(w, [opcode], reg, rm, []);
            Decode(code + after) == Some(Decoded(i, |code|))
  {
    hide Code, RegOf, Extended, Low;
    DigitFacts();
    hide Decode, DecodeModRm, ModRmBytes, RexBytes, Stem, WithModRm;
    StemAndImmediate(w, [opcode], reg, rm, [], after);
    OneByteOpcode(w, opcode, reg, rm, [] + after);
    SimpleRead(w, opcode, reg, rm, Operands(w, [opcode], reg, rm));
  }

  lemma MovzxDecodes(w: Width, reg: Reg, rm: Operand, after: seq<Byte>)
    requires w != W8 && EncodableOperand(rm) && ByteOperandOk(W8, rm)
    ensures var code := WithModRm(w, [0x0F, 0xB6], reg, rm, []);
            Decode(code + after) == Some(Decoded(Movzx(w, reg, rm), |code|))
  {
    hide Code, RegOf, Extended, Low;
    DigitFacts();
    hide Decode, ModRmBytes, RexBytes, Stem, WithModRm;
    StemAndImmediate(w, [0x0F, 0xB6], reg, rm, [], after);
    TwoByteOpcode(w, reg, rm, [] + after);
  }

  lemma ShortJccDecodes(cond: Condition, rel: int, after: seq<Byte>)
    requires FitsSigned8(rel)
    ensures var code := RexBytes(RexOf(W32, false, false, false)) + [OpcodeOf(cond)[1] - 0x10] + LittleEndian(rel, 1);
            Decode(code + after) == Some(Decoded(Jcc(cond, rel), 2)) && |code| == 2
  {
    hide LittleEndian, SignedField, Decode;
    var op: Byte := OpcodeOf(cond)[1] - 0x10;
    PlainOpcode(RexOf(W32, false, false, false), op, LittleEndian(rel, 1) + after);
    assert RexBytes(RexOf(W32, false, false, false)) + [op] == [op];
    Associative([op], LittleEndian(rel, 1), after);
    SignedOfByte([op], rel, after);
  }

  lemma NopDecodes(after: seq<Byte>)
    ensures var code := RexBytes(RexOf(W32, false, false, false)) + [0x90] + [];
            Decode(code + after) == Some(Decoded(Nop, 1)) && |code| == 1
  {
    hide Decode;
    PlainOpcode(RexOf(W32, false, false, false), 0x90, after);
    assert RexBytes(RexOf(W32, false, false, false)) + [0x90] + [] == RexBytes(RexOf(W32, false, false, false)) + [0x90];
    PrefixLength(RexOf(W32, false, false, false));
  }

  /**
   Decoding inverts encoding: for every encodable instruction, whatever bytes follow, the decoder
   reads back that instruction and consumes exactly its bytes.
   */
  lemma EncodeDecodes(i: Instr, form: Form, after: seq<Byte>)
    requires Encodable(i, form)
    ensures Decode(Encode(i, form) + after) == Some(Decoded(i, |Encode(i, form)|))
  {
    hide Code, RegOf, Extended, Low;
    DigitFacts();
    hide Decode, WithModRm, PlanMov, PlanAlu, LittleEndian, RexBytes;
    match i
    case Mov(w, dst, src) => MovDecodes(w, dst, src, form, after);
    case Movzx(w, reg, byteSrc) => MovzxDecodes(w, reg, byteSrc, after);
    case Lea(w, reg, addr) => SimpleDecodes(w, 0x8D, reg, addr, i, after);
    case Alu(op, w, dst, src) => AluDecodes(op, w, dst, src, form, after);
    case Shift(op, w, dst, count) => ShiftDecodes(op, w, dst, count, after);
    case Inc(w, dst) => SimpleDecodes(w, 0xFF, RAX, dst, i, after);
    case Push(reg) => StackDecodes(reg, false, after);
    case Pop(reg) => StackDecodes(reg, true, after);
    case Jcc(cond, rel) =>
      if form == Std {
        JccDecodes(cond, rel, after);
      } else {
        ShortJccDecodes(cond, rel, after);
      }
    case JmpTo(target) => SimpleDecodes(W32, 0xFF, RSP, target, i, after);
    case Nop => NopDecodes(after);
  }

  lemma WithModRmLength(w: Width, opcode: seq<Byte>, reg: Reg, rm: Operand, imm: seq<Byte>)
    requires EncodableOperand(rm)
    ensures |opcode| + |imm| < |WithModRm(w, opcode, reg, rm, imm)| <= 7 + |opcode| + |imm|
  {
    hide Code, RegOf, Extended, Low;
    DigitFacts();
    hide LittleEndian, RexOf;
    PrefixLength(OperandRex(w, reg, rm));
  }

  /** No encoding is longer than the architecture's fifteen bytes, and none is empty. */
  lemma EncodeLength(i: Instr, form: Form)
    requires Encodable(i, form)
    ensures 0 < |Encode(i, form)| <= 15
  {
    hide Code, RegOf, Extended, Low;
    DigitFacts();
    PlanSize(i, form);
    hide PlanOf, Encodable, EncodableOperand, LittleEndian, WithModRm, RexBytes;
    var plan := PlanOf(i, form);
    if plan.Modded? {
      WithModRmLength(plan.w, plan.opcode, plan.reg, plan.rm, ImmediateBytes(plan.imm));
    } else {
      PrefixLength(RexOf(plan.w, false, false, plan.r));
    }
  }

  lemma PlanSize(i: Instr, form: Form)
    requires Encodable(i, form)
    ensures 0 < |PlanOf(i, form).opcode| <= 2
    ensures PlanOf(i, form).imm.Imm64? ==> PlanOf(i, form).Plain? && |PlanOf(i, form).opcode| == 1
  {
    hide Code, RegOf, Extended, Low;
    DigitFacts();
  }

  lemma MovRaxBytes(v: U64)
    ensures Encodable(Mov(W64, R(RAX), Imm(v)), Std)
    ensures Encode(Mov(W64, R(RAX), Imm(v)), Std) == [0x48, 0xB8] + LittleEndian(v, 8)
  {
    assert RexBytes(RexOf(W64, false, false, false)) == [0x48];
    assert [0x48] + [0xB8] == [0x48, 0xB8];
    hide LittleEndian, WithModRm, PlanAlu, RexBytes, RexOf;
    assert PlanOf(Mov(W64, R(RAX), Imm(v)), Std) == Plain(W64, [0xB8], false, Imm64(v));
  }

  lemma JmpRaxBytes()
    ensures Encode(JmpTo(R(RAX)), Std) == [0xFF, 0xE0]
  {
    assert ModRmBytes(RSP, R(RAX)) == [0xE0];
    assert RexBytes(OperandRex(W32, RSP, R(RAX))) == [];
    hide Code, ModRmBytes, RexBytes, OperandRex, PlanMov, PlanAlu;
    assert PlanOf(JmpTo(R(RAX)), Std) == Modded(W32, [0xFF], RSP, R(RAX), NoImm);
    assert [] + [0xFF] + [0xE0] + [] == [0xFF, 0xE0];
  }
}
