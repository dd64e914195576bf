/**
 The x86-64 subset that the trampolines and the blocks they displace are written in:
 integer registers, the zero and carry flags (the only ones the stubs branch on) and
 process memory. An access to an unmapped address faults.
 */
module Machine {
  import opened Wrappers
  import opened Words
  import opened ProcessMemory

  datatype Reg =
    | RAX | RCX | RDX | RBX | RSP | RBP | RSI | RDI
    | R8 | R9 | R10 | R11 | R12 | R13 | R14 | R15

  /** The register's number in instruction encodings. */
  function Code(r: Reg): (n: nat)
    ensures n < 16
  {
    match r
    case RAX => 0
    case RCX => 1
    case RDX => 2
    case RBX => 3
    case RSP => 4
    case RBP => 5
    case RSI => 6
    case RDI => 7
    case R8 => 8
    case R9 => 9
    case R10 => 10
    case R11 => 11
    case R12 => 12
    case R13 => 13
    case R14 => 14
    case R15 => 15
  }

  function RegOf(n: nat): Reg
    requires n < 16
  {
    if n < 8 then
      if n < 4 then (if n == 0 then RAX else if n == 1 then RCX else if n == 2 then RDX else RBX)
      else (if n == 4 then RSP else if n == 5 then RBP else if n == 6 then RSI else RDI)
    else
      if n < 12 then (if n == 8 then R8 else if n == 9 then R9 else if n == 10 then R10 else R11)
      else (if n == 12 then R12 else if n == 13 then R13 else if n == 14 then R14 else R15)
  }

  type Registers = regs: seq<U64> | |regs| == 16 witness seq(16, _ => 0)

  datatype State = State(regs: Registers, zf: bool, cf: bool, mem: Memory)

  datatype Width = W8 | W32 | W64

  datatype Scale = X1 | X2 | X4 | X8

  datatype Operand =
    | R(r: Reg)
    | M(base: Option<Reg>, index: Option<Reg>, scale: Scale, disp: int)

  datatype Source = From(op: Operand) | Imm(v: int)

  datatype Condition = B | AE | E | NE

  datatype AluOp = Add | Sub | Cmp | Xor | Test

  datatype ShiftOp = Shl | Sar

  datatype Instr =
    | Mov(w: Width, dst: Operand, src: Source)
    | Movzx(w: Width, reg: Reg, byteSrc: Operand)
    | Lea(w: Width, reg: Reg, addr: Operand)
    | Alu(op: AluOp, w: Width, dst: Operand, src: Source)
    | Shift(shift: ShiftOp, w: Width, dst: Operand, count: nat)
    | Inc(w: Width, dst: Operand)
    | Push(reg: Reg)
    | Pop(reg: Reg)
    | Jcc(cond: Condition, rel: int)
    | Jmp(rel: int)
    | JmpTo(target: Operand)
    | Nop
    | ClearVector

  /** Where control is after an instruction, or that it faulted. */
  datatype Outcome = Running(rip: U64, s: State) | Faulted

  function Modulus(w: Width): (m: int)
    ensures m == Pow256(Size(w))
  {
    Pow256Values();
    match w
    case W8 => 0x100
    case W32 => 0x1_0000_0000
    case W64 => 0x1_0000_0000_0000_0000
  }

  function Size(w: Width): nat {
    match w
    case W8 => 1
    case W32 => 4
    case W64 => 8
  }

  function Truncate(w: Width, v: U64): (r: U64)
    ensures r < Modulus(w)
  {
    match w
    case W8 => v % 0x100
    case W32 => v % 0x1_0000_0000
    case W64 => v
  }

  /** An immediate, sign-extended to the operation's width. */
  function Immediate(w: Width, v: int): (r: U64)
    ensures r < Modulus(w)
  {
    v % Modulus(w)
  }

  function Get(s: State, r: Reg): U64 {
    s.regs[Code(r)]
  }

  function RegOrZero(s: State, r: Option<Reg>): U64 {
    if r.Some? then Get(s, r.value) else 0
  }

  function Scaled(v: U64, scale: Scale): nat {
    match scale
    case X1 => v
    case X2 => 2 * v
    case X4 => 4 * v
    case X8 => 8 * v
  }

  function EffectiveAddress(s: State, m: Operand): U64
    requires m.M?
  {
    Wrap(RegOrZero(s, m.base) + Scaled(RegOrZero(s, m.index), m.scale) + m.disp)
  }

  function SetReg(s: State, r: Reg, v: U64): State {
    s.(regs := s.regs[Code(r) := v])
  }

  /** The value of an operand, or None when its memory is not mapped. */
  function Read(s: State, w: Width, op: Operand): (v: Option<U64>)
    ensures v.Some? ==> v.value < Modulus(w)
  {
    match op
    case R(r) => Some(Truncate(w, Get(s, r)))
    case M(_, _, _, _) =>
      Pow256Values();
      var a := EffectiveAddress(s, op);
      if Mapped(s.mem, a, Size(w)) then Some(Load(s.mem, a, Size(w))) else None
  }

  /** A 32-bit register write clears the upper half; an 8-bit one keeps the other bytes. */
  function Write(s: State, w: Width, op: Operand, v: U64): Option<State>
    requires v < Modulus(w)
  {
    match op
    case R(r) =>
      Some(SetReg(s, r, if w == W8 then Get(s, r) - Get(s, r) % 0x100 + v else v))
    case M(_, _, _, _) =>
      var a := EffectiveAddress(s, op);
      if Mapped(s.mem, a, Size(w)) then Some(s.(mem := Store(s.mem, a, Size(w), v))) else None
  }

  function ReadSource(s: State, w: Width, src: Source): (v: Option<U64>)
    ensures v.Some? ==> v.value < Modulus(w)
  {
    match src
    case From(op) => Read(s, w, op)
    case Imm(v) => Some(Immediate(w, v))
  }

  function Pow2(n: nat): (p: nat)
    ensures p > 0
  {
    if n == 0 then 1 else 2 * Pow2(n - 1)
  }

  function Bits(w: Width): nat {
    8 * Size(w)
  }

  function BitAnd(a: nat, b: nat): (r: nat)
    ensures r <= a
    decreases a
  {
    if a == 0 then 0 else (a % 2) * (b % 2) + 2 * BitAnd(a / 2, b / 2)
  }

  /** Exclusive or of the `n` low bits. */
  function BitXor(a: nat, b: nat, n: nat): (r: nat)
    ensures r < Pow2(n)
    decreases n
  {
    if n == 0 then 0 else (a + b) % 2 + 2 * BitXor(a / 2, b / 2, n - 1)
  }

  lemma {:induction false} BitAndSelf(a: nat)
    ensures BitAnd(a, a) == a
  {
    if a > 0 {
      BitAndSelf(a / 2);
    }
  }

  lemma {:induction false} BitXorSelf(a: nat, n: nat)
    ensures BitXor(a, a, n) == 0
    decreases n
  {
    if n > 0 {
      BitXorSelf(a / 2, n - 1);
    }
  }

  lemma Pow2Values()
    ensures Pow2(8) == 0x100 && Pow2(32) == 0x1_0000_0000 && Pow2(64) == 0x1_0000_0000_0000_0000
    ensures Pow2(4) == 16 && Pow2(15) == 0x8000 && Pow2(16) == 0x1_0000
    ensures Pow2(48) == 0x1_0000_0000_0000 && Pow2(59) == 0x800_0000_0000_0000
  {
    assert Pow2(4) == 0x10;
    assert Pow2(8) == 0x100;
    assert Pow2(12) == 0x1000;
    assert Pow2(16) == 0x10000;
    assert Pow2(20) == 0x100000;
    assert Pow2(24) == 0x1000000;
    assert Pow2(28) == 0x10000000;
    assert Pow2(32) == 0x100000000;
    assert Pow2(36) == 0x1000000000;
    assert Pow2(40) == 0x10000000000;
    assert Pow2(44) == 0x100000000000;
    assert Pow2(48) == 0x1000000000000;
    assert Pow2(52) == 0x10000000000000;
    assert Pow2(56) == 0x100000000000000;
    assert Pow2(60) == 0x1000000000000000;
  }

  function AluResult(op: AluOp, w: Width, a: U64, b: U64): (r: U64)
    requires a < Modulus(w) && b < Modulus(w)
    ensures r < Modulus(w)
  {
    match op
    case Add => if a + b < Modulus(w) then a + b else a + b - Modulus(w)
    case Sub => if b <= a then a - b else a - b + Modulus(w)
    case Cmp => if b <= a then a - b else a - b + Modulus(w)
    case Xor => Pow2Values(); BitXor(a, b, Bits(w))
    case Test => BitAnd(a, b)
  }

  predicate AluCarry(op: AluOp, w: Width, a: U64, b: U64) {
    match op
    case Add => a + b >= Modulus(w)
    case Sub => a < b
    case Cmp => a < b
    case Xor => false
    case Test => false
  }

  function ShiftResult(op: ShiftOp, w: Width, a: U64, count: nat): (r: U64)
    requires a < Modulus(w)
    ensures r < Modulus(w)
  {
    match op
    case Shl => (a * Pow2(count)) % Modulus(w)
    case Sar => (Signed(a, Modulus(w)) / Pow2(count)) % Modulus(w)
  }

  /** The last bit shifted out, for a count within the operand. */
  predicate ShiftCarry(op: ShiftOp, w: Width, a: U64, count: nat)
    requires 0 < count
  {
    match op
    case Shl => count <= Bits(w) && (a / Pow2(Bits(w) - count)) % 2 == 1
    case Sar => (Signed(a, Modulus(w)) / Pow2(count - 1)) % 2 == 1
  }

  predicate Holds(c: Condition, s: State) {
    match c
    case B => s.cf
    case AE => !s.cf
    case E => s.zf
    case NE => !s.zf
  }

  function Finish(next: U64, s: Option<State>): Outcome {
    if s.Some? then Running(next, s.value) else Faulted
  }

  function ExecMov(i: Instr, next: U64, s: State): Outcome
    requires i.Mov?
  {
    var v := ReadSource(s, i.w, i.src);
    if v.None? then Faulted else Finish(next, Write(s, i.w, i.dst, v.value))
  }

  function ExecAlu(i: Instr, next: U64, s: State): Outcome
    requires i.Alu?
  {
    var a := Read(s, i.w, i.dst);
    var b := ReadSource(s, i.w, i.src);
    if a.None? || b.None? then Faulted
    else
      var r := AluResult(i.op, i.w, a.value, b.value);
      var flagged := s.(zf := r == 0, cf := AluCarry(i.op, i.w, a.value, b.value));
      if i.op == Cmp || i.op == Test then Running(next, flagged)
      else Finish(next, Write(flagged, i.w, i.dst, r))
  }

  function ExecShift(i: Instr, next: U64, s: State): Outcome
    requires i.Shift?
  {
    var a := Read(s, i.w, i.dst);
    var count := i.count % (if i.w == W64 then 64 else 32);
    if a.None? then Faulted
    else if count == 0 then Running(next, s)
    else
      var r := ShiftResult(i.shift, i.w, a.value, count);
      Finish(next, Write(s.(zf := r == 0, cf := ShiftCarry(i.shift, i.w, a.value, count)), i.w, i.dst, r))
  }

  function ExecInc(i: Instr, next: U64, s: State): Outcome
    requires i.Inc?
  {
    var a := Read(s, i.w, i.dst);
    if a.None? then Faulted
    else
      var r := AluResult(Add, i.w, a.value, 1);
      Finish(next, Write(s.(zf := r == 0), i.w, i.dst, r))
  }

  function ExecMovzx(reg: Reg, byteSrc: Operand, next: U64, s: State): Outcome {
    var v := Read(s, W8, byteSrc);
    if v.None? then Faulted else Running(next, SetReg(s, reg, v.value))
  }

  function ExecPush(reg: Reg, next: U64, s: State): Outcome {
    var top := Wrap(Get(s, RSP) as int - 8);
    if Mapped(s.mem, top, 8)
    then Running(next, SetReg(s, RSP, top).(mem := Store(s.mem, top, 8, Get(s, reg))))
    else Faulted
  }

  function ExecPop(reg: Reg, next: U64, s: State): Outcome {
    Pow256Values();
    var top := Get(s, RSP);
    if Mapped(s.mem, top, 8)
    then Running(next, SetReg(SetReg(s, RSP, Wrap(top as int + 8)), reg, Load(s.mem, top, 8)))
    else Faulted
  }

  /** One instruction, `next` being the address of the one after it. */
  function Exec(i: Instr, next: U64, s: State): Outcome {
    match i
    case Mov(_, _, _) => ExecMov(i, next, s)
    case Movzx(_, reg, byteSrc) => ExecMovzx(reg, byteSrc, next, s)
    case Lea(w, reg, addr) =>
      if !addr.M? then Faulted
      else Running(next, SetReg(s, reg, Truncate(w, EffectiveAddress(s, addr))))
    case Alu(_, _, _, _) => ExecAlu(i, next, s)
    case Shift(_, _, _, _) => ExecShift(i, next, s)
    case Inc(_, _) => ExecInc(i, next, s)
    case Push(reg) => ExecPush(reg, next, s)
    case Pop(reg) => ExecPop(reg, next, s)
    case Jcc(cond, rel) => Running(if Holds(cond, s) then Wrap(next + rel) else next, s)
    case Jmp(rel) => Running(Wrap(next + rel), s)
    case JmpTo(target) =>
      var v := Read(s, W64, target);
      if v.None? then Faulted else Running(v.value, s)
    case Nop => Running(next, s)
    case ClearVector => Running(next, s)  // `xorps xmm0, xmm0`: vector registers are not part of the state
  }

  /** The same machine with more memory mapped, outside what the run touches. */
  function Extend(s: State, c: Memory): State {
    s.(mem := s.mem + c)
  }

  function ExtendOutcome(o: Outcome, c: Memory): Outcome {
    if o.Running? then Running(o.rip, Extend(o.s, c)) else Faulted
  }

  lemma ReadExtends(s: State, c: Memory, w: Width, op: Operand)
    requires s.mem.Keys !! c.Keys && Read(s, w, op).Some?
    ensures Read(Extend(s, c), w, op) == Read(s, w, op)
  {
    hide Mapped, Load, Store, Code;
    if op.M? {
      LoadExtends(s.mem, c, EffectiveAddress(s, op), Size(w));
    }
  }

  lemma WriteExtends(s: State, c: Memory, w: Width, op: Operand, v: U64)
    requires s.mem.Keys !! c.Keys && v < Modulus(w) && Write(s, w, op, v).Some?
    ensures Write(Extend(s, c), w, op, v) == Some(Extend(Write(s, w, op, v).value, c))
    ensures Write(s, w, op, v).value.mem.Keys == s.mem.Keys
  {
    hide Mapped, Load, Store, Code;
    if op.M? {
      StoreExtends(s.mem, c, EffectiveAddress(s, op), Size(w), v);
    }
  }

  lemma ReadSourceExtends(s: State, c: Memory, w: Width, src: Source)
    requires s.mem.Keys !! c.Keys && ReadSource(s, w, src).Some?
    ensures ReadSource(Extend(s, c), w, src) == ReadSource(s, w, src)
  {
    hide Mapped, Load, Store, Code;
    if src.From? {
      ReadExtends(s, c, w, src.op);
    }
  }

  lemma ExecMovExtends(i: Instr, next: U64, s: State, c: Memory)
    requires i.Mov? && s.mem.Keys !! c.Keys && ExecMov(i, next, s).Running?
    ensures ExecMov(i, next, Extend(s, c)) == ExtendOutcome(ExecMov(i, next, s), c)
    ensures ExecMov(i, next, s).s.mem.Keys == s.mem.Keys
  {
    hide Mapped, Load, Store, Code;
    ReadSourceExtends(s, c, i.w, i.src);
    WriteExtends(s, c, i.w, i.dst, ReadSource(s, i.w, i.src).value);
  }

  lemma ExecAluExtends(i: Instr, next: U64, s: State, c: Memory)
    requires i.Alu? && s.mem.Keys !! c.Keys && ExecAlu(i, next, s).Running?
    ensures ExecAlu(i, next, Extend(s, c)) == ExtendOutcome(ExecAlu(i, next, s), c)
    ensures ExecAlu(i, next, s).s.mem.Keys == s.mem.Keys
  {
    hide Mapped, Load, Store, Code;
    ReadExtends(s, c, i.w, i.dst);
    ReadSourceExtends(s, c, i.w, i.src);
    var a, b := Read(s, i.w, i.dst).value, ReadSource(s, i.w, i.src).value;
    var r := AluResult(i.op, i.w, a, b);
    var flagged := s.(zf := r == 0, cf := AluCarry(i.op, i.w, a, b));
    if i.op != Cmp && i.op != Test {
      WriteExtends(flagged, c, i.w, i.dst, r);
    }
  }

  lemma ExecShiftExtends(i: Instr, next: U64, s: State, c: Memory)
    requires i.Shift? && s.mem.Keys !! c.Keys && ExecShift(i, next, s).Running?
    ensures ExecShift(i, next, Extend(s, c)) == ExtendOutcome(ExecShift(i, next, s), c)
    ensures ExecShift(i, next, s).s.mem.Keys == s.mem.Keys
  {
    hide Mapped, Load, Store, Code;
    ReadExtends(s, c, i.w, i.dst);
    var a := Read(s, i.w, i.dst).value;
    var count := i.count % (if i.w == W64 then 64 else 32);
    if count > 0 {
      var r := ShiftResult(i.shift, i.w, a, count);
      var flagged := s.(zf := r == 0, cf := ShiftCarry(i.shift, i.w, a, count));
      WriteExtends(flagged, c, i.w, i.dst, r);
    }
  }

  lemma ExecIncExtends(i: Instr, next: U64, s: State, c: Memory)
    requires i.Inc? && s.mem.Keys !! c.Keys && ExecInc(i, next, s).Running?
    ensures ExecInc(i, next, Extend(s, c)) == ExtendOutcome(ExecInc(i, next, s), c)
    ensures ExecInc(i, next, s).s.mem.Keys == s.mem.Keys
  {
    hide Mapped, Load, Store, Code;
    ReadExtends(s, c, i.w, i.dst);
    var r := AluResult(Add, i.w, Read(s, i.w, i.dst).value, 1);
    WriteExtends(s.(zf := r == 0), c, i.w, i.dst, r);
  }

  lemma ExecPushExtends(reg: Reg, next: U64, s: State, c: Memory)
    requires s.mem.Keys !! c.Keys && ExecPush(reg, next, s).Running?
    ensures ExecPush(reg, next, Extend(s, c)) == ExtendOutcome(ExecPush(reg, next, s), c)
    ensures ExecPush(reg, next, s).s.mem.Keys == s.mem.Keys
  {
    hide Mapped, Load, Store, Code;
    StoreExtends(s.mem, c, Wrap(Get(s, RSP) as int - 8), 8, Get(s, reg));
  }

  lemma ExecPopExtends(reg: Reg, next: U64, s: State, c: Memory)
    requires s.mem.Keys !! c.Keys && ExecPop(reg, next, s).Running?
    ensures ExecPop(reg, next, Extend(s, c)) == ExtendOutcome(ExecPop(reg, next, s), c)
    ensures ExecPop(reg, next, s).s.mem.Keys == s.mem.Keys
  {
    hide Mapped, Load, Store, Code;
    LoadExtends(s.mem, c, Get(s, RSP), 8);
  }

  lemma ExecMovzxExtends(reg: Reg, byteSrc: Operand, next: U64, s: State, c: Memory)
    requires s.mem.Keys !! c.Keys && ExecMovzx(reg, byteSrc, next, s).Running?
    ensures ExecMovzx(reg, byteSrc, next, Extend(s, c)) == ExtendOutcome(ExecMovzx(reg, byteSrc, next, s), c)
    ensures ExecMovzx(reg, byteSrc, next, s).s.mem.Keys == s.mem.Keys
  {
    hide Mapped, Load, Store, Code;
    ReadExtends(s, c, W8, byteSrc);
  }

  /** An instruction that does not fault acts the same when other memory is mapped as well. */
  lemma ExecExtends(i: Instr, next: U64, s: State, c: Memory)
    requires s.mem.Keys !! c.Keys && Exec(i, next, s).Running?
    ensures Exec(i, next, Extend(s, c)) == ExtendOutcome(Exec(i, next, s), c)
    ensures Exec(i, next, s).s.mem.Keys == s.mem.Keys
  {
    hide Mapped, Load, Store, Code, ExecMov, ExecAlu, ExecShift, ExecInc, ExecPush, ExecPop, ExecMovzx;
    match i
    case Mov(_, _, _) => ExecMovExtends(i, next, s, c);
    case Movzx(_, reg, byteSrc) => ExecMovzxExtends(reg, byteSrc, next, s, c);
    case Lea(_, _, _) =>
    case Alu(_, _, _, _) => ExecAluExtends(i, next, s, c);
    case Shift(_, _, _, _) => ExecShiftExtends(i, next, s, c);
    case Inc(_, _) => ExecIncExtends(i, next, s, c);
    case Push(reg) => ExecPushExtends(reg, next, s, c);
    case Pop(reg) => ExecPopExtends(reg, next, s, c);
    case Jcc(_, _) =>
    case Jmp(_) =>
    case JmpTo(target) => ReadExtends(s, c, W64, target);
    case Nop =>
    case ClearVector =>
  }
}
