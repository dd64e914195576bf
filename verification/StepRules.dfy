/**
 What one item of a program does to the machine: a rule per kind of instruction, each rewriting
 a run from item `k` into the run from where control goes next. The guard proofs chain them.
 */
module StepRules {
  import opened Wrappers
  import opened Words
  import opened ProcessMemory
  import opened Machine
  import opened Programs

  predicate Leaves(i: Instr) {
    i.JmpTo? || i.Jmp? || i.Jcc?
  }

  function Next(p: Program, base: U64, k: nat): U64
    requires k < |p|
  {
    Wrap(base + Offset(p, k + 1))
  }

  lemma Unfold(p: Program, base: U64, c: Control, n: nat)
    requires n > 0
    ensures ItemSteps(p, base, c, n) == ItemSteps(p, base, ItemStep(p, base, c), n - 1)
  {
  }

  /** An instruction that does not jump hands over to the next item. */
  lemma Advance(p: Program, base: U64, k: nat, s: State, n: nat, t: State)
    requires n > 0 && k < |p| && p[k].Ins? && !Leaves(p[k].instr)
    requires Exec(p[k].instr, Next(p, base, k), s) == Running(Next(p, base, k), t)
    ensures ItemSteps(p, base, AtItem(k, s), n) == ItemSteps(p, base, AtItem(k + 1, t), n - 1)
  {
    hide Exec, ItemSteps, Offset;
    Unfold(p, base, AtItem(k, s), n);
  }

  lemma Crash(p: Program, base: U64, k: nat, s: State, n: nat)
    requires n > 0 && k < |p| && p[k].Ins? && Exec(p[k].instr, Next(p, base, k), s) == Faulted
    ensures ItemSteps(p, base, AtItem(k, s), n) == Fault
  {
    hide Exec, ItemSteps, Offset;
    Unfold(p, base, AtItem(k, s), n);
    StaysPut(p, base, Fault, n - 1);
  }

  /** A register is set: by a load, another register, or an immediate. */
  lemma Set(p: Program, base: U64, k: nat, s: State, n: nat, v: U64) returns (t: State)
    requires n > 0 && k < |p| && p[k].Ins? && p[k].instr.Mov? && p[k].instr.dst.R? && p[k].instr.w != W8
    requires ReadSource(s, p[k].instr.w, p[k].instr.src) == Some(v)
    ensures t == SetReg(s, p[k].instr.dst.r, v)
    ensures ItemSteps(p, base, AtItem(k, s), n) == ItemSteps(p, base, AtItem(k + 1, t), n - 1)
  {
    hide ReadSource, Offset;
    t := SetReg(s, p[k].instr.dst.r, v);
    Advance(p, base, k, s, n, t);
  }

  lemma SetFaults(p: Program, base: U64, k: nat, s: State, n: nat)
    requires n > 0 && k < |p| && p[k].Ins? && p[k].instr.Mov?
    requires ReadSource(s, p[k].instr.w, p[k].instr.src) == None
    ensures ItemSteps(p, base, AtItem(k, s), n) == Fault
  {
    hide ReadSource, Offset;
    Crash(p, base, k, s, n);
  }

  /** The low byte of a register is set. */
  lemma SetByte(p: Program, base: U64, k: nat, s: State, n: nat, v: U64) returns (t: State)
    requires n > 0 && k < |p| && p[k].Ins? && p[k].instr.Mov? && p[k].instr.dst.R? && p[k].instr.w == W8
    requires ReadSource(s, W8, p[k].instr.src) == Some(v)
    ensures var prior := Get(s, p[k].instr.dst.r);
            prior - prior % 0x100 + v < 0x1_0000_0000_0000_0000 && t == SetReg(s, p[k].instr.dst.r, prior - prior % 0x100 + v)
    ensures ItemSteps(p, base, AtItem(k, s), n) == ItemSteps(p, base, AtItem(k + 1, t), n - 1)
  {
    hide ReadSource, Offset;
    var prior := Get(s, p[k].instr.dst.r);
    t := SetReg(s, p[k].instr.dst.r, prior - prior % 0x100 + v);
    Advance(p, base, k, s, n, t);
  }

  /** Memory is stored to. */
  lemma Put(p: Program, base: U64, k: nat, s: State, n: nat, v: U64) returns (t: State)
    requires n > 0 && k < |p| && p[k].Ins? && p[k].instr.Mov? && p[k].instr.dst.M?
    requires ReadSource(s, p[k].instr.w, p[k].instr.src) == Some(v)
    requires Mapped(s.mem, EffectiveAddress(s, p[k].instr.dst), Size(p[k].instr.w))
    ensures t == s.(mem := Store(s.mem, EffectiveAddress(s, p[k].instr.dst), Size(p[k].instr.w), v))
    ensures ItemSteps(p, base, AtItem(k, s), n) == ItemSteps(p, base, AtItem(k + 1, t), n - 1)
  {
    hide ReadSource, Offset, EffectiveAddress, Mapped, Store;
    t := s.(mem := Store(s.mem, EffectiveAddress(s, p[k].instr.dst), Size(p[k].instr.w), v));
    Advance(p, base, k, s, n, t);
  }

  lemma PutFaults(p: Program, base: U64, k: nat, s: State, n: nat)
    requires n > 0 && k < |p| && p[k].Ins? && p[k].instr.Mov? && p[k].instr.dst.M?
    requires !Mapped(s.mem, EffectiveAddress(s, p[k].instr.dst), Size(p[k].instr.w))
    ensures ItemSteps(p, base, AtItem(k, s), n) == Fault
  {
    hide ReadSource, Offset, EffectiveAddress, Mapped, Store;
    Crash(p, base, k, s, n);
  }

  lemma Widen(p: Program, base: U64, k: nat, s: State, n: nat, v: U64) returns (t: State)
    requires n > 0 && k < |p| && p[k].Ins? && p[k].instr.Movzx?
    requires Read(s, W8, p[k].instr.byteSrc) == Some(v)
    ensures t == SetReg(s, p[k].instr.reg, v)
    ensures ItemSteps(p, base, AtItem(k, s), n) == ItemSteps(p, base, AtItem(k + 1, t), n - 1)
  {
    hide Read, Offset;
    t := SetReg(s, p[k].instr.reg, v);
    Advance(p, base, k, s, n, t);
  }

  lemma WidenFaults(p: Program, base: U64, k: nat, s: State, n: nat)
    requires n > 0 && k < |p| && p[k].Ins? && p[k].instr.Movzx?
    requires Read(s, W8, p[k].instr.byteSrc) == None
    ensures ItemSteps(p, base, AtItem(k, s), n) == Fault
  {
    hide Read, Offset;
    Crash(p, base, k, s, n);
  }

  lemma Address(p: Program, base: U64, k: nat, s: State, n: nat) returns (t: State)
    requires n > 0 && k < |p| && p[k].Ins? && p[k].instr.Lea? && p[k].instr.w == W64 && p[k].instr.addr.M?
    ensures t == SetReg(s, p[k].instr.reg, EffectiveAddress(s, p[k].instr.addr))
    ensures ItemSteps(p, base, AtItem(k, s), n) == ItemSteps(p, base, AtItem(k + 1, t), n - 1)
  {
    hide EffectiveAddress, Offset;
    t := SetReg(s, p[k].instr.reg, EffectiveAddress(s, p[k].instr.addr));
    Advance(p, base, k, s, n, t);
  }

  /** `test r, r`: the zero flag says whether the register is zero at the operation's width. */
  lemma TestSelf(p: Program, base: U64, k: nat, s: State, n: nat) returns (t: State)
    requires n > 0 && k < |p| && p[k].Ins? && p[k].instr.Alu? && p[k].instr.op == Test
    requires p[k].instr.dst.R? && p[k].instr.src == From(p[k].instr.dst)
    ensures t == s.(zf := Truncate(p[k].instr.w, Get(s, p[k].instr.dst.r)) == 0, cf := false)
    ensures ItemSteps(p, base, AtItem(k, s), n) == ItemSteps(p, base, AtItem(k + 1, t), n - 1)
  {
    hide Truncate, Offset, BitAnd;
    var v := Truncate(p[k].instr.w, Get(s, p[k].instr.dst.r));
    BitAndSelf(v);
    t := s.(zf := v == 0, cf := false);
    Advance(p, base, k, s, n, t);
  }

  /** `cmp`: the zero flag is equality, the carry flag unsigned less-than. */
  lemma Compare(p: Program, base: U64, k: nat, s: State, n: nat, a: U64, b: U64) returns (t: State)
    requires n > 0 && k < |p| && p[k].Ins? && p[k].instr.Alu? && p[k].instr.op == Cmp
    requires Read(s, p[k].instr.w, p[k].instr.dst) == Some(a)
    requires ReadSource(s, p[k].instr.w, p[k].instr.src) == Some(b)
    ensures t == s.(zf := a == b, cf := a < b)
    ensures ItemSteps(p, base, AtItem(k, s), n) == ItemSteps(p, base, AtItem(k + 1, t), n - 1)
  {
    hide Read, ReadSource, Offset, Modulus;
    t := s.(zf := a == b, cf := a < b);
    Advance(p, base, k, s, n, t);
  }

  lemma AluFaults(p: Program, base: U64, k: nat, s: State, n: nat)
    requires n > 0 && k < |p| && p[k].Ins? && p[k].instr.Alu?
    requires Read(s, p[k].instr.w, p[k].instr.dst) == None || ReadSource(s, p[k].instr.w, p[k].instr.src) == None
    ensures ItemSteps(p, base, AtItem(k, s), n) == Fault
  {
    hide Read, ReadSource, Offset;
    Crash(p, base, k, s, n);
  }

  /** A register operand of at least 32 bits is replaced by the result of an operation on it. */
  lemma Compute(p: Program, base: U64, k: nat, s: State, n: nat, b: U64) returns (t: State)
    requires n > 0 && k < |p| && p[k].Ins? && p[k].instr.Alu?
    requires p[k].instr.op == Add || p[k].instr.op == Sub
    requires p[k].instr.dst.R? && p[k].instr.w != W8 && b < Modulus(p[k].instr.w)
    requires ReadSource(s, p[k].instr.w, p[k].instr.src) == Some(b)
    ensures var i := p[k].instr;
            var a := Truncate(i.w, Get(s, i.dst.r));
            var r := AluResult(i.op, i.w, a, b);
            t == SetReg(s, i.dst.r, r).(zf := r == 0, cf := AluCarry(i.op, i.w, a, b))
    ensures ItemSteps(p, base, AtItem(k, s), n) == ItemSteps(p, base, AtItem(k + 1, t), n - 1)
  {
    hide ReadSource, Offset, Modulus, AluResult, AluCarry, Truncate;
    var i := p[k].instr;
    var a := Truncate(i.w, Get(s, i.dst.r));
    var r := AluResult(i.op, i.w, a, b);
    t := SetReg(s, i.dst.r, r).(zf := r == 0, cf := AluCarry(i.op, i.w, a, b));
    Advance(p, base, k, s, n, t);
  }

  /** `xor r, r` clears the whole register. */
  lemma Clear(p: Program, base: U64, k: nat, s: State, n: nat) returns (t: State)
    requires n > 0 && k < |p| && p[k].Ins? && p[k].instr.Alu? && p[k].instr.op == Xor && p[k].instr.w == W32
    requires p[k].instr.dst.R? && p[k].instr.src == From(p[k].instr.dst)
    ensures t == SetReg(s, p[k].instr.dst.r, 0).(zf := true, cf := false)
    ensures ItemSteps(p, base, AtItem(k, s), n) == ItemSteps(p, base, AtItem(k + 1, t), n - 1)
  {
    hide Truncate, Offset, BitXor;
    BitXorSelf(Truncate(W32, Get(s, p[k].instr.dst.r)), Bits(W32));
    t := SetReg(s, p[k].instr.dst.r, 0).(zf := true, cf := false);
    Advance(p, base, k, s, n, t);
  }

  /** A 64-bit register is shifted by a count from 1 to 63. */
  lemma ShiftBy(p: Program, base: U64, k: nat, s: State, n: nat) returns (t: State)
    requires n > 0 && k < |p| && p[k].Ins? && p[k].instr.Shift? && p[k].instr.w == W64 && p[k].instr.dst.R?
    requires 0 < p[k].instr.count < 64
    ensures var i := p[k].instr;
            var a := Get(s, i.dst.r);
            var r := ShiftResult(i.shift, W64, a, i.count);
            t == SetReg(s, i.dst.r, r).(zf := r == 0, cf := ShiftCarry(i.shift, W64, a, i.count))
    ensures ItemSteps(p, base, AtItem(k, s), n) == ItemSteps(p, base, AtItem(k + 1, t), n - 1)
  {
    hide Offset, ShiftResult, ShiftCarry;
    var i := p[k].instr;
    var a := Get(s, i.dst.r);
    var r := ShiftResult(i.shift, W64, a, i.count);
    t := SetReg(s, i.dst.r, r).(zf := r == 0, cf := ShiftCarry(i.shift, W64, a, i.count));
    Advance(p, base, k, s, n, t);
  }

  lemma Increment(p: Program, base: U64, k: nat, s: State, n: nat) returns (t: State)
    requires n > 0 && k < |p| && p[k].Ins? && p[k].instr.Inc? && p[k].instr.w == W64 && p[k].instr.dst.R?
    ensures var r := Wrap(Get(s, p[k].instr.dst.r) as int + 1);
            t == SetReg(s, p[k].instr.dst.r, r).(zf := r == 0)
    ensures ItemSteps(p, base, AtItem(k, s), n) == ItemSteps(p, base, AtItem(k + 1, t), n - 1)
  {
    hide Offset, Code;
    var r := Wrap(Get(s, p[k].instr.dst.r) as int + 1);
    t := SetReg(s, p[k].instr.dst.r, r).(zf := r == 0);
    Advance(p, base, k, s, n, t);
  }

  lemma PushOnto(p: Program, base: U64, k: nat, s: State, n: nat) returns (t: State)
    requires n > 0 && k < |p| && p[k].Ins? && p[k].instr.Push?
    requires Mapped(s.mem, Wrap(Get(s, RSP) as int - 8), 8)
    ensures var top := Wrap(Get(s, RSP) as int - 8);
            t == SetReg(s, RSP, top).(mem := Store(s.mem, top, 8, Get(s, p[k].instr.reg)))
    ensures ItemSteps(p, base, AtItem(k, s), n) == ItemSteps(p, base, AtItem(k + 1, t), n - 1)
  {
    hide Offset, Code, Mapped, Store;
    var top := Wrap(Get(s, RSP) as int - 8);
    t := SetReg(s, RSP, top).(mem := Store(s.mem, top, 8, Get(s, p[k].instr.reg)));
    Advance(p, base, k, s, n, t);
  }

  lemma PopFrom(p: Program, base: U64, k: nat, s: State, n: nat) returns (t: State)
    requires n > 0 && k < |p| && p[k].Ins? && p[k].instr.Pop? && Mapped(s.mem, Get(s, RSP), 8)
    ensures t == SetReg(SetReg(s, RSP, Wrap(Get(s, RSP) as int + 8)), p[k].instr.reg, Load64(s.mem, Get(s, RSP)))
    ensures ItemSteps(p, base, AtItem(k, s), n) == ItemSteps(p, base, AtItem(k + 1, t), n - 1)
  {
    hide Offset, Code, Mapped, Load;
    t := SetReg(SetReg(s, RSP, Wrap(Get(s, RSP) as int + 8)), p[k].instr.reg, Load64(s.mem, Get(s, RSP)));
    Advance(p, base, k, s, n, t);
  }

  /** A label branch goes to its target or on. */
  lemma Decide(p: Program, base: U64, k: nat, s: State, n: nat)
    requires n > 0 && k < |p| && p[k].Branch?
    ensures ItemSteps(p, base, AtItem(k, s), n)
            == ItemSteps(p, base, AtItem(if Holds(p[k].cond, s) then p[k].target else k + 1, s), n - 1)
  {
    hide Exec, ItemSteps, Offset;
    Unfold(p, base, AtItem(k, s), n);
  }

  /** A raw conditional jump leaves the program or goes on. */
  lemma DecideOut(p: Program, base: U64, k: nat, s: State, n: nat)
    requires n > 0 && k < |p| && p[k].Ins? && p[k].instr.Jcc?
    ensures ItemSteps(p, base, AtItem(k, s), n)
            == if Holds(p[k].instr.cond, s) then Left(Wrap(Next(p, base, k) + p[k].instr.rel), s)
               else ItemSteps(p, base, AtItem(k + 1, s), n - 1)
  {
    hide ItemSteps, Offset;
    Unfold(p, base, AtItem(k, s), n);
    StaysPut(p, base, Left(Wrap(Next(p, base, k) + p[k].instr.rel), s), n - 1);
  }

  /** `mov rax, target; jmp rax`: control is at the target, and so is RAX. */
  lemma ExitTo(p: Program, base: U64, k: nat, s: State, n: nat, target: U64)
    requires n > 1 && k + 1 < |p|
    requires p[k].Ins? && p[k].instr == Mov(W64, R(RAX), Imm(target))
    requires p[k + 1].Ins? && p[k + 1].instr == JmpTo(R(RAX))
    ensures ItemSteps(p, base, AtItem(k, s), n) == Left(target, SetReg(s, RAX, target))
  {
    hide ItemSteps, Offset;
    Pow256Values();
    var t := Set(p, base, k, s, n, target);
    Unfold(p, base, AtItem(k + 1, t), n - 1);
    StaysPut(p, base, Left(target, t), n - 2);
  }

  /** Running off the end of a block arrives at the address after it. */
  lemma FallOff(p: Program, base: U64, s: State, n: nat)
    requires n > 0
    ensures ItemSteps(p, base, AtItem(|p|, s), n) == Left(Wrap(base + CodeLength(p)), s)
  {
    hide ItemSteps, Offset;
    Unfold(p, base, AtItem(|p|, s), n);
    StaysPut(p, base, Left(Wrap(base + CodeLength(p)), s), n - 1);
  }
}
