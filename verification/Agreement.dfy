/**
 Which instructions cannot tell two states apart that differ in RAX and the flags only, and what
 follows for straight-line blocks: a copy of a block, placed anywhere and run from such a state,
 does what the original does.
 */
module Agreement {
  import opened Wrappers
  import opened Words
  import opened ProcessMemory
  import opened Machine
  import opened Programs
  import opened StepRules

  /** The state without RAX and the flags, which no trampoline preserves. */
  function Forget(s: State): State {
    SetReg(s, RAX, 0).(zf := false, cf := false)
  }

  /** Memory and all registers but RAX are equal. */
  predicate Agree(s: State, t: State) {
    Forget(s) == Forget(t)
  }

  lemma AgreeOn(s: State, t: State, r: Reg)
    requires Agree(s, t) && r != RAX
    ensures Get(s, r) == Get(t, r) && s.mem == t.mem
  {
    assert Get(s, r) == Forget(s).regs[Code(r)];
    assert Get(t, r) == Forget(t).regs[Code(r)];
  }

  lemma AgreeSet(s: State, t: State, r: Reg, v: U64)
    requires Agree(s, t)
    ensures Agree(SetReg(s, r, v), SetReg(t, r, v))
  {
    assert Forget(SetReg(s, r, v)).regs == Forget(SetReg(t, r, v)).regs by {
      forall i | 0 <= i < 16
        ensures Forget(SetReg(s, r, v)).regs[i] == Forget(SetReg(t, r, v)).regs[i]
      {
        assert Forget(s).regs[i] == Forget(t).regs[i];
      }
    }
  }

  /** RAX may be set to anything, and the flags too. */
  lemma AgreeScratch(s: State, v: U64, zf: bool, cf: bool)
    ensures Agree(SetReg(s, RAX, v).(zf := zf, cf := cf), s)
  {
  }

  predicate Avoids(op: Operand) {
    match op
    case R(r) => r != RAX
    case M(base, index, _, _) => base != Some(RAX) && index != Some(RAX)
  }

  /** Reads neither RAX nor a flag; it may write both. */
  predicate Oblivious(i: Instr) {
    match i
    case Mov(_, dst, src) => (dst.M? ==> Avoids(dst)) && (src.From? ==> Avoids(src.op))
    case Movzx(_, _, byteSrc) => Avoids(byteSrc)
    case Lea(_, _, addr) => Avoids(addr)
    case Alu(_, _, dst, src) => Avoids(dst) && (src.From? ==> Avoids(src.op))
    case Shift(_, _, dst, _) => Avoids(dst)
    case Inc(_, dst) => Avoids(dst)
    case Push(reg) => reg != RAX
    case Pop(_) => true
    case Nop => true
    case _ => false
  }

  lemma ReadAgrees(s: State, t: State, w: Width, op: Operand)
    requires Agree(s, t) && Avoids(op)
    ensures Read(s, w, op) == Read(t, w, op)
    ensures op.M? ==> EffectiveAddress(s, op) == EffectiveAddress(t, op)
  {
    hide Agree, Mapped, Load, Code;
    AgreeOn(s, t, RSP);
    match op
    case R(r) => AgreeOn(s, t, r);
    case M(base, index, _, _) =>
      if base.Some? {
        AgreeOn(s, t, base.value);
      }
      if index.Some? {
        AgreeOn(s, t, index.value);
      }
  }

  predicate AgreeOptions(s: Option<State>, t: Option<State>) {
    s.Some? == t.Some? && (s.Some? ==> Agree(s.value, t.value))
  }

  lemma WriteAgrees(s: State, t: State, w: Width, op: Operand, v: U64)
    requires Agree(s, t) && v < Modulus(w) && (op.M? ==> Avoids(op))
    ensures AgreeOptions(Write(s, w, op, v), Write(t, w, op, v))
  {
    hide Mapped, Store, Code;
    AgreeOn(s, t, RSP);
    match op
    case R(r) =>
      if r == RAX {
        WriteScratch(s, w, v);
        WriteScratch(t, w, v);
      } else {
        AgreeOn(s, t, r);
        AgreeSet(s, t, r, if w == W8 then Get(s, r) - Get(s, r) % 0x100 + v else v);
      }
    case M(_, _, _, _) => ReadAgrees(s, t, w, op);
  }

  lemma WriteScratch(s: State, w: Width, v: U64)
    requires v < Modulus(w)
    ensures Write(s, w, R(RAX), v).Some? && Agree(Write(s, w, R(RAX), v).value, s)
  {
    hide Modulus;
  }

  predicate AgreeOutcomes(o: Outcome, o': Outcome) {
    o.Running? == o'.Running? && (o.Running? ==> Agree(o.s, o'.s))
  }

  lemma ExecMovAgrees(i: Instr, next: U64, next': U64, s: State, t: State)
    requires i.Mov? && Oblivious(i) && Agree(s, t)
    ensures AgreeOutcomes(ExecMov(i, next, s), ExecMov(i, next', t))
  {
    hide Agree, Read, Write, Modulus;
    if i.src.From? {
      ReadAgrees(s, t, i.w, i.src.op);
    }
    var v := ReadSource(s, i.w, i.src);
    if v.Some? {
      WriteAgrees(s, t, i.w, i.dst, v.value);
    }
  }

  lemma AgreeFlags(s: State, t: State, zf: bool, cf: bool)
    requires Agree(s, t)
    ensures Agree(s.(zf := zf, cf := cf), t.(zf := zf, cf := cf)) && Agree(s.(zf := zf), t.(zf := zf))
  {
  }

  lemma ExecAluAgrees(i: Instr, next: U64, next': U64, s: State, t: State)
    requires i.Alu? && Oblivious(i) && Agree(s, t)
    ensures AgreeOutcomes(ExecAlu(i, next, s), ExecAlu(i, next', t))
  {
    hide Agree, Read, Write, Modulus, AluResult, AluCarry;
    ReadAgrees(s, t, i.w, i.dst);
    if i.src.From? {
      ReadAgrees(s, t, i.w, i.src.op);
    }
    var a, b := Read(s, i.w, i.dst), ReadSource(s, i.w, i.src);
    if a.Some? && b.Some? {
      var r, carry := AluResult(i.op, i.w, a.value, b.value), AluCarry(i.op, i.w, a.value, b.value);
      AgreeFlags(s, t, r == 0, carry);
      WriteAgrees(s.(zf := r == 0, cf := carry), t.(zf := r == 0, cf := carry), i.w, i.dst, r);
    }
  }

  lemma ExecShiftAgrees(i: Instr, next: U64, next': U64, s: State, t: State)
    requires i.Shift? && Oblivious(i) && Agree(s, t)
    ensures AgreeOutcomes(ExecShift(i, next, s), ExecShift(i, next', t))
  {
    hide Agree, Read, Write, Modulus, ShiftResult, ShiftCarry;
    ReadAgrees(s, t, i.w, i.dst);
    var a, count := Read(s, i.w, i.dst), i.count % (if i.w == W64 then 64 else 32);
    if a.Some? && count > 0 {
      var r, carry := ShiftResult(i.shift, i.w, a.value, count), ShiftCarry(i.shift, i.w, a.value, count);
      AgreeFlags(s, t, r == 0, carry);
      WriteAgrees(s.(zf := r == 0, cf := carry), t.(zf := r == 0, cf := carry), i.w, i.dst, r);
    }
  }

  lemma ExecIncAgrees(i: Instr, next: U64, next': U64, s: State, t: State)
    requires i.Inc? && Oblivious(i) && Agree(s, t)
    ensures AgreeOutcomes(ExecInc(i, next, s), ExecInc(i, next', t))
  {
    hide Agree, Read, Write, Modulus, AluResult;
    ReadAgrees(s, t, i.w, i.dst);
    var a := Read(s, i.w, i.dst);
    if a.Some? {
      var r := AluResult(Add, i.w, a.value, 1);
      AgreeFlags(s, t, r == 0, false);
      WriteAgrees(s.(zf := r == 0), t.(zf := r == 0), i.w, i.dst, r);
    }
  }

  lemma ExecPushAgrees(reg: Reg, next: U64, next': U64, s: State, t: State)
    requires reg != RAX && Agree(s, t)
    ensures AgreeOutcomes(ExecPush(reg, next, s), ExecPush(reg, next', t))
  {
    hide Mapped, Store, Code;
    AgreeOn(s, t, RSP);
    AgreeOn(s, t, reg);
    AgreeSet(s, t, RSP, Wrap(Get(s, RSP) as int - 8));
  }

  lemma ExecPopAgrees(reg: Reg, next: U64, next': U64, s: State, t: State)
    requires Agree(s, t)
    ensures AgreeOutcomes(ExecPop(reg, next, s), ExecPop(reg, next', t))
  {
    hide Agree, Mapped, Load, Code, SetReg;
    AgreeOn(s, t, RSP);
    var top := Get(s, RSP);
    if Mapped(s.mem, top, 8) {
      AgreeSet(s, t, RSP, Wrap(top as int + 8));
      AgreeSet(SetReg(s, RSP, Wrap(top as int + 8)), SetReg(t, RSP, Wrap(top as int + 8)), reg, Load64(s.mem, top));
    }
  }

  /** The results of an oblivious instruction agree too, or both runs fault. */
  lemma ExecAgrees(i: Instr, next: U64, next': U64, s: State, t: State)
    requires Oblivious(i) && Agree(s, t)
    ensures AgreeOutcomes(Exec(i, next, s), Exec(i, next', t))
    ensures Exec(i, next, s).Running? ==> Exec(i, next, s).rip == next && Exec(i, next', t).rip == next'
  {
    hide Agree, Read, Write, Mapped, Load, Store, Code, SetReg, Modulus, AluResult, AluCarry, ShiftResult, ShiftCarry;
    match i
    case Mov(_, _, _) => ExecMovAgrees(i, next, next', s, t);
    case Movzx(_, reg, byteSrc) =>
      ReadAgrees(s, t, W8, byteSrc);
      if Read(s, W8, byteSrc).Some? {
        AgreeSet(s, t, reg, Read(s, W8, byteSrc).value);
      }
    case Lea(w, reg, addr) =>
      ReadAgrees(s, t, w, addr);
      if addr.M? {
        AgreeSet(s, t, reg, Truncate(w, EffectiveAddress(s, addr)));
      }
    case Alu(_, _, _, _) => ExecAluAgrees(i, next, next', s, t);
    case Shift(_, _, _, _) => ExecShiftAgrees(i, next, next', s, t);
    case Inc(_, _) => ExecIncAgrees(i, next, next', s, t);
    case Push(reg) => ExecPushAgrees(reg, next, next', s, t);
    case Pop(reg) => ExecPopAgrees(reg, next, next', s, t);
    case Nop =>
  }

  /** Items `k` to `k + m` of `p` are instructions that read neither RAX nor a flag. */
  predicate ObliviousBlock(p: Program, k: nat, m: nat)
    requires k + m <= |p|
  {
    forall i :: k <= i < k + m ==> p[i].Ins? && Oblivious(p[i].instr)
  }

  /** Both runs faulted, or both are at the given items in states that agree. */
  predicate AgreeAt(c: Control, k: nat, d: Control, j: nat) {
    || (c.Fault? && d.Fault?)
    || (c.AtItem? && d.AtItem? && c.k == k && d.k == j && Agree(c.s, d.s))
  }

  /**
   The same oblivious instructions in two programs, at any two addresses, run from agreeing
   states: both runs fault, or both complete the block in agreeing states.
   */
  lemma {:induction false} BlockAgrees(p: Program, base: U64, k: nat, s: State, q: Program, base': U64, j: nat, t: State, m: nat)
    requires k + m <= |p| && j + m <= |q| && ObliviousBlock(q, j, m) && Agree(s, t)
    requires p[k..k + m] == q[j..j + m]
    ensures AgreeAt(ItemSteps(p, base, AtItem(k, s), m), k + m, ItemSteps(q, base', AtItem(j, t), m), j + m)
    decreases m
  {
    hide Agree, Exec, Offset, ItemSteps, Oblivious;
    if m == 0 {
      NoSteps(p, base, AtItem(k, s));
      NoSteps(q, base', AtItem(j, t));
    } else {
      assert p[k..k + m][0] == q[j..j + m][0];
      assert p[k + 1..k + m] == p[k..k + m][1..] && q[j + 1..j + m] == q[j..j + m][1..];
      var i, next, next' := q[j].instr, Next(p, base, k), Next(q, base', j);
      ExecAgrees(i, next, next', s, t);
      NoJump(i);
      var o, o' := Exec(i, next, s), Exec(i, next', t);
      if o.Faulted? {
        Crash(p, base, k, s, m);
        Crash(q, base', j, t, m);
      } else {
        Advance(p, base, k, s, m, o.s);
        Advance(q, base', j, t, m, o'.s);
        BlockAgrees(p, base, k + 1, o.s, q, base', j + 1, o'.s, m - 1);
      }
    }
  }

  lemma NoJump(i: Instr)
    requires Oblivious(i)
    ensures !Leaves(i)
  {
  }

  lemma NoSteps(p: Program, base: U64, c: Control)
    ensures ItemSteps(p, base, c, 0) == c
  {
  }

  lemma AgreeFlagged(s: State, zf: bool, cf: bool)
    ensures Agree(s.(zf := zf, cf := cf), s)
  {
    assert SetReg(s, RAX, Get(s, RAX)) == s;
    AgreeScratch(s, Get(s, RAX), zf, cf);
  }

  lemma AgreeMemory(s: State, t: State, m: Memory)
    requires Agree(s, t)
    ensures Agree(s.(mem := m), t.(mem := m))
  {
  }
}
