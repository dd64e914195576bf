/**
 Code and data in one memory. Run on the memory that also holds its own code, the item machine
 and the byte machine do exactly the same, faults included, as long as each item still has its
 bytes when control gets to it. A program may overwrite itself behind its back.
 */
module OneMemory {
  import opened Words
  import opened ProcessMemory
  import opened Machine
  import opened Programs
  import opened StepRules

  /** The byte-level configuration on the same memory. */
  function Spot(p: Program, base: U64, c: Control): Outcome
    requires c.AtItem? ==> c.k <= |p|
  {
    match c
    case AtItem(k, s) => Running(Wrap(base + Offset(p, k)), s)
    case Left(rip, s) => Running(rip, s)
    case Fault => Faulted
  }

  /** Whenever control is at an item, within `n` steps, the item has its bytes. */
  ghost predicate IntactThroughout(p: Program, base: U64, c: Control, n: nat)
    requires WellFormed(p)
    decreases n
  {
    n > 0 && c.AtItem? && c.k < |p| ==>
      Intact(p, base, c.k, c.s.mem) && IntactThroughout(p, base, ItemStep(p, base, c), n - 1)
  }

  lemma StepExactly(p: Program, base: U64, k: nat, s: State)
    requires WellFormed(p) && k < |p| && Intact(p, base, k, s.mem)
    ensures var c := ItemStep(p, base, AtItem(k, s));
            (c.AtItem? ==> c.k <= |p|) && ByteStep(Spot(p, base, AtItem(k, s))) == Spot(p, base, c)
  {
    hide Exec, WellFormed, ItemBytes, ItemLength, Wrap, Intact, ByteStep;
    ItemFits(p, k);
    ByteStepAtItem(p, base, k, s);
    var next := Wrap(base + Offset(p, k + 1));
    if p[k].Branch? {
      BranchTarget(p, base, k);
      ExecBranch(p[k].cond, Displacement(p, k), next, s);
    } else if ItemStep(p, base, AtItem(k, s)).AtItem? {
      ExecAdvances(p[k].instr, next, s);
    }
  }

  /** Item run and byte run coincide, wherever they end. */
  lemma {:induction false} Exactly(p: Program, base: U64, c: Control, n: nat)
    requires WellFormed(p) && (c.AtItem? ==> c.k <= |p|) && IntactThroughout(p, base, c, n)
    ensures var end := ItemSteps(p, base, c, n);
            (end.AtItem? ==> end.k <= |p|) && Reaches(Spot(p, base, c), Spot(p, base, end))
    decreases n
  {
    hide Exec, ItemStep, WellFormed, ByteStep, Wrap, Offset, Intact;
    var o := Spot(p, base, c);
    assert ByteSteps(o, 0) == o;
    if n > 0 && !c.AtItem? {
      StaysPut(p, base, c, n);
    } else if n > 0 && c.k == |p| {
      FallOff(p, base, c.s, n);
    } else if n > 0 {
      StepExactly(p, base, c.k, c.s);
      var d := ItemStep(p, base, c);
      assert ByteSteps(o, 1) == ByteSteps(ByteStep(o), 0);
      Exactly(p, base, d, n - 1);
      ReachesTransitive(o, Spot(p, base, d), Spot(p, base, ItemSteps(p, base, c, n)));
    }
  }

  /* ---------- programs that do not write to memory ---------- */

  predicate Silent(i: Instr) {
    match i
    case Mov(_, dst, _) => dst.R?
    case Alu(op, _, dst, _) => dst.R? || op == Cmp || op == Test
    case Shift(_, _, dst, _) => dst.R?
    case Inc(_, dst) => dst.R?
    case Push(_) => false
    case _ => true
  }

  predicate ReadOnly(p: Program) {
    forall k: nat :: k < |p| && p[k].Ins? ==> Silent(p[k].instr)
  }

  lemma SilentKeepsMemory(i: Instr, next: U64, s: State)
    requires Silent(i) && Exec(i, next, s).Running?
    ensures Exec(i, next, s).s.mem == s.mem
  {
    hide Mapped, Load, Store, Code;
  }

  lemma SilentStep(p: Program, base: U64, k: nat, s: State)
    requires k <= |p| && (k < |p| && p[k].Ins? ==> Silent(p[k].instr))
    ensures var c := ItemStep(p, base, AtItem(k, s)); c.Fault? || c.s.mem == s.mem
  {
    hide Exec, Offset, Wrap, Silent;
    if k < |p| && p[k].Ins? && !ItemStep(p, base, AtItem(k, s)).Fault? {
      SilentKeepsMemory(p[k].instr, Wrap(base + Offset(p, k + 1)), s);
    }
  }

  /** Such a program, once in memory, stays there. */
  lemma {:induction false} ReadOnlyStaysIntact(p: Program, base: U64, c: Control, n: nat)
    requires WellFormed(p) && ReadOnly(p) && (c.AtItem? ==> c.k <= |p| && HoldsCode(c.s.mem, base, Assemble(p)))
    ensures IntactThroughout(p, base, c, n)
    decreases n
  {
    hide Exec, ItemStep, WellFormed, HoldsCode, Intact, Assemble, Silent;
    if n > 0 && c.AtItem? && c.k < |p| {
      HeldItem(p, base, c.k, c.s.mem);
      StepExactly(p, base, c.k, c.s);
      SilentStep(p, base, c.k, c.s);
      ReadOnlyStaysIntact(p, base, ItemStep(p, base, c), n - 1);
    }
  }

  /* ---------- faults, with code and data apart ---------- */

  /** No code byte is among the `n` from `a`. */
  ghost predicate ClearOf(code: Memory, a: U64, n: nat) {
    forall x :: x in code ==> Outside(x, a, n)
  }

  ghost predicate OperandClear(s: State, w: Width, op: Operand, code: Memory) {
    op.M? ==> ClearOf(code, EffectiveAddress(s, op), Size(w))
  }

  /** The instruction accesses no code byte. */
  ghost predicate AccessesClear(i: Instr, s: State, code: Memory) {
    match i
    case Mov(w, dst, src) => OperandClear(s, w, dst, code) && (src.From? ==> OperandClear(s, w, src.op, code))
    case Movzx(_, _, byteSrc) => OperandClear(s, W8, byteSrc, code)
    case Alu(_, w, dst, src) => OperandClear(s, w, dst, code) && (src.From? ==> OperandClear(s, w, src.op, code))
    case Shift(_, w, dst, _) => OperandClear(s, w, dst, code)
    case Inc(w, dst) => OperandClear(s, w, dst, code)
    case Push(_) => ClearOf(code, Wrap(Get(s, RSP) - 8), 8)
    case Pop(_) => ClearOf(code, Get(s, RSP), 8)
    case JmpTo(target) => OperandClear(s, W64, target, code)
    case _ => true
  }

  lemma {:induction false} StillUnmapped(m: Memory, code: Memory, a: U64, n: nat)
    requires ClearOf(code, a, n) && !Mapped(m, a, n)
    ensures !Mapped(m + code, a, n)
    decreases n
  {
    if n > 0 && a in m {
      assert ClearOf(code, Wrap(a + 1), n - 1);
      StillUnmapped(m, code, Wrap(a + 1), n - 1);
    } else if n > 0 {
      assert a !in code;
    }
  }

  lemma UnreadableStays(s: State, w: Width, op: Operand, code: Memory)
    requires OperandClear(s, w, op, code) && Read(s, w, op).None?
    ensures Read(Extend(s, code), w, op).None?
  {
    hide Mapped, Load, ClearOf, Wrap;
    StillUnmapped(s.mem, code, EffectiveAddress(s, op), Size(w));
  }

  lemma MovFaultStays(i: Instr, next: U64, s: State, code: Memory)
    requires i.Mov? && AccessesClear(i, s, code) && Exec(i, next, s).Faulted?
    ensures Exec(i, next, Extend(s, code)).Faulted?
  {
    hide Mapped, Load, Store, Code, ClearOf, OperandClear, Read, Wrap, Modulus;
    if i.src.From? && Read(s, i.w, i.src.op).None? {
      UnreadableStays(s, i.w, i.src.op, code);
    } else if i.dst.M? {
      UnwritableStays(s, i.w, i.dst, code);
    }
  }

  lemma AluFaultStays(i: Instr, next: U64, s: State, code: Memory)
    requires i.Alu? && AccessesClear(i, s, code) && Exec(i, next, s).Faulted?
    ensures Exec(i, next, Extend(s, code)).Faulted?
  {
    hide Mapped, Load, Store, Code, ClearOf, OperandClear, Read, Wrap, AluResult, AluCarry, Modulus;
    if Read(s, i.w, i.dst).None? {
      UnreadableStays(s, i.w, i.dst, code);
    } else if i.src.From? && Read(s, i.w, i.src.op).None? {
      UnreadableStays(s, i.w, i.src.op, code);
    } else {
      ReadIsMapped(s, i.w, i.dst);
    }
  }

  /** A fault that has nothing to do with the code is a fault with the code mapped as well. */
  lemma FaultStays(i: Instr, next: U64, s: State, code: Memory)
    requires AccessesClear(i, s, code) && Exec(i, next, s).Faulted?
    ensures Exec(i, next, Extend(s, code)).Faulted?
  {
    hide Mapped, Load, Store, Code, ClearOf, OperandClear, Read, Wrap, ShiftResult, ShiftCarry, AluResult, Modulus, ExecMov, ExecAlu;
    match i
    case Mov(_, _, _) => MovFaultStays(i, next, s, code);
    case Movzx(_, _, byteSrc) => UnreadableStays(s, W8, byteSrc, code);
    case Lea(_, _, _) =>
    case Alu(_, _, _, _) => AluFaultStays(i, next, s, code);
    case Shift(_, w, dst, _) => Rewrites(s, w, dst, code);
    case Inc(w, dst) => Rewrites(s, w, dst, code);
    case Push(_) => StillUnmapped(s.mem, code, Wrap(Get(s, RSP) - 8), 8);
    case Pop(_) => StillUnmapped(s.mem, code, Get(s, RSP), 8);
    case JmpTo(target) => UnreadableStays(s, W64, target, code);
    case Jcc(_, _) =>
    case Jmp(_) =>
    case Nop =>
    case ClearVector =>
  }

  lemma UnwritableStays(s: State, w: Width, op: Operand, code: Memory)
    requires OperandClear(s, w, op, code) && op.M? && !Mapped(s.mem, EffectiveAddress(s, op), Size(w))
    ensures !Mapped(Extend(s, code).mem, EffectiveAddress(Extend(s, code), op), Size(w))
  {
    hide Mapped, ClearOf, Wrap;
    StillUnmapped(s.mem, code, EffectiveAddress(s, op), Size(w));
  }

  lemma ReadIsMapped(s: State, w: Width, op: Operand)
    requires Read(s, w, op).Some?
    ensures op.M? ==> Mapped(s.mem, EffectiveAddress(s, op), Size(w))
  {
  }

  /** What can be read can be written back. */
  lemma Rewrites(s: State, w: Width, op: Operand, code: Memory)
    requires OperandClear(s, w, op, code)
    ensures Read(s, w, op).None? ==> Read(Extend(s, code), w, op).None?
    ensures Read(s, w, op).Some? && op.M? ==> Mapped(s.mem, EffectiveAddress(s, op), Size(w))
  {
    if Read(s, w, op).None? {
      UnreadableStays(s, w, op, code);
    }
  }

  /** The run's fault is at an access that touches no code. */
  ghost predicate FaultsClear(p: Program, base: U64, c: Control, code: Memory, n: nat)
    decreases n
  {
    n > 0 && c.AtItem? && c.k < |p|
    && var d := ItemStep(p, base, c);
       if d.Fault? then p[c.k].Ins? && AccessesClear(p[c.k].instr, c.s, code) else FaultsClear(p, base, d, code, n - 1)
  }

  lemma FaultStep(p: Program, base: U64, k: nat, s: State, code: Memory)
    requires WellFormed(p) && k < |p| && HoldsCode(code, base, Assemble(p))
    requires ItemStep(p, base, AtItem(k, s)).Fault? && p[k].Ins? && AccessesClear(p[k].instr, s, code)
    ensures ByteStep(Concrete(p, base, AtItem(k, s), code)) == Faulted
  {
    hide Exec, WellFormed, HoldsCode, Intact, Assemble, ByteStep, AccessesClear, ItemLength, Wrap, Extend;
    HoldsCodeExtends(s.mem, code, base, Assemble(p));
    ExtendsMemory(s, code);
    HeldItem(p, base, k, s.mem + code);
    ByteStepAtItem(p, base, k, Extend(s, code));
    FaultStays(p[k].instr, Wrap(base + Offset(p, k + 1)), s, code);
  }

  lemma ExtendsMemory(s: State, code: Memory)
    ensures Extend(s, code).mem == s.mem + code
  {
  }

  /**
   The other half of refinement: an item run over data memory that faults at an access away from
   the code faults on the byte machine too.
   */
  lemma {:induction false} FaultRefinement(p: Program, base: U64, k: nat, s: State, code: Memory, n: nat)
    requires WellFormed(p) && k <= |p| && s.mem.Keys !! code.Keys && HoldsCode(code, base, Assemble(p))
    requires FaultsClear(p, base, AtItem(k, s), code, n)
    ensures Reaches(Concrete(p, base, AtItem(k, s), code), Faulted)
    ensures ItemSteps(p, base, AtItem(k, s), n) == Fault
    decreases n
  {
    hide Exec, ItemStep, WellFormed, Assemble, HoldsCode, ByteStep, Wrap, Offset, Extend, AccessesClear;
    var c, o := ItemStep(p, base, AtItem(k, s)), Concrete(p, base, AtItem(k, s), code);
    if c.Fault? {
      FaultStep(p, base, k, s, code);
      assert ByteSteps(o, 1) == ByteSteps(ByteStep(o), 0);
      StaysPut(p, base, c, n - 1);
    } else {
      StepRefines(p, base, k, s, code);
      FaultRefinement(p, base, c.k, c.s, code, n - 1);
      ReachesTransitive(o, Concrete(p, base, c, code), Faulted);
    }
  }
}
