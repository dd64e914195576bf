/**
 The compare-mirror stub 59c2a0. On the first validation iteration (EDX zero) it copies the 64
 bytes at RCX over the buffer they are compared with, and then, as on every iteration, runs the
 displaced comparison.
 */
module MirrorGuard {
  import opened Wrappers
  import opened Words
  import opened ProcessMemory
  import opened Machine
  import opened InstructionEncoding
  import opened Programs
  import opened Spelling
  import opened StepRules
  import opened Agreement
  import opened Stubs
  import opened Guards

  /* ---------- the displaced comparison ---------- */

  lemma ListingCompare59c2a0(fail: U64, resume: U64)
    ensures var p, q := Stub59c2a0(fail, resume), Displaced59c2a0();
            && |p| == 24 && |q| == 3
            && p[17] == q[0] == Ins(Movzx(W32, RAX, AtIndex(R8, RCX, 1)), Std)
            && p[18] == q[1] == Ins(Alu(Cmp, W8, At(RCX, 0), From(R(RAX))), Std)
            && p[19] == Branch(NE, 22) && q[2] == Ins(Jcc(NE, 0x3A1), Std)
            && ExitAt(p, 20, resume) && ExitAt(p, 22, fail)
  {
  }

  /** Where the displaced comparison's failure branch leads. */
  function Taken59c2a0(site: U64): U64 {
    Wrap(End(Displaced59c2a0(), site) + 0x3A1)
  }

  function Compared(s: State): Option<U64> {
    Read(s, W8, AtIndex(R8, RCX, 1))
  }

  function Expected(s: State): Option<U64> {
    Read(s, W8, At(RCX, 0))
  }

  /** The comparison's own outcome: a fault, the resume exit on equal bytes, the failure exit on others. */
  predicate Decides(c: Control, t: State, resume: U64, fail: U64) {
    if Compared(t).None? || Expected(t).None? then c.Fault?
    else LeftFor(c, if Compared(t) == Expected(t) then resume else fail, t)
  }

  lemma ComparesAt(base: U64, site: U64, s: State, t: State, n: nat, n': nat, fail: U64, resume: U64)
    requires n >= 5 && n' >= 4 && Agree(s, t)
    ensures var c := ItemSteps(Stub59c2a0(fail, resume), base, AtItem(17, s), n);
            var block := ItemSteps(Displaced59c2a0(), site, AtItem(0, t), n');
            && Follows(c, block, End(Displaced59c2a0(), site), Taken59c2a0(site), resume, fail)
            && Decides(c, t, resume, fail)
  {
    hide ItemSteps, Wrap, ItemStep, Agree, Exec, Encode, Offset, Mapped, Load, Store, Stub59c2a0, Displaced59c2a0, ExitAt, LeftFor;
    ListingCompare59c2a0(fail, resume);
    var p, q := Stub59c2a0(fail, resume), Displaced59c2a0();
    AgreeOn(s, t, RCX);
    AgreeOn(s, t, R8);
    if Compared(t).None? {
      WidenFaults(p, base, 17, s, n);
      WidenFaults(q, site, 0, t, n');
    } else {
      var s1 := Widen(p, base, 17, s, n, Compared(t).value);
      var t1 := Widen(q, site, 0, t, n', Compared(t).value);
      AgreeSet(s, t, RAX, Compared(t).value);
      AgreeScratch(t, Compared(t).value, t.zf, t.cf);
      assert t1 == SetReg(t, RAX, Compared(t).value).(zf := t.zf, cf := t.cf);
      Compares(base, site, s1, t1, n - 1, n' - 1, fail, resume, Compared(t).value, t);
    }
  }

  lemma Compares(base: U64, site: U64, s: State, t: State, n: nat, n': nat, fail: U64, resume: U64, v: U64, t0: State)
    requires n >= 4 && n' >= 3 && Agree(s, t) && v < 0x100 && Get(s, RAX) == v && Get(t, RAX) == v && Agree(t, t0)
    ensures var c := ItemSteps(Stub59c2a0(fail, resume), base, AtItem(18, s), n);
            var block := ItemSteps(Displaced59c2a0(), site, AtItem(1, t), n');
            && Follows(c, block, End(Displaced59c2a0(), site), Taken59c2a0(site), resume, fail)
            && (if Expected(t0).None? then c.Fault? else LeftFor(c, if Expected(t0) == Some(v) then resume else fail, t0))
  {
    hide ItemSteps, Wrap, ItemStep, Agree, Exec, Encode, Offset, Mapped, Load, Store, Stub59c2a0, Displaced59c2a0, ExitAt, LeftFor;
    ListingCompare59c2a0(fail, resume);
    var p, q := Stub59c2a0(fail, resume), Displaced59c2a0();
    AgreeOn(s, t, RCX);
    AgreeOn(t, t0, RCX);
    if Expected(t).None? {
      AluFaults(p, base, 18, s, n);
      AluFaults(q, site, 1, t, n');
    } else {
      var s2 := Compare(p, base, 18, s, n, Expected(t).value, v);
      var t2 := Compare(q, site, 1, t, n', Expected(t).value, v);
      AgreeFlags(s, t, s2.zf, s2.cf);
      AgreeFlagged(t, t2.zf, t2.cf);
      AgreeTransitive(s2, t2, t);
      AgreeTransitive(s2, t, t0);
      Decide(p, base, 19, s2, n - 1);
      DecideOut(q, site, 2, t2, n' - 1);
      if Expected(t).value == v {
        FallOff(q, site, t2, n' - 2);
        Exits(p, base, 20, s2, n - 2, resume, t2);
        Exits(p, base, 20, s2, n - 2, resume, t0);
      } else {
        EndIsNext(site);
        Exits(p, base, 22, s2, n - 2, fail, t2);
        Exits(p, base, 22, s2, n - 2, fail, t0);
      }
    }
  }

  lemma EndIsNext(site: U64)
    ensures |Displaced59c2a0()| == 3 && Next(Displaced59c2a0(), site, 2) == End(Displaced59c2a0(), site)
  {
    hide Encode;
  }

  /** Past the first iteration nothing is copied: the stub takes the branch the displaced compare takes. */
  lemma LaterIterations(base: U64, site: U64, s: State, a: U64, fail: U64, resume: U64, n: nat)
    requires n >= 7 && Truncate(W32, Get(s, RDX)) != 0
    ensures Follows(ItemSteps(Stub59c2a0(fail, resume), base, AtItem(0, SetReg(s, RAX, a)), n),
              ItemSteps(Displaced59c2a0(), site, AtItem(0, s), n), End(Displaced59c2a0(), site), Taken59c2a0(site), resume, fail)
  {
    hide ItemSteps, Wrap, ItemStep, Agree, Exec, Encode, Offset, Mapped, Load, Store, Stub59c2a0, Displaced59c2a0, ExitAt, LeftFor,
      Follows, Truncate;
    ListingEntry59c2a0(fail, resume);
    var p, s0 := Stub59c2a0(fail, resume), SetReg(s, RAX, a);
    var s1 := TestSelf(p, base, 0, s0, n);
    AgreeScratch(s, a, s1.zf, s1.cf);
    Decide(p, base, 1, s1, n - 1);
    ComparesAt(base, site, s1, s, n - 2, n, fail, resume);
  }

  lemma ListingEntry59c2a0(fail: U64, resume: U64)
    ensures var p := Stub59c2a0(fail, resume);
            && |p| == 24
            && p[0] == Ins(Alu(Test, W32, R(RDX), From(R(RDX))), Std)
            && p[1] == Branch(NE, 17)
            && p[2] == Ins(Push(R9), Std) && p[3] == Ins(Push(R10), Std) && p[4] == Ins(Push(R11), Std)
            && p[5] == Ins(Lea(W64, R11, At(RBX, 1)), Std)
            && p[6] == Ins(Mov(W64, R(R9), From(R(RCX))), Std)
            && p[7] == Ins(Mov(W32, R(R10), Imm(0x40)), Std)
  {
  }

  lemma ListingCopy59c2a0(fail: U64, resume: U64)
    ensures var p := Stub59c2a0(fail, resume);
            && |p| == 24
            && p[8] == Ins(Mov(W8, R(RAX), From(At(R9, 0))), Alt)
            && p[9] == Ins(Mov(W8, At(R11, 0), From(R(RAX))), Std)
            && p[10] == Ins(Inc(W64, R(R9)), Std)
            && p[11] == Ins(Inc(W64, R(R11)), Std)
            && p[12] == Ins(Alu(Sub, W32, R(R10), Imm(1)), Std)
            && p[13] == Branch(NE, 8)
            && p[14] == Ins(Pop(R11), Std) && p[15] == Ins(Pop(R10), Std) && p[16] == Ins(Pop(R9), Std)
  {
  }

  /* ---------- the copy loop ---------- */

  lemma ByteAccess(m: Memory, a: U64, v: Byte)
    ensures Mapped(m, a, 1) <==> a in m
    ensures a in m ==> Load(m, a, 1) == m[a] && Store(m, a, 1, v) == m[a := v]
  {
    assert Mapped(m, Wrap(a + 1), 0);
  }

  lemma LowByte(prior: U64, v: Byte)
    requires prior - prior % 0x100 + v < 0x1_0000_0000_0000_0000
    ensures Truncate(W8, prior - prior % 0x100 + v) == v
  {
  }

  /** One byte moved, both pointers advanced and the counter decremented. */
  function CopiedOne(s: State): State
    requires Get(s, R9) in s.mem && Get(s, R10) > 0
  {
    SetReg(SetReg(SetReg(s, R9, Wrap(Get(s, R9) + 1)), R11, Wrap(Get(s, R11) + 1)), R10, Get(s, R10) - 1)
    .(mem := s.mem[Get(s, R11) := s.mem[Get(s, R9)]])
  }

  lemma MovesByte(base: U64, s: State, t: State, n: nat, fail: U64, resume: U64) returns (u: State)
    requires n >= 2 && Agree(s, t) && Get(t, R9) in t.mem && Get(t, R11) in t.mem
    ensures Agree(u, t.(mem := t.mem[Get(t, R11) := t.mem[Get(t, R9)]]))
    ensures var p := Stub59c2a0(fail, resume);
            ItemSteps(p, base, AtItem(8, s), n) == ItemSteps(p, base, AtItem(10, u), n - 2)
  {
    hide ItemSteps, Wrap, ItemStep, Agree, Exec, Encode, Offset, Mapped, Load, Store, Stub59c2a0, Truncate;
    ListingCopy59c2a0(fail, resume);
    var p, v := Stub59c2a0(fail, resume), t.mem[Get(t, R9)];
    AgreeOn(s, t, R9);
    AgreeOn(s, t, R11);
    ByteAccess(t.mem, Get(t, R9), v);
    ByteAccess(t.mem, Get(t, R11), v);
    var s1 := SetByte(p, base, 8, s, n, v);
    LowByte(Get(s, RAX), v);
    AgreeScratch(s, Get(s1, RAX), s.zf, s.cf);
    assert s1 == SetReg(s, RAX, Get(s1, RAX)).(zf := s.zf, cf := s.cf);
    AgreeTransitive(s1, s, t);
    u := Put(p, base, 9, s1, n - 1, v);
    AgreeMemory(s1, t, u.mem);
  }

  lemma CountsDown(x: U64)
    requires 1 <= x <= 64
    ensures Immediate(W32, 1) == 1 && Truncate(W32, x) == x && AluResult(Sub, W32, x, 1) == x - 1
  {
  }

  lemma CopyStep(base: U64, s: State, t: State, n: nat, fail: U64, resume: U64) returns (u: State)
    requires n >= 6 && Agree(s, t) && Get(t, R9) in t.mem && Get(t, R11) in t.mem && 1 <= Get(t, R10) <= 64
    ensures Agree(u, CopiedOne(t))
    ensures var p := Stub59c2a0(fail, resume);
            ItemSteps(p, base, AtItem(8, s), n) == ItemSteps(p, base, AtItem(if Get(t, R10) == 1 then 14 else 8, u), n - 6)
  {
    hide ItemSteps, Wrap, ItemStep, Agree, Exec, Encode, Offset, Mapped, Load, Store, Stub59c2a0, Truncate, Immediate, AluResult, AluCarry;
    ListingCopy59c2a0(fail, resume);
    var p := Stub59c2a0(fail, resume);
    var s1 := MovesByte(base, s, t, n, fail, resume);
    var t1 := t.(mem := t.mem[Get(t, R11) := t.mem[Get(t, R9)]]);
    AgreeOn(s1, t1, R9);
    AgreeOn(s1, t1, R11);
    AgreeOn(s1, t1, R10);
    CountsDown(Get(t, R10));
    var s2 := Increment(p, base, 10, s1, n - 2);
    AgreeSet(s1, t1, R9, Wrap(Get(t, R9) + 1));
    var t2 := SetReg(t1, R9, Wrap(Get(t, R9) + 1));
    AgreeFlagged(SetReg(s1, R9, Wrap(Get(t, R9) + 1)), s2.zf, s2.cf);
    AgreeTransitive(s2, SetReg(s1, R9, Wrap(Get(t, R9) + 1)), t2);
    u := Counts(base, s2, t2, n - 3, fail, resume);
    assert SetReg(SetReg(t2, R11, Wrap(Get(t2, R11) + 1)), R10, Get(t2, R10) - 1) == CopiedOne(t);
  }

  lemma Counts(base: U64, s: State, t: State, n: nat, fail: U64, resume: U64) returns (u: State)
    requires n >= 3 && Agree(s, t) && 1 <= Get(t, R10) <= 64
    ensures Agree(u, SetReg(SetReg(t, R11, Wrap(Get(t, R11) + 1)), R10, Get(t, R10) - 1))
    ensures var p := Stub59c2a0(fail, resume);
            ItemSteps(p, base, AtItem(11, s), n) == ItemSteps(p, base, AtItem(if Get(t, R10) == 1 then 14 else 8, u), n - 3)
  {
    hide ItemSteps, Wrap, ItemStep, Agree, Exec, Encode, Offset, Mapped, Load, Store, Stub59c2a0, Truncate, Immediate, AluResult, AluCarry;
    ListingCopy59c2a0(fail, resume);
    var p := Stub59c2a0(fail, resume);
    AgreeOn(s, t, R11);
    AgreeOn(s, t, R10);
    CountsDown(Get(t, R10));
    var s1 := Increment(p, base, 11, s, n);
    var moved, t1 := SetReg(s, R11, Wrap(Get(t, R11) + 1)), SetReg(t, R11, Wrap(Get(t, R11) + 1));
    AgreeSet(s, t, R11, Wrap(Get(t, R11) + 1));
    AgreeFlagged(moved, s1.zf, s1.cf);
    AgreeTransitive(s1, moved, t1);
    var s2 := Compute(p, base, 12, s1, n - 1, 1);
    var counted, t2 := SetReg(s1, R10, Get(t, R10) - 1), SetReg(t1, R10, Get(t, R10) - 1);
    AgreeSet(s1, t1, R10, Get(t, R10) - 1);
    AgreeFlagged(counted, s2.zf, s2.cf);
    AgreeTransitive(s2, counted, t2);
    Decide(p, base, 13, s2, n - 2);
    u := s2;
  }

  /** `j` bytes moved one at a time, in the order of the loop. */
  function Copied(m: Memory, src: U64, dst: U64, j: nat): (m': Memory)
    requires Mapped(m, src, j) && Mapped(m, dst, j)
    ensures m'.Keys == m.Keys
    decreases j, src
  {
    if j == 0 then m
    else
      var next := m[dst := m[src]];
      MappedSameKeys(m, next, Wrap(src + 1), j - 1);
      MappedSameKeys(m, next, Wrap(dst + 1), j - 1);
      Copied(next, Wrap(src + 1), Wrap(dst + 1), j - 1)
  }

  function Looped(s: State, j: nat): State
    requires Mapped(s.mem, Get(s, R9), j) && Mapped(s.mem, Get(s, R11), j)
  {
    SetReg(SetReg(SetReg(s, R9, Wrap(Get(s, R9) + j)), R11, Wrap(Get(s, R11) + j)), R10, 0)
    .(mem := Copied(s.mem, Get(s, R9), Get(s, R11), j))
  }

  lemma CopiedUnrolls(m: Memory, src: U64, dst: U64, j: nat)
    requires j > 0 && Mapped(m, src, j) && Mapped(m, dst, j)
    ensures src in m && dst in m
    ensures var next := m[dst := m[src]];
            && Mapped(next, Wrap(src + 1), j - 1) && Mapped(next, Wrap(dst + 1), j - 1)
            && Copied(m, src, dst, j) == Copied(next, Wrap(src + 1), Wrap(dst + 1), j - 1)
  {
    hide Wrap;
    var next := m[dst := m[src]];
    MappedSameKeys(m, next, Wrap(src + 1), j - 1);
    MappedSameKeys(m, next, Wrap(dst + 1), j - 1);
  }

  lemma Overwritten(s: State, a: U64, b: U64, c: U64, d: U64, e: U64, f: U64)
    ensures SetReg(SetReg(SetReg(SetReg(SetReg(SetReg(s, R9, a), R11, b), R10, c), R9, d), R11, e), R10, f)
            == SetReg(SetReg(SetReg(s, R9, d), R11, e), R10, f)
  {
    assert SetReg(SetReg(SetReg(SetReg(SetReg(SetReg(s, R9, a), R11, b), R10, c), R9, d), R11, e), R10, f).regs
           == SetReg(SetReg(SetReg(s, R9, d), R11, e), R10, f).regs;
  }

  lemma OneCopied(s: State)
    requires Get(s, R9) in s.mem && Get(s, R10) > 0
    ensures var t := CopiedOne(s);
            && Get(t, R9) == Wrap(Get(s, R9) + 1) && Get(t, R11) == Wrap(Get(s, R11) + 1) && Get(t, R10) == Get(s, R10) - 1
            && t.mem == s.mem[Get(s, R11) := s.mem[Get(s, R9)]]
  {
  }

  lemma SetRegMemory(s: State, r: Reg, v: U64, m: Memory)
    ensures SetReg(s.(mem := m), r, v) == SetReg(s, r, v).(mem := m)
  {
  }

  /** After one round, `j - 1` remain. */
  lemma LoopUnrolls(t: State, j: nat)
    requires j > 0 && Get(t, R10) == j && Mapped(t.mem, Get(t, R9), j) && Mapped(t.mem, Get(t, R11), j)
    ensures Get(t, R9) in t.mem && Get(t, R11) in t.mem
    ensures var t1 := CopiedOne(t);
            && Mapped(t1.mem, Get(t1, R9), j - 1) && Mapped(t1.mem, Get(t1, R11), j - 1) && Get(t1, R10) == j - 1
            && Looped(t1, j - 1) == Looped(t, j)
  {
    hide Wrap, Mapped, Copied, Get, SetReg;
    CopiedUnrolls(t.mem, Get(t, R9), Get(t, R11), j);
    OneCopied(t);
    WrapAdd(Get(t, R9) + 1, j - 1);
    WrapAdd(Get(t, R11) + 1, j - 1);
    var m, a, b := t.mem[Get(t, R11) := t.mem[Get(t, R9)]], Wrap(Get(t, R9) + 1), Wrap(Get(t, R11) + 1);
    var d, e := Wrap(Get(t, R9) + j), Wrap(Get(t, R11) + j);
    var t1 := SetReg(SetReg(SetReg(t, R9, a), R11, b), R10, (j - 1) as U64);
    assert CopiedOne(t) == t1.(mem := m);
    SetRegMemory(t1, R9, d, m);
    SetRegMemory(SetReg(t1, R9, d), R11, e, m);
    SetRegMemory(SetReg(SetReg(t1, R9, d), R11, e), R10, 0, m);
    Overwritten(t, a, b, j - 1, d, e, 0);
  }

  lemma NoneLeft(t: State)
    requires Get(t, R10) == 0
    ensures Looped(t, 0) == t
  {
    assert Wrap(Get(t, R9) + 0) == Get(t, R9) && Wrap(Get(t, R11) + 0) == Get(t, R11);
    assert Looped(t, 0).regs == t.regs;
  }

  /** The loop terminates: `j` rounds of six instructions move `j` bytes. */
  lemma {:induction false} Copying(base: U64, s: State, t: State, n: nat, j: nat, fail: U64, resume: U64) returns (u: State)
    requires 1 <= j <= 64 && n >= 6 * j && Agree(s, t)
    requires Get(t, R10) == j && Mapped(t.mem, Get(t, R9), j) && Mapped(t.mem, Get(t, R11), j)
    ensures Agree(u, Looped(t, j))
    ensures var p := Stub59c2a0(fail, resume);
            ItemSteps(p, base, AtItem(8, s), n) == ItemSteps(p, base, AtItem(14, u), n - 6 * j)
    decreases j
  {
    hide ItemSteps, Wrap, ItemStep, Agree, Mapped, Stub59c2a0, CopiedOne, Looped;
    LoopUnrolls(t, j);
    u := CopyStep(base, s, t, n, fail, resume);
    if j == 1 {
      NoneLeft(CopiedOne(t));
    } else {
      u := Copying(base, u, CopiedOne(t), n - 6, j - 1, fail, resume);
    }
  }

  /* ---------- what the copy leaves in memory ---------- */

  /** The `n` bytes from `a` and the `k` bytes from `b` do not overlap. */
  predicate Disjoint(a: U64, n: nat, b: U64, k: nat) {
    k <= Wrap(a - b) <= 0x1_0000_0000_0000_0000 - n
  }

  lemma {:induction false} CopiedFrame(m: Memory, src: U64, dst: U64, j: nat, x: U64)
    requires Mapped(m, src, j) && Mapped(m, dst, j) && x in m && Wrap(x - dst) >= j
    ensures Copied(m, src, dst, j)[x] == m[x]
    decreases j
  {
    if j > 0 {
      var next := m[dst := m[src]];
      MappedSameKeys(m, next, Wrap(src + 1), j - 1);
      MappedSameKeys(m, next, Wrap(dst + 1), j - 1);
      CopiedFrame(next, Wrap(src + 1), Wrap(dst + 1), j - 1, x);
    }
  }

  lemma OneBehind(a: U64, j: nat)
    requires 0 < j <= 0x1_0000_0000_0000_0000
    ensures Wrap(a - Wrap(a + 1)) >= j - 1 && Wrap(a + 0) == a
  {
  }

  /** Moving both regions on by one keeps their distance. */
  lemma Shifted(dst: U64, src: U64, j: nat, i: nat)
    requires 0 < i < j && Disjoint(dst, j, src, j)
    ensures Disjoint(Wrap(dst + 1), j - 1, Wrap(src + 1), j - 1)
    ensures Wrap(Wrap(dst + 1) + (i - 1)) == Wrap(dst + i) && Wrap(Wrap(src + 1) + (i - 1)) == Wrap(src + i)
    ensures Wrap(src + i) != dst
  {
    hide Wrap;
    WrapAdd(dst + 1, i - 1);
    WrapAdd(src + 1, i - 1);
    WrapSub(dst + 1, src + 1);
    WrapAdd(src + i, -(src as int));
  }

  lemma {:induction false} CopiedByte(m: Memory, src: U64, dst: U64, j: nat, i: nat)
    requires Mapped(m, src, j) && Mapped(m, dst, j) && Disjoint(dst, j, src, j) && i < j
    ensures Wrap(dst + i) in m && Wrap(src + i) in m
    ensures Copied(m, src, dst, j)[Wrap(dst + i)] == m[Wrap(src + i)]
    decreases j
  {
    hide Wrap, Mapped, Copied;
    CopiedUnrolls(m, src, dst, j);
    var next := m[dst := m[src]];
    if i == 0 {
      OneBehind(dst, j);
      CopiedFrame(next, Wrap(src + 1), Wrap(dst + 1), j - 1, dst);
    } else {
      Shifted(dst, src, j, i);
      CopiedByte(next, Wrap(src + 1), Wrap(dst + 1), j - 1, i - 1);
    }
  }

  lemma {:induction false} CopiedLoad(m: Memory, src: U64, dst: U64, j: nat, b: U64, k: nat)
    requires Mapped(m, src, j) && Mapped(m, dst, j) && Mapped(m, b, k) && (k == 0 || Disjoint(b, k, dst, j))
    ensures Mapped(Copied(m, src, dst, j), b, k)
    ensures Load(Copied(m, src, dst, j), b, k) == Load(m, b, k)
    decreases k
  {
    hide Copied;
    if k > 0 {
      CopiedFrame(m, src, dst, j, b);
      CopiedLoad(m, src, dst, j, Wrap(b + 1), k - 1);
    }
  }

  lemma {:induction false} MappedPart(m: Memory, a: U64, n: nat, i: nat, k: nat)
    requires Mapped(m, a, n) && i + k <= n
    ensures Mapped(m, Wrap(a + i), k)
    decreases n
  {
    if i > 0 {
      MappedPart(m, Wrap(a + 1), n - 1, i - 1, k);
      WrapAdd(a + 1, i - 1);
    } else if k > 0 {
      MappedPart(m, Wrap(a + 1), n - 1, 0, k - 1);
    }
  }

  /* ---------- the first iteration ---------- */

  /** The stub can copy: its three stack slots and both buffers are mapped and do not overlap. */
  predicate Room(s: State) {
    var slots, src, dst := Wrap(Get(s, RSP) - 24), Get(s, RCX), Wrap(Get(s, RBX) + 1);
    && Mapped(s.mem, slots, 24) && Mapped(s.mem, src, 64) && Mapped(s.mem, dst, 64)
    && Disjoint(dst, 64, src, 64) && Disjoint(src, 64, slots, 24) && Disjoint(slots, 24, dst, 64)
  }

  lemma RoomForSlots(s: State)
    requires Room(s)
    ensures Mapped(s.mem, Wrap(Get(s, RSP) - 24), 24)
  {
  }

  function Slot(s: State, i: nat): U64 {
    Wrap(Get(s, RSP) - 8 * i)
  }

  lemma SlotsMapped(s: State)
    requires Mapped(s.mem, Wrap(Get(s, RSP) - 24), 24)
    ensures Mapped(s.mem, Slot(s, 1), 8) && Mapped(s.mem, Slot(s, 2), 8) && Mapped(s.mem, Slot(s, 3), 8)
  {
    hide Mapped, Wrap;
    MappedPart(s.mem, Wrap(Get(s, RSP) - 24), 24, 0, 8);
    MappedPart(s.mem, Wrap(Get(s, RSP) - 24), 24, 8, 8);
    MappedPart(s.mem, Wrap(Get(s, RSP) - 24), 24, 16, 8);
    WrapAdd(Get(s, RSP) - 24, 0);
    WrapAdd(Get(s, RSP) - 24, 8);
    WrapAdd(Get(s, RSP) - 24, 16);
  }

  /** Memory with R9, R10 and R11 pushed. */
  function Pushed(s: State): (m: Memory)
    requires Mapped(s.mem, Wrap(Get(s, RSP) - 24), 24)
    ensures m.Keys == s.mem.Keys
  {
    hide Mapped, Store;
    SlotsMapped(s);
    var m1 := Store(s.mem, Slot(s, 1), 8, Get(s, R9));
    SameMapping(s.mem, Slot(s, 1), 8, Get(s, R9), Slot(s, 2), 8);
    SameMapping(s.mem, Slot(s, 1), 8, Get(s, R9), Slot(s, 3), 8);
    var m2 := Store(m1, Slot(s, 2), 8, Get(s, R10));
    SameMapping(m1, Slot(s, 2), 8, Get(s, R10), Slot(s, 3), 8);
    Store(m2, Slot(s, 3), 8, Get(s, R11))
  }

  /** Memory when the comparison runs: the registers pushed and the 64 bytes copied. */
  function Mirrored(s: State): (m: Memory)
    requires Room(s)
    ensures m.Keys == s.mem.Keys
  {
    hide Mapped, Wrap, Disjoint, Pushed;
    MappedSameKeys(s.mem, Pushed(s), Get(s, RCX), 64);
    MappedSameKeys(s.mem, Pushed(s), Wrap(Get(s, RBX) + 1), 64);
    Copied(Pushed(s), Get(s, RCX), Wrap(Get(s, RBX) + 1), 64)
  }

  /** The state before the loop. */
  function Ready(s: State): State
    requires Room(s)
  {
    SetReg(SetReg(SetReg(SetReg(s, RSP, Slot(s, 3)), R11, Wrap(Get(s, RBX) + 1)), R9, Get(s, RCX)), R10, 64)
    .(mem := Pushed(s))
  }

  lemma SlotSteps(s: State)
    ensures Wrap(Get(s, RSP) as int - 8) == Slot(s, 1) && Wrap(Slot(s, 1) - 8) == Slot(s, 2) && Wrap(Slot(s, 2) - 8) == Slot(s, 3)
    ensures Wrap(Slot(s, 3) + 8) == Slot(s, 2) && Wrap(Slot(s, 2) + 8) == Slot(s, 1) && Wrap(Slot(s, 1) + 8) == Get(s, RSP)
  {
    hide Wrap, Code;
    WrapAdd(Get(s, RSP) - 8, -8);
    WrapAdd(Get(s, RSP) - 16, -8);
    WrapAdd(Get(s, RSP) - 8, 8);
    WrapAdd(Get(s, RSP) - 16, 8);
    WrapAdd(Get(s, RSP) - 24, 8);
    assert Wrap(Get(s, RSP)) == Get(s, RSP);
  }

  lemma SetReg10()
    ensures Immediate(W32, 0x40) == 64
  {
  }

  /** Items 3 and 4. */
  lemma SavesTwo(base: U64, s: State, t: State, n: nat, fail: U64, resume: U64, m: Memory) returns (u: State)
    requires n >= 2 && Agree(s, SetReg(t, RSP, Slot(t, 1)).(mem := m)) && Mapped(m, Slot(t, 2), 8) && Mapped(m, Slot(t, 3), 8)
    ensures Mapped(Store(m, Slot(t, 2), 8, Get(t, R10)), Slot(t, 3), 8)
    ensures Agree(u, SetReg(t, RSP, Slot(t, 3)).(mem := Store(Store(m, Slot(t, 2), 8, Get(t, R10)), Slot(t, 3), 8, Get(t, R11))))
    ensures var p := Stub59c2a0(fail, resume);
            ItemSteps(p, base, AtItem(3, s), n) == ItemSteps(p, base, AtItem(5, u), n - 2)
  {
    hide ItemSteps, ItemStep, Agree, Exec, Encode, Offset, Mapped, Load, Store, Stub59c2a0, Slot, Wrap;
    ListingEntry59c2a0(fail, resume);
    SlotSteps(t);
    var p, t1 := Stub59c2a0(fail, resume), SetReg(t, RSP, Slot(t, 1)).(mem := m);
    AgreeOn(s, t1, RSP);
    AgreeOn(s, t1, R10);
    AgreeOn(s, t1, R11);
    SameMapping(m, Slot(t, 2), 8, Get(t, R10), Slot(t, 3), 8);
    var s2 := PushOnto(p, base, 3, s, n);
    AgreeSet(s, t1, RSP, Slot(t, 2));
    u := PushOnto(p, base, 4, s2, n - 1);
    AgreeSet(s, t1, RSP, Slot(t, 3));
    AgreeMemory(SetReg(s, RSP, Slot(t, 3)), SetReg(t1, RSP, Slot(t, 3)), u.mem);
    assert u == SetReg(s, RSP, Slot(t, 3)).(mem := u.mem);
    assert SetReg(t1, RSP, Slot(t, 3)).regs == SetReg(t, RSP, Slot(t, 3)).regs;
  }

  /** Items 2 to 4: the three registers are saved. */
  lemma Saves(base: U64, s: State, t: State, n: nat, fail: U64, resume: U64) returns (u: State)
    requires n >= 3 && Agree(s, t) && Mapped(t.mem, Wrap(Get(t, RSP) - 24), 24)
    ensures Agree(u, SetReg(t, RSP, Slot(t, 3)).(mem := Pushed(t)))
    ensures var p := Stub59c2a0(fail, resume);
            ItemSteps(p, base, AtItem(2, s), n) == ItemSteps(p, base, AtItem(5, u), n - 3)
  {
    hide ItemSteps, ItemStep, Agree, Exec, Encode, Offset, Mapped, Load, Store, Stub59c2a0, Slot, Wrap;
    ListingEntry59c2a0(fail, resume);
    var p := Stub59c2a0(fail, resume);
    SlotsMapped(t);
    SlotSteps(t);
    AgreeOn(s, t, RSP);
    AgreeOn(s, t, R9);
    SameMapping(t.mem, Slot(t, 1), 8, Get(t, R9), Slot(t, 2), 8);
    SameMapping(t.mem, Slot(t, 1), 8, Get(t, R9), Slot(t, 3), 8);
    var s1 := PushOnto(p, base, 2, s, n);
    AgreeSet(s, t, RSP, Slot(t, 1));
    AgreeMemory(SetReg(s, RSP, Slot(t, 1)), SetReg(t, RSP, Slot(t, 1)), s1.mem);
    assert s1.mem == Store(t.mem, Slot(t, 1), 8, Get(t, R9));
    u := SavesTwo(base, s1, t, n - 1, fail, resume, s1.mem);
  }

  /** Items 5 to 7: the pointers and the counter of the copy. */
  lemma SetsUp(base: U64, s: State, t: State, n: nat, fail: U64, resume: U64) returns (u: State)
    requires n >= 3 && Agree(s, t)
    ensures Agree(u, SetReg(SetReg(SetReg(t, R11, Wrap(Get(t, RBX) + 1)), R9, Get(t, RCX)), R10, 64))
    ensures var p := Stub59c2a0(fail, resume);
            ItemSteps(p, base, AtItem(5, s), n) == ItemSteps(p, base, AtItem(8, u), n - 3)
  {
    hide ItemSteps, ItemStep, Agree, Exec, Encode, Offset, Mapped, Load, Store, Stub59c2a0, Immediate, Wrap;
    ListingEntry59c2a0(fail, resume);
    SetReg10();
    var p := Stub59c2a0(fail, resume);
    AgreeOn(s, t, RBX);
    AgreeOn(s, t, RCX);
    var s2 := Address(p, base, 5, s, n);
    AgreeSet(s, t, R11, Wrap(Get(t, RBX) + 1));
    var t2 := SetReg(t, R11, Wrap(Get(t, RBX) + 1));
    var s3 := Set(p, base, 6, s2, n - 1, Get(t, RCX));
    AgreeSet(s2, t2, R9, Get(t, RCX));
    u := Set(p, base, 7, s3, n - 2, 64);
    AgreeSet(s3, SetReg(t2, R9, Get(t, RCX)), R10, 64);
  }

  /** Items 2 to 7. */
  lemma Prepares(base: U64, s: State, t: State, n: nat, fail: U64, resume: U64) returns (u: State)
    requires n >= 6 && Agree(s, t) && Room(t)
    ensures Agree(u, Ready(t))
    ensures var p := Stub59c2a0(fail, resume);
            ItemSteps(p, base, AtItem(2, s), n) == ItemSteps(p, base, AtItem(8, u), n - 6)
  {
    hide ItemSteps, Agree, Mapped, Stub59c2a0, Slot, Pushed, Disjoint, Wrap;
    var s1 := Saves(base, s, t, n, fail, resume);
    var t1 := SetReg(t, RSP, Slot(t, 3)).(mem := Pushed(t));
    u := SetsUp(base, s1, t1, n - 3, fail, resume);
    assert Ready(t) == SetReg(SetReg(SetReg(t1, R11, Wrap(Get(t1, RBX) + 1)), R9, Get(t1, RCX)), R10, 64);
  }

  lemma DisjointPart(a: U64, n: nat, b: U64, k: nat, i: nat, m: nat)
    requires Disjoint(a, n, b, k) && i + m <= n && m > 0
    ensures Disjoint(Wrap(a + i), m, b, k)
  {
    hide Wrap;
    WrapAdd(a + i, -(b as int));
    WrapAdd(a - b, i);
  }

  lemma SlotsApart(s: State)
    ensures Apart(Slot(s, 1), 8, Slot(s, 2), 8) && Apart(Slot(s, 1), 8, Slot(s, 3), 8) && Apart(Slot(s, 2), 8, Slot(s, 3), 8)
  {
    hide Apart;
    WrapSub(Get(s, RSP) - 8, Get(s, RSP) - 16);
    WrapSub(Get(s, RSP) - 8, Get(s, RSP) - 24);
    WrapSub(Get(s, RSP) - 16, Get(s, RSP) - 24);
    hide Wrap, Code;
    ApartByDistance(Slot(s, 1), 8, Slot(s, 2), 8);
    ApartByDistance(Slot(s, 1), 8, Slot(s, 3), 8);
    ApartByDistance(Slot(s, 2), 8, Slot(s, 3), 8);
  }

  /** The pushed registers are where they were pushed. */
  lemma SavedOnStack(s: State)
    requires Mapped(s.mem, Wrap(Get(s, RSP) - 24), 24)
    ensures var m := Pushed(s);
            && Mapped(m, Slot(s, 1), 8) && Mapped(m, Slot(s, 2), 8) && Mapped(m, Slot(s, 3), 8)
            && Load(m, Slot(s, 1), 8) == Get(s, R9) && Load(m, Slot(s, 2), 8) == Get(s, R10) && Load(m, Slot(s, 3), 8) == Get(s, R11)
  {
    hide Mapped, Store, Load, Apart, Wrap, Code;
    Pow256Values();
    SlotsMapped(s);
    SlotsApart(s);
    var a, b, c := Slot(s, 1), Slot(s, 2), Slot(s, 3);
    hide Slot;
    SameMapping(s.mem, a, 8, Get(s, R9), b, 8);
    SameMapping(s.mem, a, 8, Get(s, R9), c, 8);
    LoadStored(s.mem, a, 8, Get(s, R9));
    var m1 := Store(s.mem, a, 8, Get(s, R9));
    SameMapping(m1, b, 8, Get(s, R10), c, 8);
    LoadStored(m1, b, 8, Get(s, R10));
    LoadApart(m1, b, 8, Get(s, R10), a, 8);
    var m2 := Store(m1, b, 8, Get(s, R10));
    LoadStored(m2, c, 8, Get(s, R11));
    LoadApart(m2, c, 8, Get(s, R11), a, 8);
    LoadApart(m2, c, 8, Get(s, R11), b, 8);
  }

  lemma SlotDistance(s: State, i: nat)
    requires 1 <= i <= 3
    ensures Slot(s, i) == Wrap(Wrap(Get(s, RSP) - 24) + (24 - 8 * i))
  {
    WrapAdd(Get(s, RSP) - 24, 24 - 8 * i);
  }

  /** … and the copy does not overwrite them. */
  lemma SavedSurvive(s: State, i: nat)
    requires Room(s) && 1 <= i <= 3
    ensures Mapped(Pushed(s), Slot(s, i), 8) && Mapped(Mirrored(s), Slot(s, i), 8)
    ensures Load(Mirrored(s), Slot(s, i), 8) == Load(Pushed(s), Slot(s, i), 8)
  {
    hide Mapped, Store, Load, Wrap, Copied, Code, Disjoint, Pushed, Slot;
    SavedOnStack(s);
    SlotDistance(s, i);
    DisjointPart(Wrap(Get(s, RSP) - 24), 24, Wrap(Get(s, RBX) + 1), 64, 24 - 8 * i, 8);
    MappedSameKeys(s.mem, Pushed(s), Get(s, RCX), 64);
    MappedSameKeys(s.mem, Pushed(s), Wrap(Get(s, RBX) + 1), 64);
    CopiedLoad(Pushed(s), Get(s, RCX), Wrap(Get(s, RBX) + 1), 64, Slot(s, i), 8);
  }

  /** The state after the loop: nothing but the saved registers, RSP and memory has changed. */
  lemma AfterLoop(s: State)
    requires Room(s)
    ensures var t := Ready(s);
            && Get(t, R10) == 64 && Mapped(t.mem, Get(t, R9), 64) && Mapped(t.mem, Get(t, R11), 64)
            && Looped(t, 64).mem == Mirrored(s) && Get(Looped(t, 64), RSP) == Slot(s, 3)
  {
    hide Mapped, Copied, Disjoint, Slot, Wrap, Pushed;
    MappedSameKeys(s.mem, Pushed(s), Get(s, RCX), 64);
    MappedSameKeys(s.mem, Pushed(s), Wrap(Get(s, RBX) + 1), 64);
  }

  /** Popping R11, R10 and R9 gives the registers back. */
  function Popped(l: State, s: State): State {
    SetReg(SetReg(SetReg(SetReg(SetReg(SetReg(l, RSP, Slot(s, 2)), R11, Get(s, R11)), RSP, Slot(s, 1)), R10, Get(s, R10)),
      RSP, Get(s, RSP)), R9, Get(s, R9))
  }

  lemma RegistersRestored(s: State)
    requires Room(s)
    ensures var t := Ready(s);
            && Mapped(t.mem, Get(t, R9), 64) && Mapped(t.mem, Get(t, R11), 64)
            && Popped(Looped(t, 64), s) == s.(mem := Mirrored(s))
  {
    hide Mapped, Copied, Disjoint, Slot, Wrap, Pushed, Mirrored, Room;
    AfterLoop(s);
    assert Popped(Looped(Ready(s), 64), s).regs == s.regs;
  }

  /** Items 14 to 16. */
  lemma Pops(base: U64, u: State, s: State, n: nat, fail: U64, resume: U64) returns (v: State)
    requires n >= 3 && Room(s)
    requires var t := Ready(s); Mapped(t.mem, Get(t, R9), 64) && Mapped(t.mem, Get(t, R11), 64) && Agree(u, Looped(t, 64))
    ensures Agree(v, s.(mem := Mirrored(s)))
    ensures var p := Stub59c2a0(fail, resume);
            ItemSteps(p, base, AtItem(14, u), n) == ItemSteps(p, base, AtItem(17, v), n - 3)
  {
    hide ItemSteps, Wrap, ItemStep, Agree, Exec, Encode, Offset, Mapped, Load, Store, Stub59c2a0, Slot, Pushed, Room, Mirrored, Looped, Ready;
    ListingCopy59c2a0(fail, resume);
    AfterLoop(s);
    RoomForSlots(s);
    SavedOnStack(s);
    SavedSurvive(s, 1);
    SavedSurvive(s, 2);
    SavedSurvive(s, 3);
    SlotSteps(s);
    RegistersRestored(s);
    var p, l := Stub59c2a0(fail, resume), Looped(Ready(s), 64);
    AgreeOn(u, l, RSP);
    var u1 := PopFrom(p, base, 14, u, n);
    AgreeSet(u, l, RSP, Slot(s, 2));
    AgreeSet(SetReg(u, RSP, Slot(s, 2)), SetReg(l, RSP, Slot(s, 2)), R11, Get(s, R11));
    v := PopsTwo(base, u1, SetReg(SetReg(l, RSP, Slot(s, 2)), R11, Get(s, R11)), s, n - 1, fail, resume);
  }

  lemma PopsTwo(base: U64, u: State, t: State, s: State, n: nat, fail: U64, resume: U64) returns (v: State)
    requires n >= 2 && Agree(u, t) && Get(t, RSP) == Slot(s, 2)
    requires Mapped(t.mem, Slot(s, 2), 8) && Load64(t.mem, Slot(s, 2)) == Get(s, R10)
    requires Mapped(t.mem, Slot(s, 1), 8) && Load64(t.mem, Slot(s, 1)) == Get(s, R9)
    ensures Agree(v, SetReg(SetReg(SetReg(SetReg(t, RSP, Slot(s, 1)), R10, Get(s, R10)), RSP, Get(s, RSP)), R9, Get(s, R9)))
    ensures var p := Stub59c2a0(fail, resume);
            ItemSteps(p, base, AtItem(15, u), n) == ItemSteps(p, base, AtItem(17, v), n - 2)
  {
    hide ItemSteps, Wrap, ItemStep, Agree, Exec, Encode, Offset, Mapped, Load, Stub59c2a0, Slot;
    ListingCopy59c2a0(fail, resume);
    SlotSteps(s);
    var p := Stub59c2a0(fail, resume);
    AgreeOn(u, t, RSP);
    var u1 := PopFrom(p, base, 15, u, n);
    AgreeSet(u, t, RSP, Slot(s, 1));
    AgreeSet(SetReg(u, RSP, Slot(s, 1)), SetReg(t, RSP, Slot(s, 1)), R10, Get(s, R10));
    var t1 := SetReg(SetReg(t, RSP, Slot(s, 1)), R10, Get(s, R10));
    AgreeOn(u1, t1, RSP);
    v := PopFrom(p, base, 16, u1, n - 1);
    AgreeSet(u1, t1, RSP, Get(s, RSP));
    AgreeSet(SetReg(u1, RSP, Get(s, RSP)), SetReg(t1, RSP, Get(s, RSP)), R9, Get(s, R9));
  }

  /** Byte `i` of the copy, for every `i`. */
  lemma MirroredByte(s: State, i: nat)
    requires Room(s) && i < 64
    ensures Wrap(Get(s, RBX) + 1 + i) in s.mem && Wrap(Get(s, RCX) + i) in s.mem
    ensures Mirrored(s)[Wrap(Get(s, RBX) + 1 + i)] == s.mem[Wrap(Get(s, RCX) + i)]
  {
    hide Mapped, Store, Load, Wrap, Copied, Code, Pushed;
    var src, dst := Get(s, RCX), Wrap(Get(s, RBX) + 1);
    MappedSameKeys(s.mem, Pushed(s), src, 64);
    MappedSameKeys(s.mem, Pushed(s), dst, 64);
    CopiedByte(Pushed(s), src, dst, 64, i);
    WrapAdd(Get(s, RBX) + 1, i);
    DisjointPart(src, 64, Wrap(Get(s, RSP) - 24), 24, i, 1);
    PushedFrame(s, Wrap(src + i));
  }

  /** Pushing changes the three stack slots only. */
  lemma PushedFrame(s: State, x: U64)
    requires Mapped(s.mem, Wrap(Get(s, RSP) - 24), 24) && x in s.mem && Wrap(x - Wrap(Get(s, RSP) - 24)) >= 24
    ensures Pushed(s)[x] == s.mem[x]
  {
    hide Mapped, Store, Load, Code;
    SlotsMapped(s);
    BeyondSlots(s, x);
    var a, b, c := Slot(s, 1), Slot(s, 2), Slot(s, 3);
    hide Slot, Wrap, Outside;
    SameMapping(s.mem, a, 8, Get(s, R9), b, 8);
    SameMapping(s.mem, a, 8, Get(s, R9), c, 8);
    StoreFrame(s.mem, a, 8, Get(s, R9), x);
    var m1 := Store(s.mem, a, 8, Get(s, R9));
    SameMapping(m1, b, 8, Get(s, R10), c, 8);
    StoreFrame(m1, b, 8, Get(s, R10), x);
    StoreFrame(Store(m1, b, 8, Get(s, R10)), c, 8, Get(s, R11), x);
  }

  lemma BeyondSlots(s: State, x: U64)
    requires Wrap(x - Wrap(Get(s, RSP) - 24)) >= 24
    ensures Outside(x, Slot(s, 1), 8) && Outside(x, Slot(s, 2), 8) && Outside(x, Slot(s, 3), 8)
  {
    hide Wrap, Code, Outside;
    var d := x - Wrap(Get(s, RSP) - 24);
    SlotDistance(s, 1);
    SlotDistance(s, 2);
    SlotDistance(s, 3);
    var top := Wrap(Get(s, RSP) - 24);
    Nearer(x, top, 16);
    Nearer(x, top, 8);
    Nearer(x, top, 0);
    OutsideByDistance(x, Slot(s, 1), 8);
    OutsideByDistance(x, Slot(s, 2), 8);
    OutsideByDistance(x, Slot(s, 3), 8);
  }

  lemma Nearer(x: U64, a: U64, k: nat)
    requires Wrap(x - a) >= k && k < 24
    ensures Wrap(x - Wrap(a + k)) == Wrap(x - a) - k
  {
    WrapSub(x, a + k);
  }

  /** Every byte outside the copied buffer and the three stack slots is as it was. */
  lemma MirroredFrame(s: State, x: U64)
    requires Room(s) && x in s.mem
    requires Wrap(x - Wrap(Get(s, RBX) + 1)) >= 64 && Wrap(x - Wrap(Get(s, RSP) - 24)) >= 24
    ensures Mirrored(s)[x] == s.mem[x]
  {
    hide Mapped, Store, Load, Wrap, Copied, Code, Pushed, Disjoint;
    MappedSameKeys(s.mem, Pushed(s), Get(s, RCX), 64);
    MappedSameKeys(s.mem, Pushed(s), Wrap(Get(s, RBX) + 1), 64);
    CopiedFrame(Pushed(s), Get(s, RCX), Wrap(Get(s, RBX) + 1), 64, x);
    PushedFrame(s, x);
  }

  lemma ReadsByte(s: State, op: Operand)
    requires op.M? && EffectiveAddress(s, op) in s.mem
    ensures Read(s, W8, op) == Some(s.mem[EffectiveAddress(s, op)])
  {
    hide Mapped, Load, Store, EffectiveAddress;
    ByteAccess(s.mem, EffectiveAddress(s, op), 0);
  }

  lemma Opposite(dst: U64, src: U64)
    requires Disjoint(dst, 64, src, 64)
    ensures Wrap(src - dst) >= 64
  {
  }

  /** The byte compared with is the first of the source, which copying leaves alone. */
  lemma ExpectedIsSource(s: State)
    requires Room(s)
    ensures Get(s, RCX) in s.mem && Expected(s.(mem := Mirrored(s))) == Some(s.mem[Get(s, RCX)])
  {
    hide Mapped, Load, Store, Code, Mirrored;
    var t, src := s.(mem := Mirrored(s)), Get(s, RCX);
    MirroredByte(s, 0);
    Opposite(Wrap(Get(s, RBX) + 1), src);
    MirroredFrame(s, src);
    assert EffectiveAddress(t, At(RCX, 0)) == src;
    ReadsByte(t, At(RCX, 0));
  }

  lemma ComparedIsIndexed(s: State)
    requires Room(s)
    ensures var x := Wrap(Get(s, R8) + Get(s, RCX) + 1);
            Compared(s.(mem := Mirrored(s))) == if x in s.mem then Some(Mirrored(s)[x]) else None
  {
    hide Load, Store, Code, Mirrored, Room;
    var t, x := s.(mem := Mirrored(s)), Wrap(Get(s, R8) + Get(s, RCX) + 1);
    assert EffectiveAddress(t, AtIndex(R8, RCX, 1)) == x;
    if x in s.mem {
      ReadsByte(t, AtIndex(R8, RCX, 1));
    }
  }

  /**
   On the first iteration, whatever R8 holds, the stub terminates, has copied the 64 bytes and has
   restored R9, R10, R11 and RSP. It resumes if and only if the byte then at [r8+rcx+1] is the
   first byte of the source, fails if it is another one, and faults if it is not mapped.
   */
  lemma MirrorsThenCompares(base: U64, s: State, a: U64, fail: U64, resume: U64, n: nat)
    requires n >= 400 && Truncate(W32, Get(s, RDX)) == 0 && Room(s)
    ensures Get(s, RCX) in s.mem
    ensures var c := ItemSteps(Stub59c2a0(fail, resume), base, AtItem(0, SetReg(s, RAX, a)), n);
            var x := Wrap(Get(s, R8) + Get(s, RCX) + 1);
            if x !in s.mem then c.Fault?
            else LeftFor(c, if Mirrored(s)[x] == s.mem[Get(s, RCX)] then resume else fail, s.(mem := Mirrored(s)))
  {
    hide ItemSteps, Wrap, ItemStep, Agree, Exec, Encode, Offset, Mapped, Load, Store, Stub59c2a0, Displaced59c2a0, Truncate,
      Room, Ready, Looped, Mirrored, LeftFor, Compared, Expected, ExitAt, Follows;
    ListingEntry59c2a0(fail, resume);
    var p, s0 := Stub59c2a0(fail, resume), SetReg(s, RAX, a);
    var s1 := TestSelf(p, base, 0, s0, n);
    AgreeScratch(s, a, s1.zf, s1.cf);
    Decide(p, base, 1, s1, n - 1);
    var s2 := Prepares(base, s1, s, n - 2, fail, resume);
    AfterLoop(s);
    var s3 := Copying(base, s2, Ready(s), n - 8, 64, fail, resume);
    var s4 := Pops(base, s3, s, n - 392, fail, resume);
    ExpectedIsSource(s);
    ComparedIsIndexed(s);
    ComparesAt(base, 0, s4, s.(mem := Mirrored(s)), n - 395, 4, fail, resume);
  }

  /** With R8 + RCX = RBX, as at the one call site, that byte is the first one copied: the stub always resumes. */
  lemma FirstIteration(base: U64, s: State, a: U64, fail: U64, resume: U64, n: nat)
    requires n >= 400 && Truncate(W32, Get(s, RDX)) == 0
    requires Room(s) && Wrap(Get(s, R8) + Get(s, RCX)) == Get(s, RBX)
    ensures LeftFor(ItemSteps(Stub59c2a0(fail, resume), base, AtItem(0, SetReg(s, RAX, a)), n), resume, s.(mem := Mirrored(s)))
  {
    hide ItemSteps, Wrap, Mapped, Stub59c2a0, Truncate, Mirrored, LeftFor, Room;
    MirrorsThenCompares(base, s, a, fail, resume, n);
    MirroredByte(s, 0);
    WrapAdd(Get(s, R8) + Get(s, RCX), 1);
  }
}
