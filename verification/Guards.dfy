/**
 What the guard trampolines do, for every trampoline address and machine state. Each theorem
 runs the stub from the state the patched site hands over, which is the site's state with the
 trampoline address in RAX, and compares it with the displaced block run from the site's state.
 */
module Guards {
  import opened Wrappers
  import opened Words
  import opened ProcessMemory
  import opened Machine
  import opened InstructionEncoding
  import opened Programs
  import opened Spelling
  import opened StepRules
  import opened Agreement
  import opened Stubs

  /** A run left for `target`, with the target in RAX and otherwise in state `t`. */
  predicate LeftFor(c: Control, target: U64, t: State) {
    c.Left? && c.rip == target && Get(c.s, RAX) == target && Agree(c.s, t)
  }

  /**
   The stub's run `c` takes the place of the block's run: it faults when the block does, and
   when the block runs through to `end`, it leaves for `resume` in the block's final state.
   */
  predicate Replaces(c: Control, block: Control, end: U64, resume: U64) {
    || (c.Fault? && block.Fault?)
    || (block.Left? && block.rip == end && LeftFor(c, resume, block.s))
  }

  /**
   The stub leaves as the block does, one exit for each of the block's two ways out: `resume` for
   `end`, `exit` for the branch target `taken`.
   */
  predicate Follows(c: Control, block: Control, end: U64, taken: U64, resume: U64, exit: U64) {
    || Replaces(c, block, end, resume)
    || (block.Left? && block.rip == taken && LeftFor(c, exit, block.s))
  }

  /** Stub and block fault together or leave for the same address in the same state. */
  predicate SameWay(c: Control, block: Control) {
    || (c.Fault? && block.Fault?)
    || (block.Left? && LeftFor(c, block.rip, block.s))
  }

  function End(block: Program, site: U64): U64 {
    Wrap(site + CodeLength(block))
  }

  /** The field at `a`, when mapped. */
  function Field(s: State, a: int, w: Width): (v: Option<U64>)
    ensures v.Some? ==> v.value < Modulus(w)
  {
    Pow256Values();
    if Mapped(s.mem, Wrap(a), Size(w)) then Some(Load(s.mem, Wrap(a), Size(w))) else None
  }

  /** The quadword at `a`, when mapped. */
  function Quad(s: State, a: int): Option<U64> {
    Field(s, a, W64)
  }

  /** Items `k` and `k + 1` jump to `target` through RAX. */
  predicate ExitAt(p: Program, k: nat, target: U64) {
    k + 1 < |p| && p[k] == Ins(Mov(W64, R(RAX), Imm(target)), Std) && p[k + 1] == Ins(JmpTo(R(RAX)), Std)
  }

  lemma Exits(p: Program, base: U64, k: nat, s: State, n: nat, target: U64, t: State)
    requires n >= 2 && ExitAt(p, k, target) && Agree(s, t)
    ensures LeftFor(ItemSteps(p, base, AtItem(k, s), n), target, t)
  {
    hide ItemSteps, Wrap, Agree;
    ExitTo(p, base, k, s, n, target);
    AgreeScratch(s, target, s.zf, s.cf);
    AgreeTransitive(SetReg(s, RAX, target), s, t);
  }

  lemma AgreeTransitive(s: State, t: State, u: State)
    requires Agree(s, t) && Agree(t, u)
    ensures Agree(s, u) && Agree(t, s)
  {
  }

  /** The rest of a block, copied into the stub and followed by the resume exit, replaces it. */
  lemma ResumesThrough(p: Program, base: U64, k: nat, s: State, n: nat,
                       q: Program, site: U64, j: nat, t: State, n': nat, resume: U64)
    requires j <= |q| && k + (|q| - j) <= |p| && p[k..k + (|q| - j)] == q[j..] && ObliviousBlock(q, j, |q| - j)
    requires Agree(s, t) && ExitAt(p, k + (|q| - j), resume)
    requires n >= |q| - j + 2 && n' > |q| - j
    ensures Replaces(ItemSteps(p, base, AtItem(k, s), n), ItemSteps(q, site, AtItem(j, t), n'), End(q, site), resume)
  {
    hide ItemSteps, Wrap, Agree, ObliviousBlock, Offset, CodeLength, LeftFor;
    var m: nat := |q| - j;
    assert q[j..j + m] == q[j..];
    BlockAgrees(p, base, k, s, q, site, j, t, m);
    ItemStepsCompose(p, base, AtItem(k, s), m, n - m);
    ItemStepsCompose(q, site, AtItem(j, t), m, n' - m);
    var c, d := ItemSteps(p, base, AtItem(k, s), m), ItemSteps(q, site, AtItem(j, t), m);
    if c.Fault? {
      StaysPut(p, base, Fault, n - m);
      StaysPut(q, site, Fault, n' - m);
    } else {
      FallOff(q, site, d.s, n' - m);
      Exits(p, base, k + m, c.s, n - m, resume, d.s);
    }
  }

  /* ---------- 59002d ---------- */

  /**
   A null or sentinel entry pointer leaves for the fallback with nothing changed; any other runs
   the displaced block and returns behind it.
   */
  lemma Guard59002d(base: U64, site: U64, s: State, a: U64, skip: U64, resume: U64, n: nat)
    requires n >= 11
    ensures var c := ItemSteps(Stub59002d(skip, resume), base, AtItem(0, SetReg(s, RAX, a)), n);
            if Get(s, RBX) == 0 || Get(s, RBX) == Get(s, R12) then LeftFor(c, skip, s)
            else Replaces(c, ItemSteps(Displaced59002d(), site, AtItem(0, s), n), End(Displaced59002d(), site), resume)
  {
    hide ItemSteps, Wrap, ItemStep, Agree, Exec, Encode, Offset, LeftFor, Replaces, End;
    var p, s0 := Stub59002d(skip, resume), SetReg(s, RAX, a);
    var s1 := TestSelf(p, base, 0, s0, n);
    Decide(p, base, 1, s1, n - 1);
    AgreeScratch(s, a, s1.zf, s1.cf);
    if Get(s, RBX) == 0 {
      Exits(p, base, 9, s1, n - 2, skip, s);
    } else {
      var s2 := Compare(p, base, 2, s1, n - 2, Get(s, RBX), Get(s, R12));
      Decide(p, base, 3, s2, n - 3);
      AgreeScratch(s, a, s2.zf, s2.cf);
      if Get(s, RBX) == Get(s, R12) {
        Exits(p, base, 9, s2, n - 4, skip, s);
      } else {
        ResumesThrough(p, base, 4, s2, n - 4, Displaced59002d(), site, 0, s, n, resume);
      }
    }
  }

  /* ---------- 2ab698 ---------- */

  lemma Listing2ab698(skip: U64, resume: U64)
    ensures var p, q := Stub2ab698(skip, resume), Displaced2ab698();
            && |p| == 12 && |q| == 6
            && p[0] == q[0] == Ins(Mov(W64, R(RSI), From(At(RDX, 8))), Alt)
            && p[1] == Ins(Alu(Test, W64, R(RSI), From(R(RSI))), Std)
            && p[2] == Branch(E, 10)
            && p[3..8] == q[1..] && ObliviousBlock(q, 1, 5)
            && ExitAt(p, 8, resume) && ExitAt(p, 10, skip)
  {
  }

  /** The manager pointer at [rdx+8] is loaded; when it is null only RSI has changed on the skip exit. */
  lemma Guard2ab698(base: U64, site: U64, s: State, a: U64, skip: U64, resume: U64, n: nat)
    requires n >= 13
    ensures var c := ItemSteps(Stub2ab698(skip, resume), base, AtItem(0, SetReg(s, RAX, a)), n);
            if Quad(s, Get(s, RDX) + 8) == Some(0) then LeftFor(c, skip, SetReg(s, RSI, 0))
            else Replaces(c, ItemSteps(Displaced2ab698(), site, AtItem(0, s), n), End(Displaced2ab698(), site), resume)
  {
    hide ItemSteps, Wrap, ItemStep, Agree, Exec, Encode, Offset, LeftFor, End, Mapped, Load, Stub2ab698, Displaced2ab698, ObliviousBlock, ExitAt;
    Listing2ab698(skip, resume);
    var p, q, s0 := Stub2ab698(skip, resume), Displaced2ab698(), SetReg(s, RAX, a);
    var manager := Quad(s, Get(s, RDX) + 8);
    if manager.None? {
      SetFaults(p, base, 0, s0, n);
      SetFaults(q, site, 0, s, n);
    } else {
      var s1 := Set(p, base, 0, s0, n, manager.value);
      var t1 := Set(q, site, 0, s, n, manager.value);
      var s2 := TestSelf(p, base, 1, s1, n - 1);
      Decide(p, base, 2, s2, n - 2);
      AgreeScratch(s, a, s2.zf, s2.cf);
      AgreeSet(SetReg(s, RAX, a).(zf := s2.zf, cf := s2.cf), s, RSI, manager.value);
      if manager.value == 0 {
        Exits(p, base, 10, s2, n - 3, skip, t1);
      } else {
        ResumesThrough(p, base, 3, s2, n - 3, q, site, 1, t1, n - 1, resume);
      }
    }
  }

  /* ---------- 590c58 ---------- */

  /** The master table's length field bounds the index in R10. */
  predicate IndexPastTable(s: State, table: U64) {
    var length := Quad(s, table + 0x10);
    length.Some? && length.value <= Get(s, R10)
  }

  /** The state with the table loaded and both sentinels set. */
  function WithSentinels(s: State, table: U64): State {
    SetReg(SetReg(SetReg(s, RDX, table), R8, 0xFFFF_FFFF), R9, 0xFFFF_FFFF)
  }

  lemma Listing590c58(skip: U64, resume: U64)
    ensures var p, q := Stub590c58(skip, resume), Displaced590c58();
            && |p| == 11 && |q| == 3
            && p[0] == q[0] == Ins(Mov(W64, R(RDX), From(At(RCX, 0x30D0))), Alt)
            && p[1] == Ins(Alu(Test, W64, R(RDX), From(R(RDX))), Std)
            && p[2] == Branch(E, 7)
            && p[3] == q[1] == Ins(Alu(Cmp, W64, R(R10), From(At(RDX, 0x10))), Alt)
            && p[4] == Branch(AE, 7) && q[2] == Ins(Jcc(AE, 0x0D), Alt)
            && ExitAt(p, 5, resume)
            && p[7] == Ins(Mov(W32, R(R8), Imm(0xFFFF_FFFF)), Std)
            && p[8] == Ins(Mov(W32, R(R9), Imm(0xFFFF_FFFF)), Std)
            && ExitAt(p, 9, skip)
  {
  }

  lemma Sentinels590c58(base: U64, s: State, n: nat, skip: U64, resume: U64, t: State)
    requires n >= 4 && Agree(s, t)
    ensures LeftFor(ItemSteps(Stub590c58(skip, resume), base, AtItem(7, s), n), skip,
              SetReg(SetReg(t, R8, 0xFFFF_FFFF), R9, 0xFFFF_FFFF))
  {
    hide ItemSteps, Wrap, ItemStep, Agree, Exec, Encode, Offset, LeftFor, Stub590c58, ExitAt;
    var p := Stub590c58(skip, resume);
    Listing590c58(skip, resume);
    Listing590c58Sentinels();
    var s1 := Set(p, base, 7, s, n, 0xFFFF_FFFF);
    AgreeSet(s, t, R8, 0xFFFF_FFFF);
    var s2 := Set(p, base, 8, s1, n - 1, 0xFFFF_FFFF);
    AgreeSet(s1, SetReg(t, R8, 0xFFFF_FFFF), R9, 0xFFFF_FFFF);
    Exits(p, base, 9, s2, n - 2, skip, SetReg(SetReg(t, R8, 0xFFFF_FFFF), R9, 0xFFFF_FFFF));
  }

  lemma Listing590c58Sentinels()
    ensures Immediate(W32, 0xFFFF_FFFF) == 0xFFFF_FFFF
  {
  }

  /**
   No master table, or an index past its length, continues with the -1 sentinels; otherwise the
   stub replaces the block. With a table, the sentinel exit is taken exactly when the block's own
   jump would be.
   */
  lemma Guard590c58(base: U64, site: U64, s: State, a: U64, skip: U64, resume: U64, n: nat)
    requires n >= 11
    ensures var c := ItemSteps(Stub590c58(skip, resume), base, AtItem(0, SetReg(s, RAX, a)), n);
            var block := ItemSteps(Displaced590c58(), site, AtItem(0, s), n);
            var table := Quad(s, Get(s, RCX) + 0x30D0);
            if table == Some(0) || (table.Some? && IndexPastTable(s, table.value))
            then
              && LeftFor(c, skip, WithSentinels(s, table.value))
              && (table != Some(0) ==> block.Left? && block.rip == Wrap(End(Displaced590c58(), site) + 0x0D))
            else Replaces(c, block, End(Displaced590c58(), site), resume)
  {
    hide ItemSteps, Wrap, ItemStep, Agree, Exec, Encode, Offset, LeftFor, Mapped, Load, Stub590c58, Displaced590c58, ExitAt;
    Listing590c58(skip, resume);
    var p, q, s0 := Stub590c58(skip, resume), Displaced590c58(), SetReg(s, RAX, a);
    var table := Quad(s, Get(s, RCX) + 0x30D0);
    if table.None? {
      SetFaults(p, base, 0, s0, n);
      SetFaults(q, site, 0, s, n);
    } else {
      var s1 := Set(p, base, 0, s0, n, table.value);
      var t1 := Set(q, site, 0, s, n, table.value);
      var s2 := TestSelf(p, base, 1, s1, n - 1);
      Decide(p, base, 2, s2, n - 2);
      AgreeScratch(s, a, s2.zf, s2.cf);
      AgreeSet(SetReg(s, RAX, a).(zf := s2.zf, cf := s2.cf), s, RDX, table.value);
      if table.value == 0 {
        Sentinels590c58(base, s2, n - 3, skip, resume, t1);
      } else {
        Indexed590c58(base, site, s2, t1, skip, resume, n);
      }
    }
  }

  lemma Indexed590c58(base: U64, site: U64, s: State, t: State, skip: U64, resume: U64, n: nat)
    requires n >= 11 && Agree(s, t)
    ensures var c := ItemSteps(Stub590c58(skip, resume), base, AtItem(3, s), n - 3);
            var block := ItemSteps(Displaced590c58(), site, AtItem(1, t), n - 1);
            if IndexPastTable(t, Get(t, RDX))
            then
              && LeftFor(c, skip, SetReg(SetReg(t, R8, 0xFFFF_FFFF), R9, 0xFFFF_FFFF))
              && block.Left? && block.rip == Wrap(End(Displaced590c58(), site) + 0x0D)
            else Replaces(c, block, End(Displaced590c58(), site), resume)
  {
    hide ItemSteps, Wrap, ItemStep, Agree, Exec, Encode, Offset, LeftFor, Mapped, Load, Stub590c58, Displaced590c58, ExitAt;
    Listing590c58(skip, resume);
    var p, q := Stub590c58(skip, resume), Displaced590c58();
    AgreeOn(s, t, R10);
    AgreeOn(s, t, RDX);
    var length := Quad(t, Get(t, RDX) + 0x10);
    if length.None? {
      AluFaults(p, base, 3, s, n - 3);
      AluFaults(q, site, 1, t, n - 1);
    } else {
      var s1 := Compare(p, base, 3, s, n - 3, Get(t, R10), length.value);
      var t1 := Compare(q, site, 1, t, n - 1, Get(t, R10), length.value);
      Decide(p, base, 4, s1, n - 4);
      DecideOut(q, site, 2, t1, n - 2);
      AgreeFlags(s, t, s1.zf, s1.cf);
      AgreeScratch(t, Get(t, RAX), t1.zf, t1.cf);
      assert SetReg(t, RAX, Get(t, RAX)) == t;
      AgreeTransitive(s1, t1, t);
      if IndexPastTable(t, Get(t, RDX)) {
        Sentinels590c58(base, s1, n - 5, skip, resume, t);
      } else {
        FallOff(q, site, t1, n - 3);
        Exits(p, base, 5, s1, n - 5, resume, t1);
      }
    }
  }

  /* ---------- 58fa83 ---------- */

  lemma Listing58fa83(skip: U64, resume: U64)
    ensures var p, q := Stub58fa83(skip, resume), Displaced58fa83();
            && |p| == 9 && |q| == 3
            && p[0] == q[0] == Ins(Mov(W64, R(RAX), From(At(RCX, 0x30D0))), Alt)
            && p[1] == Ins(Alu(Test, W64, R(RAX), From(R(RAX))), Std)
            && p[2] == Branch(E, 7)
            && p[3] == q[1] == Ins(Mov(W32, R(RDX), From(R(R13))), Alt)
            && p[4] == q[2] == Ins(Mov(W32, R(R12), From(At(RAX, 0))), Alt)
            && ExitAt(p, 5, resume) && ExitAt(p, 7, skip)
  {
  }

  /** No master table skips the enrichment loop with nothing changed; a table is read as before. */
  lemma Guard58fa83(base: U64, site: U64, s: State, a: U64, skip: U64, resume: U64, n: nat)
    requires n >= 9
    ensures var c := ItemSteps(Stub58fa83(skip, resume), base, AtItem(0, SetReg(s, RAX, a)), n);
            if Quad(s, Get(s, RCX) + 0x30D0) == Some(0) then LeftFor(c, skip, s)
            else Replaces(c, ItemSteps(Displaced58fa83(), site, AtItem(0, s), n), End(Displaced58fa83(), site), resume)
  {
    hide ItemSteps, Wrap, ItemStep, Agree, Exec, Encode, Offset, LeftFor, Mapped, Load, Stub58fa83, Displaced58fa83, ExitAt;
    Listing58fa83(skip, resume);
    var p, q, s0 := Stub58fa83(skip, resume), Displaced58fa83(), SetReg(s, RAX, a);
    var table := Quad(s, Get(s, RCX) + 0x30D0);
    if table.None? {
      SetFaults(p, base, 0, s0, n);
      SetFaults(q, site, 0, s, n);
    } else {
      var s1 := Set(p, base, 0, s0, n, table.value);
      var t1 := Set(q, site, 0, s, n, table.value);
      assert s1 == t1;
      var s2 := TestSelf(p, base, 1, s1, n - 1);
      Decide(p, base, 2, s2, n - 2);
      AgreeScratch(s, table.value, s2.zf, s2.cf);
      if table.value == 0 {
        Exits(p, base, 7, s2, n - 3, skip, s);
      } else {
        Loads58fa83(base, site, s2, t1, skip, resume, n);
      }
    }
  }

  lemma Loads58fa83(base: U64, site: U64, s: State, t: State, skip: U64, resume: U64, n: nat)
    requires n >= 9 && s == t.(zf := s.zf, cf := s.cf)
    ensures Replaces(ItemSteps(Stub58fa83(skip, resume), base, AtItem(3, s), n - 3),
              ItemSteps(Displaced58fa83(), site, AtItem(1, t), n - 1), End(Displaced58fa83(), site), resume)
  {
    hide ItemSteps, Wrap, ItemStep, Exec, Encode, Offset, LeftFor, Mapped, Load, Stub58fa83, Displaced58fa83, ExitAt;
    Listing58fa83(skip, resume);
    var p, q := Stub58fa83(skip, resume), Displaced58fa83();
    var s1 := Set(p, base, 3, s, n - 3, Truncate(W32, Get(t, R13)));
    var t1 := Set(q, site, 1, t, n - 1, Truncate(W32, Get(t, R13)));
    var word := Read(t1, W32, At(RAX, 0));
    if word.None? {
      SetFaults(p, base, 4, s1, n - 4);
      SetFaults(q, site, 2, t1, n - 2);
    } else {
      var s2 := Set(p, base, 4, s1, n - 4, word.value);
      var t2 := Set(q, site, 2, t1, n - 2, word.value);
      FallOff(q, site, t2, n - 3);
      Exits(p, base, 5, s2, n - 5, resume, t2);
    }
  }
}
