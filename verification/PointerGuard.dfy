/**
 The world-metadata guard 3699b2: two pointers are followed only when each is at least 64 KiB
 and canonical, which the stub decides by shifting the upper 16 bits out and back in.
 */
module PointerGuard {
  import opened Words
  import opened ProcessMemory
  import opened Machine
  import opened InstructionEncoding
  import opened Programs
  import opened Spelling
  import opened StepRules
  import opened Agreement
  import opened Stubs
  import opened Guards

  /** Bits 63 to 47 are equal: an address in canonical form. */
  predicate Canonical(x: U64) {
    x < 0x8000_0000_0000 || x >= 0xFFFF_8000_0000_0000
  }

  predicate Plausible(x: U64) {
    x >= 0x1_0000 && Canonical(x)
  }

  /** `shl 16` keeps the low 48 bits, moved up. */
  lemma ShiftedUp(x: U64)
    ensures ShiftResult(Shl, W64, x, 16) == 0x1_0000 * (x % 0x1_0000_0000_0000)
  {
    Pow2Values();
    var low, high := x % 0x1_0000_0000_0000, x / 0x1_0000_0000_0000;
    assert x * 0x1_0000 == low * 0x1_0000 + high * 0x1_0000_0000_0000_0000;
  }

  /** `sar 16` fills the upper 16 bits with the sign. */
  lemma ShiftedDown(low: nat)
    requires low < 0x1_0000_0000_0000
    ensures ShiftResult(Sar, W64, 0x1_0000 * low, 16)
            == if low < 0x8000_0000_0000 then low else low + 0xFFFF_0000_0000_0000
  {
    Pow2Values();
    if low >= 0x8000_0000_0000 {
      assert Signed(0x1_0000 * low, 0x1_0000_0000_0000_0000) == 0x1_0000 * (low - 0x1_0000_0000_0000);
    }
  }

  /** Shifting left and arithmetically right by 16 gives the value back exactly for canonical ones. */
  lemma ShiftsDetectCanonical(x: U64)
    ensures ShiftResult(Sar, W64, ShiftResult(Shl, W64, x, 16), 16) == x <==> Canonical(x)
  {
    hide ShiftResult;
    ShiftedUp(x);
    ShiftedDown(x % 0x1_0000_0000_0000);
  }

  /** Items `k` to `k + 8` send control to `bad` unless register `r` is a plausible address. */
  predicate CheckAt(p: Program, k: nat, r: Reg, bad: nat) {
    && k + 9 <= |p|
    && p[k] == Ins(Alu(Test, W64, R(r), From(R(r))), Std)
    && p[k + 1] == Branch(E, bad)
    && p[k + 2] == Ins(Alu(Cmp, W64, R(r), Imm(0x1_0000)), Std)
    && p[k + 3] == Branch(B, bad)
    && p[k + 4] == Ins(Mov(W64, R(RAX), From(R(r))), Std)
    && p[k + 5] == Ins(Shift(Shl, W64, R(RAX), 0x10), Std)
    && p[k + 6] == Ins(Shift(Sar, W64, R(RAX), 0x10), Std)
    && p[k + 7] == Ins(Alu(Cmp, W64, R(RAX), From(R(r))), Std)
    && p[k + 8] == Branch(NE, bad)
  }

  lemma SmallImmediate()
    ensures Immediate(W64, 0x1_0000) == 0x1_0000
  {
  }

  /** The check disturbs RAX and the flags only. */
  lemma Checked(p: Program, base: U64, k: nat, s: State, n: nat, r: Reg, bad: nat) returns (t: State, m: nat)
    requires n >= 9 && CheckAt(p, k, r, bad) && r != RAX
    ensures m <= 9 && Agree(t, s)
    ensures ItemSteps(p, base, AtItem(k, s), n)
            == ItemSteps(p, base, AtItem(if Plausible(Get(s, r)) then k + 9 else bad, t), n - m)
  {
    hide ItemSteps, Wrap, ItemStep, Exec, Encode, Offset, Mapped, Load, Immediate, Canonical, ShiftResult, ShiftCarry, Code;
    SmallImmediate();
    var x := Get(s, r);
    var s1 := TestSelf(p, base, k, s, n);
    Decide(p, base, k + 1, s1, n - 1);
    if x == 0 {
      t, m := s1, 2;
    } else {
      var s2 := Compare(p, base, k + 2, s1, n - 2, x, 0x1_0000);
      Decide(p, base, k + 3, s2, n - 3);
      if x < 0x1_0000 {
        t, m := s2, 4;
      } else {
        t := Folded(p, base, k + 4, s2, n - 4, r, bad);
        m := 9;
      }
    }
  }

  lemma Folded(p: Program, base: U64, k: nat, s: State, n: nat, r: Reg, bad: nat) returns (t: State)
    requires n >= 5 && k >= 4 && CheckAt(p, k - 4, r, bad) && r != RAX
    ensures Agree(t, s)
    ensures ItemSteps(p, base, AtItem(k, s), n)
            == ItemSteps(p, base, AtItem(if Canonical(Get(s, r)) then k + 5 else bad, t), n - 5)
  {
    hide ItemSteps, Wrap, ItemStep, Exec, Encode, Offset, Mapped, Load, Canonical, ShiftResult, ShiftCarry;
    var x := Get(s, r);
    ShiftsDetectCanonical(x);
    var up := ShiftResult(Shl, W64, x, 16);
    var back := ShiftResult(Sar, W64, up, 16);
    var s1 := Set(p, base, k, s, n, x);
    AgreeScratch(s, x, s.zf, s.cf);
    var s2 := ShiftBy(p, base, k + 1, s1, n - 1);
    AgreeScratch(s1, up, s2.zf, s2.cf);
    var s3 := ShiftBy(p, base, k + 2, s2, n - 2);
    AgreeScratch(s2, back, s3.zf, s3.cf);
    AgreeTransitive(s2, s1, s);
    AgreeTransitive(s3, s2, s);
    AgreeOn(s3, s, r);
    t := Compare(p, base, k + 3, s3, n - 3, back, x);
    AgreeFlags(s3, s3, t.zf, t.cf);
    AgreeScratch(s3, Get(s3, RAX), t.zf, t.cf);
    assert SetReg(s3, RAX, Get(s3, RAX)) == s3;
    AgreeTransitive(t, s3, s);
    Decide(p, base, k + 4, t, n - 4);
  }

  lemma Listing3699b2(skip: U64, resume: U64)
    ensures var p, q := Stub3699b2(skip, resume), Displaced3699b2();
            && |p| == 29 && |q| == 5
            && p[0] == q[0] == Ins(Mov(W64, R(R10), From(At(RCX, 0))), Alt)
            && p[1] == q[1] == Ins(Mov(W32, At(RCX, 0x0C), From(R(R8))), Std)
            && CheckAt(p, 2, R10, 25)
            && p[11] == q[2] == Ins(Mov(W64, R(RBX), From(At(R10, 0x18))), Alt)
            && CheckAt(p, 12, RBX, 25)
            && p[21] == q[3] && p[22] == q[4] && ObliviousBlock(q, 3, 2)
            && ExitAt(p, 23, resume)
            && p[25] == Ins(Alu(Xor, W32, R(RAX), From(R(RAX))), Std)
            && p[26] == Ins(Mov(W32, At(RCX, 0x10), From(R(RAX))), Std)
            && ExitAt(p, 27, skip)
  {
  }

  /** The metadata word at [rcx+0x10] is zeroed and control leaves for the skip exit; the store itself may fault. */
  predicate Refuses(c: Control, skip: U64, t: State) {
    var a := Wrap(Get(t, RCX) + 0x10);
    if Mapped(t.mem, a, 4) then LeftFor(c, skip, t.(mem := Store(t.mem, a, 4, 0))) else c.Fault?
  }

  lemma Refused(base: U64, s: State, n: nat, skip: U64, resume: U64, t: State)
    requires n >= 4 && Agree(s, t)
    ensures Refuses(ItemSteps(Stub3699b2(skip, resume), base, AtItem(25, s), n), skip, t)
  {
    hide ItemSteps, Wrap, ItemStep, Agree, Exec, Encode, Offset, LeftFor, Stub3699b2, ExitAt, Mapped, Store;
    var p := Stub3699b2(skip, resume);
    Listing3699b2(skip, resume);
    var s1 := Clear(p, base, 25, s, n);
    AgreeScratch(s, 0, true, false);
    AgreeTransitive(s1, s, t);
    AgreeOn(s1, t, RCX);
    var a := Wrap(Get(t, RCX) + 0x10);
    if Mapped(t.mem, a, 4) {
      var s2 := Put(p, base, 26, s1, n - 1, 0);
      AgreeMemory(s1, t, s2.mem);
      Exits(p, base, 27, s2, n - 2, skip, t.(mem := Store(t.mem, a, 4, 0)));
    } else {
      PutFaults(p, base, 26, s1, n - 1);
    }
  }

  /** The state once the base pointer is loaded and the incoming count stored. */
  function Loaded(s: State, pointer: U64): State
    requires Mapped(s.mem, Wrap(Get(s, RCX) + 0x0C), 4)
  {
    SetReg(s, R10, pointer).(mem := Store(s.mem, Wrap(Get(s, RCX) + 0x0C), 4, Truncate(W32, Get(s, R8))))
  }

  /**
   The resume exit is reached exactly when both the base and the metadata pointer behind it are
   plausible addresses; an implausible one is never followed. In every case the stub and the
   block fault together until the point where the stub refuses.
   */
  lemma Guard3699b2(base: U64, site: U64, s: State, a: U64, skip: U64, resume: U64, n: nat)
    requires n >= 27
    ensures var c := ItemSteps(Stub3699b2(skip, resume), base, AtItem(0, SetReg(s, RAX, a)), n);
            var block := ItemSteps(Displaced3699b2(), site, AtItem(0, s), n);
            var pointer := Quad(s, Get(s, RCX));
            if pointer.None? || !Mapped(s.mem, Wrap(Get(s, RCX) + 0x0C), 4) then c.Fault? && block.Fault?
            else
              var t := Loaded(s, pointer.value);
              if !Plausible(pointer.value) then Refuses(c, skip, t)
              else
                var metadata := Quad(t, pointer.value + 0x18);
                if metadata.None? then c.Fault? && block.Fault?
                else if !Plausible(metadata.value) then Refuses(c, skip, SetReg(t, RBX, metadata.value))
                else block.Left? && Replaces(c, block, End(Displaced3699b2(), site), resume)
  {
    hide ItemSteps, Wrap, ItemStep, Agree, Exec, Encode, Offset, LeftFor, Stub3699b2, Displaced3699b2, ExitAt, Mapped, Load, Store,
      CheckAt, ObliviousBlock, Plausible, Refuses, Replaces, End;
    Listing3699b2(skip, resume);
    var p, q, s0 := Stub3699b2(skip, resume), Displaced3699b2(), SetReg(s, RAX, a);
    AgreeScratch(s, a, s.zf, s.cf);
    assert s0 == SetReg(s, RAX, a).(zf := s.zf, cf := s.cf);
    var pointer := Quad(s, Get(s, RCX));
    if pointer.None? {
      SetFaults(p, base, 0, s0, n);
      SetFaults(q, site, 0, s, n);
    } else {
      var s1 := Set(p, base, 0, s0, n, pointer.value);
      var t1 := Set(q, site, 0, s, n, pointer.value);
      AgreeSet(s0, s, R10, pointer.value);
      if !Mapped(s.mem, Wrap(Get(s, RCX) + 0x0C), 4) {
        PutFaults(p, base, 1, s1, n - 1);
        PutFaults(q, site, 1, t1, n - 1);
      } else {
        var s2 := Put(p, base, 1, s1, n - 1, Truncate(W32, Get(s, R8)));
        var t2 := Put(q, site, 1, t1, n - 1, Truncate(W32, Get(s, R8)));
        AgreeMemory(s1, t1, t2.mem);
        CheckBase(base, site, s2, t2, skip, resume, n - 2);
      }
    }
  }

  lemma CheckBase(base: U64, site: U64, s: State, t: State, skip: U64, resume: U64, n: nat)
    requires n >= 25 && Agree(s, t)
    ensures var c := ItemSteps(Stub3699b2(skip, resume), base, AtItem(2, s), n);
            var block := ItemSteps(Displaced3699b2(), site, AtItem(2, t), n);
            if !Plausible(Get(t, R10)) then Refuses(c, skip, t)
            else
              var metadata := Quad(t, Get(t, R10) + 0x18);
              if metadata.None? then c.Fault? && block.Fault?
              else if !Plausible(metadata.value) then Refuses(c, skip, SetReg(t, RBX, metadata.value))
              else block.Left? && Replaces(c, block, End(Displaced3699b2(), site), resume)
  {
    hide ItemSteps, Wrap, ItemStep, Agree, Exec, Encode, Offset, LeftFor, Stub3699b2, Displaced3699b2, ExitAt, Mapped, Load, Store,
      CheckAt, ObliviousBlock, Plausible, Refuses, Replaces, End;
    Listing3699b2(skip, resume);
    var p, q := Stub3699b2(skip, resume), Displaced3699b2();
    AgreeOn(s, t, R10);
    var s1, m := Checked(p, base, 2, s, n, R10, 25);
    AgreeTransitive(s1, s, t);
    if !Plausible(Get(t, R10)) {
      Refused(base, s1, n - m, skip, resume, t);
    } else {
      AgreeOn(s1, t, R10);
      var metadata := Quad(t, Get(t, R10) + 0x18);
      if metadata.None? {
        SetFaults(p, base, 11, s1, n - m);
        SetFaults(q, site, 2, t, n);
      } else {
        var s2 := Set(p, base, 11, s1, n - m, metadata.value);
        var t2 := Set(q, site, 2, t, n, metadata.value);
        AgreeSet(s1, t, RBX, metadata.value);
        CheckMetadata(base, site, s2, t2, skip, resume, n - m - 1, n - 1);
      }
    }
  }

  lemma CheckMetadata(base: U64, site: U64, s: State, t: State, skip: U64, resume: U64, n: nat, n': nat)
    requires n >= 13 && n' >= 3 && Agree(s, t)
    ensures var c := ItemSteps(Stub3699b2(skip, resume), base, AtItem(12, s), n);
            var block := ItemSteps(Displaced3699b2(), site, AtItem(3, t), n');
            if !Plausible(Get(t, RBX)) then Refuses(c, skip, t)
            else block.Left? && Replaces(c, block, End(Displaced3699b2(), site), resume)
  {
    hide ItemSteps, Wrap, ItemStep, Agree, Exec, Encode, Offset, LeftFor, Stub3699b2, Displaced3699b2, ExitAt, Mapped, Load, Store,
      CheckAt, ObliviousBlock, Plausible, Refuses, End;
    Listing3699b2(skip, resume);
    var p, q := Stub3699b2(skip, resume), Displaced3699b2();
    AgreeOn(s, t, RBX);
    var s1, m := Checked(p, base, 12, s, n, RBX, 25);
    AgreeTransitive(s1, s, t);
    if !Plausible(Get(t, RBX)) {
      Refused(base, s1, n - m, skip, resume, t);
    } else {
      assert p[21..23] == [p[21], p[22]] == q[3..];
      ResumesThrough(p, base, 21, s1, n - m, q, site, 3, t, n', resume);
      Cleared(site, t, n');
    }
  }

  /** The end of the block, which only zeroes registers, always runs through. */
  lemma Cleared(site: U64, t: State, n: nat)
    requires n >= 3
    ensures ItemSteps(Displaced3699b2(), site, AtItem(3, t), n).Left?
  {
    hide ItemSteps, Wrap, ItemStep, Exec, Encode, Offset, Mapped, Load, Store;
    var q := Displaced3699b2();
    var t1 := Clear(q, site, 3, t, n);
    var t2 := Set(q, site, 4, t1, n - 1, Truncate(W32, Get(t1, RCX)));
    FallOff(q, site, t2, n - 2);
  }
}
