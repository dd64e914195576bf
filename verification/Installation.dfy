/**
 From a patched site to a stub's exit, byte by byte: the site holds `mov rax, trampoline; jmp
 rax` padded with nops, the trampoline holds the assembled stub, and the machine fetches and
 decodes both from the memory it also runs in.
 */
module Installation {
  import opened Wrappers
  import opened Words
  import opened ProcessMemory
  import opened Machine
  import opened InstructionEncoding
  import opened JumpEncoders
  import opened Programs
  import opened StepRules
  import opened OneMemory
  import opened Agreement
  import opened Guards

  /** The first twelve bytes of a patched site, as a program. */
  function SiteJump(trampoline: U64): Program {
    [Ins(Mov(W64, R(RAX), Imm(trampoline)), Std), Ins(JmpTo(R(RAX)), Std)]
  }

  lemma SiteJumpBytes(trampoline: U64, size: nat)
    requires size >= 12
    ensures WellFormed(SiteJump(trampoline)) && EncodeAbsoluteJump(trampoline, Some(size)).Ok?
    ensures Assemble(SiteJump(trampoline)) <= EncodeAbsoluteJump(trampoline, Some(size)).value
    ensures |EncodeAbsoluteJump(trampoline, Some(size)).value| == size
  {
    hide Encode, LittleEndian;
    MovRaxBytes(trampoline);
    JmpRaxBytes();
    var p := SiteJump(trampoline);
    CodeLengthBound(p);
    assert Layout(p, 1) == [0x48, 0xB8] + LittleEndian(trampoline, 8);
    assert Layout(p, 2) == [0x48, 0xB8] + LittleEndian(trampoline, 8) + [0xFF, 0xE0];
  }

  /** The stub at `trampoline`, and the jump to it at `site`, are in code memory. */
  ghost predicate Installed(code: Memory, p: Program, trampoline: U64, site: U64, size: nat)
    requires WellFormed(p)
  {
    && size >= 12
    && HoldsCode(code, trampoline, Assemble(p))
    && EncodeAbsoluteJump(trampoline, Some(size)).Ok?
    && HoldsCode(code, site, EncodeAbsoluteJump(trampoline, Some(size)).value)
  }

  lemma HoldsPrefix(m: Memory, a: U64, bytes: seq<Byte>, prefix: seq<Byte>)
    requires HoldsCode(m, a, bytes) && prefix <= bytes
    ensures HoldsCode(m, a, prefix)
  {
    CodeSlice(m, a, bytes, 0, |prefix|);
  }

  /** Running the patched site brings control to the trampoline, with its address in RAX. */
  lemma SiteReachesTrampoline(p: Program, trampoline: U64, site: U64, size: nat, s: State, code: Memory)
    requires WellFormed(p) && Installed(code, p, trampoline, site, size) && s.mem.Keys !! code.Keys
    ensures Reaches(Running(site, Extend(s, code)), Running(trampoline, Extend(SetReg(s, RAX, trampoline), code)))
  {
    hide ItemSteps, ItemStep, WellFormed, HoldsCode, Assemble, EncodeAbsoluteJump, Reaches, ByteSteps, Extend;
    SiteJumpBytes(trampoline, size);
    HoldsPrefix(code, site, EncodeAbsoluteJump(trampoline, Some(size)).value, Assemble(SiteJump(trampoline)));
    ExitTo(SiteJump(trampoline), site, 0, s, 2, trampoline);
    Refinement(SiteJump(trampoline), site, 0, s, code, 2);
  }

  /**
   End to end, for every stub and state: if the stub's items, started from the site's state with
   the trampoline address in RAX, leave for an address, the byte machine started at the patched
   site reaches that address with the same registers and data, its code untouched.
   */
  lemma InstalledRun(p: Program, trampoline: U64, site: U64, size: nat, s: State, code: Memory, n: nat)
    requires WellFormed(p) && Installed(code, p, trampoline, site, size) && s.mem.Keys !! code.Keys
    requires ItemSteps(p, trampoline, AtItem(0, SetReg(s, RAX, trampoline)), n).Left?
    ensures var end := ItemSteps(p, trampoline, AtItem(0, SetReg(s, RAX, trampoline)), n);
            Reaches(Running(site, Extend(s, code)), Running(end.rip, Extend(end.s, code)))
  {
    hide ItemSteps, ItemStep, WellFormed, HoldsCode, Assemble, EncodeAbsoluteJump, Reaches, ByteSteps, Extend;
    var s0 := SetReg(s, RAX, trampoline);
    SiteReachesTrampoline(p, trampoline, site, size, s, code);
    Refinement(p, trampoline, 0, s0, code, n);
    var end := ItemSteps(p, trampoline, AtItem(0, s0), n);
    ReachesTransitive(Running(site, Extend(s, code)), Running(trampoline, Extend(s0, code)), Running(end.rip, Extend(end.s, code)));
  }

  /** A stub that faults away from the code makes the machine fault, run into the patched site. */
  lemma InstalledFaults(p: Program, trampoline: U64, site: U64, size: nat, s: State, code: Memory, n: nat)
    requires WellFormed(p) && Installed(code, p, trampoline, site, size) && s.mem.Keys !! code.Keys
    requires FaultsClear(p, trampoline, AtItem(0, SetReg(s, RAX, trampoline)), code, n)
    ensures Reaches(Running(site, Extend(s, code)), Faulted)
  {
    hide ItemSteps, ItemStep, WellFormed, HoldsCode, Assemble, EncodeAbsoluteJump, Reaches, ByteSteps, Extend, FaultsClear;
    var s0 := SetReg(s, RAX, trampoline);
    SiteReachesTrampoline(p, trampoline, site, size, s, code);
    FaultRefinement(p, trampoline, 0, s0, code, n);
    ReachesTransitive(Running(site, Extend(s, code)), Running(trampoline, Extend(s0, code)), Faulted);
  }

  /** The machine, started at the site, reaches `target` with the target in RAX and otherwise in state `t`. */
  ghost predicate Arrives(site: U64, s: State, code: Memory, target: U64, t: State) {
    exists u :: Agree(u, t) && Get(u, RAX) == target
                && Reaches(Running(site, Extend(s, code)), Running(target, Extend(u, code)))
  }

  /** A guard theorem's exit, carried over to the bytes; the outcome does not depend on the site's RAX. */
  lemma InstalledLeaves(p: Program, trampoline: U64, site: U64, size: nat, s: State, code: Memory, n: nat,
                        target: U64, t: State, v: U64)
    requires WellFormed(p) && Installed(code, p, trampoline, site, size) && s.mem.Keys !! code.Keys
    requires LeftFor(ItemSteps(p, trampoline, AtItem(0, SetReg(s, RAX, trampoline)), n), target, t)
    ensures Arrives(site, SetReg(s, RAX, v), code, target, t)
  {
    hide ItemSteps, ItemStep, WellFormed, Installed, Reaches, Agree, Extend;
    var s1 := SetReg(s, RAX, v);
    assert SetReg(s1, RAX, trampoline) == SetReg(s, RAX, trampoline);
    InstalledRun(p, trampoline, site, size, s1, code, n);
    var end := ItemSteps(p, trampoline, AtItem(0, SetReg(s, RAX, trampoline)), n);
    assert Agree(end.s, t) && Get(end.s, RAX) == target;
  }

  /** A guard that replaces its block does so in place: the machine arrives behind the block in the block's final state. */
  lemma InstalledReplaces(p: Program, trampoline: U64, site: U64, size: nat, s: State, code: Memory, n: nat,
                          block: Control, resume: U64, v: U64)
    requires WellFormed(p) && Installed(code, p, trampoline, site, size) && s.mem.Keys !! code.Keys
    requires block.Left?
    requires Replaces(ItemSteps(p, trampoline, AtItem(0, SetReg(s, RAX, trampoline)), n), block, resume, resume)
    ensures Arrives(site, SetReg(s, RAX, v), code, resume, block.s)
  {
    hide ItemSteps, ItemStep, WellFormed, Installed, Arrives, LeftFor;
    InstalledLeaves(p, trampoline, site, size, s, code, n, resume, block.s, v);
  }

  /* ---------- every exit carries its own address ---------- */

  /** A jump through RAX behind the load of its target. */
  predicate JumpOfExit(p: Program, k: nat)
    requires k < |p|
  {
    && p[k] == Ins(JmpTo(R(RAX)), Std) && k > 0
    && p[k - 1].Ins? && p[k - 1].form == Std && p[k - 1].instr.Mov? && p[k - 1].instr.w == W64 && p[k - 1].instr.dst == R(RAX)
    && p[k - 1].instr.src.Imm? && 0 <= p[k - 1].instr.src.v < 0x1_0000_0000_0000_0000
  }

  predicate ExitTarget(p: Program, target: U64) {
    exists k: nat :: k + 1 < |p| && ExitAt(p, k, target)
  }

  predicate ExitsOnly(p: Program, k: nat)
    requires k < |p|
  {
    match p[k]
    case Branch(_, target) => k + 1 < |p| && target < |p| && !(p[target].Ins? && p[target].instr.JmpTo?)
    case Ins(i, _) =>
      if i.JmpTo? then JumpOfExit(p, k) else !i.Jmp? && !i.Jcc? && k + 1 < |p|
  }

  /** The program can be left only through `mov rax, target; jmp rax`, entered at the load. */
  predicate LeavesThroughExits(p: Program) {
    && |p| > 0 && !(p[0].Ins? && p[0].instr.JmpTo?)
    && forall k: nat :: k < |p| ==> ExitsOnly(p, k)
  }

  predicate JumpAhead(p: Program, k: nat)
    requires k < |p|
  {
    p[k].Ins? && p[k].instr.JmpTo?
  }

  /** What holds of control whenever it is at an item. */
  predicate ExitReady(p: Program, c: Control) {
    match c
    case Fault => true
    case AtItem(k, s) => k < |p| && (JumpAhead(p, k) ==> k > 0 && p[k - 1] == Ins(Mov(W64, R(RAX), Imm(Get(s, RAX))), Std))
    case Left(rip, s) => Get(s, RAX) == rip && ExitTarget(p, rip)
  }

  lemma ExecSetsRax(i: Instr, next: U64, s: State)
    requires i.Mov? && i.w == W64 && i.dst == R(RAX) && i.src.Imm? && 0 <= i.src.v < 0x1_0000_0000_0000_0000
    ensures Exec(i, next, s) == Running(next, SetReg(s, RAX, i.src.v))
  {
    Pow256Values();
  }

  lemma ItemStepKeepsReady(p: Program, base: U64, c: Control)
    requires LeavesThroughExits(p) && ExitReady(p, c)
    ensures ExitReady(p, ItemStep(p, base, c))
  {
    hide Exec, Offset, Wrap;
    if c.AtItem? {
      var k, s := c.k, c.s;
      assert ExitsOnly(p, k);
      if p[k].Ins? {
        var next := Wrap(base + Offset(p, k + 1));
        if p[k].instr.JmpTo? {
          JumpsThroughRax(next, s);
          assert ExitAt(p, k - 1, Get(s, RAX));
        } else if k + 1 < |p| && JumpAhead(p, k + 1) {
          assert ExitsOnly(p, k + 1);
          ExecSetsRax(p[k].instr, next, s);
        }
      } else {
        assert ExitsOnly(p, k + 1);
      }
    }
  }

  lemma JumpsThroughRax(next: U64, s: State)
    ensures Exec(JmpTo(R(RAX)), next, s) == Running(Get(s, RAX), s)
  {
  }

  /** Over every run of such a program: wherever it leaves, RAX holds the address it left for, which is one of its exits. */
  lemma {:induction false} ExitsCarryTarget(p: Program, base: U64, c: Control, n: nat)
    requires LeavesThroughExits(p) && ExitReady(p, c)
    ensures ExitReady(p, ItemSteps(p, base, c, n))
    decreases n
  {
    hide ItemStep, Exec, LeavesThroughExits, ExitReady;
    if n > 0 {
      ItemStepKeepsReady(p, base, c);
      ExitsCarryTarget(p, base, ItemStep(p, base, c), n - 1);
    }
  }
}
