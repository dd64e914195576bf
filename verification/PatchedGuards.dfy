/**
 The same two guards from the pass that installs them to the exit they take, and one concrete
 client in which patching turns a lookup that succeeds into a fault.
 */
module PatchedGuards {
  import opened Wrappers
  import opened Words
  import opened ProcessMemory
  import opened Machine
  import opened InstructionEncoding
  import opened JumpEncoders
  import opened Programs
  import opened OneMemory
  import opened Agreement
  import opened Stubs
  import opened StubDrafts
  import opened StubBuilders
  import opened GuardedSites
  import opened GuardTable
  import opened Guards
  import opened CompareGuard
  import opened MirrorGuard
  import opened OtherGuards
  import opened Installation
  import opened PatchPasses
  import opened PatchProcess
  import opened PatchedImage
  import opened InstalledGuards

  lemma Length590de8()
    ensures CodeLength(Displaced590de8()) == 33
  {
    hide WellFormed, Assemble, CodeLength, Displaced590de8;
    Expected590de8();
    assert |EXPECTED_590DE8| == 33;
  }

  /** The block's two ways out are the exits that the table gives the stub; so for two other guards below. */
  lemma TableExits590de8(imageBase: int)
    ensures var spec := SpecOf(Guard590de8);
            var site := Wrap(imageBase + spec.source);
            End(Displaced590de8(), site) == Wrap(imageBase + spec.resume) && Failure590de8(site) == Wrap(imageBase + spec.target)
  {
    hide Wrap, CodeLength, Displaced590de8;
    Length590de8();
    WrapAdd(imageBase + 0x59_0DE8, 33);
    WrapAdd(imageBase + 0x59_0E09, 0xBD);
  }

  lemma Length5902d5()
    ensures CodeLength(Displaced5902d5()) == 13
  {
    hide WellFormed, Assemble, CodeLength, Displaced5902d5;
    Expected5902d5();
    assert |EXPECTED_5902D5| == 13;
  }

  lemma TableExits5902d5(imageBase: int)
    ensures var spec := SpecOf(Guard5902d5);
            var site := Wrap(imageBase + spec.source);
            End(Displaced5902d5(), site) == Wrap(imageBase + spec.resume) && FastPath5902d5(site) == Wrap(imageBase + spec.target)
  {
    hide Wrap, CodeLength, Displaced5902d5;
    Length5902d5();
    WrapAdd(imageBase + 0x59_02D5, 13);
    WrapAdd(imageBase + 0x59_02D5, 0xE8);
  }

  lemma Length59c2a0()
    ensures CodeLength(Displaced59c2a0()) == 14
  {
    hide WellFormed, Assemble, CodeLength, Displaced59c2a0;
    Expected59c2a0();
    assert |EXPECTED_59C2A0| == 14;
  }

  lemma TableExits59c2a0(imageBase: int)
    ensures var spec := SpecOf(MirrorCompare59c2a0);
            var site := Wrap(imageBase + spec.source);
            End(Displaced59c2a0(), site) == Wrap(imageBase + spec.resume) && Taken59c2a0(site) == Wrap(imageBase + spec.target)
  {
    hide Wrap, CodeLength, Displaced59c2a0;
    Length59c2a0();
    WrapAdd(imageBase + 0x59_C2A0, 14);
    WrapAdd(imageBase + 0x59_C2AE, 0x3A1);
  }

  /** After a pass, a matched guard is installed in process memory. */
  lemma PassInstalls(m: Memory, rs: seq<Request>, r: Request)
    requires PairwiseApart(rs) && AllApplicable(m, rs) && r in rs && r.Guarded? && Matches(m, r)
    ensures 0 <= r.address < 0x1_0000_0000_0000_0000 && r.allocation.Some?
    ensures var p := StubOf(r.builder, Wrap(r.target), Wrap(r.resume));
            WellFormed(p) && Installed(Pass(m, rs).memory, p, r.allocation.value, r.address, |r.bytes|)
  {
    hide Pass, Writes, PairwiseApart, Applicable, Matches, WellFormed, StubOf, HoldsCode, EncodeAbsoluteJump, Assemble;
    assert Applicable(m, r);
    GuardInstalls(m, r);
    CodeAndData(m, rs, r);
    var m', code, p := Pass(m, rs).memory, Writes(m, r), StubOf(r.builder, Wrap(r.target), Wrap(r.resume));
    HoldsCodeExtends(m' - code.Keys, code, r.allocation.value, Assemble(p));
    HoldsCodeExtends(m' - code.Keys, code, r.address, EncodeAbsoluteJump(r.allocation.value, Some(|r.bytes|)).value);
  }

  /**
   After any pass that matched a guard, on the whole of process memory: wherever the stub's items
   go, the fault included, the machine run into the site goes, provided no item of the stub has
   been overwritten when control gets to it.
   */
  lemma PatchedRunsInPlace(m: Memory, rs: seq<Request>, r: Request, s: State, n: nat)
    requires PairwiseApart(rs) && AllApplicable(m, rs) && r in rs && r.Guarded? && Matches(m, r)
    requires s.mem == Pass(m, rs).memory && r.allocation.Some? && 0 <= r.address < 0x1_0000_0000_0000_0000
    requires var p := StubOf(r.builder, Wrap(r.target), Wrap(r.resume));
             WellFormed(p) && IntactThroughout(p, r.allocation.value, AtItem(0, SetReg(s, RAX, r.allocation.value)), n)
    ensures var p := StubOf(r.builder, Wrap(r.target), Wrap(r.resume));
            var end := ItemSteps(p, r.allocation.value, AtItem(0, SetReg(s, RAX, r.allocation.value)), n);
            && (end.Left? ==> Reaches(Running(r.address, s), Running(end.rip, end.s)))
            && (end.Fault? ==> Reaches(Running(r.address, s), Faulted))
  {
    hide Pass, PairwiseApart, Applicable, Matches, WellFormed, StubOf, Installed, Reaches, IntactThroughout, ItemSteps;
    PassInstalls(m, rs, r);
    RunsInPlace(StubOf(r.builder, Wrap(r.target), Wrap(r.resume)), r.allocation.value, r.address as U64, |r.bytes|, s, n);
  }

  /** After any pass that matched the publication guard, run into its site on the whole of process memory. */
  lemma PatchedPublication(m: Memory, rs: seq<Request>, r: Request, s: State)
    requires PairwiseApart(rs) && AllApplicable(m, rs) && r in rs && r.Guarded? && Matches(m, r)
    requires r.builder == GuardedPublish5927f2 && s.mem == Pass(m, rs).memory
    ensures 0 <= r.address < 0x1_0000_0000_0000_0000 && r.allocation.Some? && Mapped(s.mem, r.allocation.value, 8)
    ensures if Unhealthy(s) then Comes(r.address, s, Wrap(r.target), s)
            else if Healthy(s) then Comes(r.address, s, Wrap(r.target), s.(mem := Published(s, r.allocation.value)))
            else Reaches(Running(r.address, s), Faulted)
  {
    hide Pass, PairwiseApart, Applicable, Matches, WellFormed, Stub5927f2, Installed, Comes, Healthy, Unhealthy, Reaches, Mapped, Published;
    PassInstalls(m, rs, r);
    InstalledPublication(r.allocation.value, r.address as U64, |r.bytes|, s, Wrap(r.target));
  }

  /** After any pass that matched the archive-state guard. */
  lemma PatchedSlot(m: Memory, rs: seq<Request>, r: Request, s: State)
    requires PairwiseApart(rs) && AllApplicable(m, rs) && r in rs && r.Guarded? && Matches(m, r)
    requires r.builder == Guard590ec9 && s.mem == Pass(m, rs).memory
    ensures 0 <= r.address < 0x1_0000_0000_0000_0000 && r.allocation.Some?
    ensures SlotResult(r.address, s, Wrap(r.resume), SlotState(s, r.allocation.value))
  {
    hide Pass, PairwiseApart, Applicable, Matches, WellFormed, Stub590ec9, Installed, SlotResult, SlotState;
    PassInstalls(m, rs, r);
    InstalledSlot(r.allocation.value, r.address as U64, |r.bytes|, s, Wrap(r.resume));
  }

  /* ---------- a client that patching breaks ---------- */

  const IMAGE_BASE: U64 := 0x1_4000_0000
  const SITE: U64 := 0x1_4059_0EC9
  const TRAMPOLINE: U64 := 0x7FF0_0000
  const TABLES: U64 := 0x2000_0000
  const SLOT: U64 := 0x2001_0C10
  const ARCHIVE: U64 := 0x2002_0000

  /** The original code at the site, the slot of archive 0, and the archive it points to, in state 7. */
  function Client(): Memory {
    Block(SITE, EXPECTED_590EC9) + Block(SLOT, [0x00, 0x00, 0x02, 0x20, 0x00, 0x00, 0x00, 0x00]) + Block(ARCHIVE + 1, [7])
  }

  function SlotRequest(): Request {
    JumpRequest(IMAGE_BASE, 0x59_0EC9, 0x59_0EDA, Some(TRAMPOLINE))
  }

  lemma SlotGuardFound()
    ensures LookupGuard(0x59_0EC9, 0x59_0EDA) == Some(Guard590ec9)
    ensures SpecOf(Guard590ec9).expected == EXPECTED_590EC9 && SpecOf(Guard590ec9).resume == 0x59_0EDA
  {
  }

  lemma SlotRequestIs()
    ensures SlotRequest()
            == Guarded(SITE, EXPECTED_590EC9, Guard590ec9, IMAGE_BASE + 0x59_0EDA, IMAGE_BASE + 0x59_0EDA, Some(TRAMPOLINE))
  {
    hide LookupGuard, SpecOf, EncodeRelativeJump;
    SlotGuardFound();
  }

  lemma ClientBytes()
    ensures forall x: U64 :: SITE <= x < SITE + 17 ==> x in Client() && Client()[x] == EXPECTED_590EC9[x - SITE]
    ensures forall x: U64 :: SLOT <= x < SLOT + 8 ==>
              x in Client() && Client()[x] == if x == SLOT + 2 then 2 else if x == SLOT + 3 then 0x20 else 0
    ensures ARCHIVE + 1 in Client() && Client()[ARCHIVE + 1] == 7
    ensures forall x: U64 :: x in Client() ==> SITE <= x < SITE + 17 || SLOT <= x < SLOT + 8 || x == ARCHIVE + 1
  {
    forall x: U64 | SITE <= x < SITE + 17
      ensures x in Client() && Client()[x] == EXPECTED_590EC9[x - SITE]
    {
      assert Within(x, SITE, 17);
    }
    forall x: U64 | SLOT <= x < SLOT + 8
      ensures x in Client() && Client()[x] == if x == SLOT + 2 then 2 else if x == SLOT + 3 then 0x20 else 0
    {
      assert Within(x, SLOT, 8);
    }
    assert Within(ARCHIVE + 1, ARCHIVE + 1, 1);
  }

  lemma SlotBytesFit(resume: U64)
    ensures WellFormed(Stub590ec9(resume)) && CodeLength(Stub590ec9(resume)) <= STUB_ALLOCATION
  {
    hide Encode, Offset;
    Shape590ec9(resume);
    CodeLengthBound(Stub590ec9(resume));
  }

  lemma SiteReads()
    ensures Readable(Client(), SITE, 17) && ReadBytes(Client(), SITE, 17) == EXPECTED_590EC9
  {
    hide Client;
    ClientBytes();
    forall x | Within(x, SITE, 17)
      ensures Has(Client(), x) && Client()[x] == EXPECTED_590EC9[x - SITE]
    {
    }
    hide ReadBytes, Readable;
    ReadsAs(Client(), SITE, EXPECTED_590EC9);
  }

  lemma TrampolineFree()
    ensures Unmapped(Client(), TRAMPOLINE, STUB_ALLOCATION)
  {
    hide Client;
    ClientBytes();
  }

  /** The guard finds its site and can be installed. */
  lemma SlotRequestApplies()
    ensures Applicable(Client(), SlotRequest()) && Matches(Client(), SlotRequest())
  {
    hide WellFormed, Stub590ec9, Client, JumpRequest, CodeLength, Assemble, Unmapped, Readable, ReadBytes;
    SlotRequestIs();
    SlotBytesFit(Wrap(SlotRequest().resume));
    SiteReads();
    TrampolineFree();
  }

  lemma SlotLoads(m: Memory)
    requires forall x: U64 :: SLOT <= x < SLOT + 8 ==> x in m && m[x] == if x == SLOT + 2 then 2 else if x == SLOT + 3 then 0x20 else 0
    requires ARCHIVE + 1 in m && m[ARCHIVE + 1] == 7
    ensures Mapped(m, SLOT, 8) && Load(m, SLOT, 8) == ARCHIVE
    ensures Mapped(m, ARCHIVE + 1, 1) && Load(m, ARCHIVE + 1, 1) == 7
  {
    ZeroLoad(m, SLOT + 4, 4);
    assert Load(m, SLOT + 3, 5) == 0x20;
    assert Load(m, SLOT + 2, 6) == 0x2002;
    assert Load(m, SLOT + 1, 7) == 0x20_0200;
    LowByteLoad(m, ARCHIVE + 1, 1, 7);
  }

  /** Wherever the slot and the archive are mapped, index 0 finds state 7. */
  lemma SlotFound(m: Memory)
    requires forall x: U64 :: SLOT <= x < SLOT + 8 ==> x in m && m[x] == if x == SLOT + 2 then 2 else if x == SLOT + 3 then 0x20 else 0
    requires ARCHIVE + 1 in m && m[ARCHIVE + 1] == 7
    ensures SlotPointer(LookupState(0, TABLES, m), 0) == Some(ARCHIVE)
    ensures ArchiveState(LookupState(0, TABLES, m), ARCHIVE) == Some(7)
  {
    hide Mapped, Load, LookupState;
    SlotLoads(m);
    LookupRegisters(0, TABLES, m);
  }

  /** The original code, run in that client, reads the state and goes on behind the site. */
  lemma OriginalFindsState()
    ensures FindsState(SITE, LookupState(0, TABLES, Client()), SITE + 17, 7)
  {
    hide Mapped, Load, LookupState, Client, Displaced590ec9, ItemSteps, WellFormed, Layout, HoldsCode, Reaches, SlotPointer, ArchiveState,
      IntactThroughout, Agree, ReadOnly, CodeLength;
    ClientBytes();
    var m, q := Client(), Displaced590ec9();
    var s := LookupState(0, TABLES, m);
    LookupRegisters(0, TABLES, m);
    SlotFound(m);
    Expected590ec9();
    BlockHoldsCode(SITE, EXPECTED_590EC9, m);
    ReadOnlyBlock();
    ReadOnlyStaysIntact(q, SITE, AtItem(0, s), 4);
    Exactly(q, SITE, AtItem(0, s), 4);
    Block590ec9(SITE, s, 4);
  }

  /** Run from the site the machine gets to `target` with `state` in RDX and all else but RAX and the flags as it was. */
  ghost predicate FindsState(site: U64, s: State, target: U64, state: U64) {
    exists u :: Agree(u, SetReg(s, RDX, state)) && Reaches(Running(site, s), Running(target, u))
  }

  lemma ReadOnlyBlock()
    ensures ReadOnly(Displaced590ec9())
  {
    Listing590ec9(0);
    hide Displaced590ec9;
  }

  /**
   A client on which installation changes the outcome: before the pass the lookup of archive 0
   finds state 7 and goes on; after it, in the same registers, the stub looks for a slot behind
   the trampoline's address and the machine faults.
   */
  lemma InstalledSlotFaults()
    ensures PairwiseApart([SlotRequest()]) && AllApplicable(Client(), [SlotRequest()]) && Matches(Client(), SlotRequest())
    ensures FindsState(SITE, LookupState(0, TABLES, Client()), SITE + 17, 7)
    ensures Reaches(Running(SITE, LookupState(0, TABLES, Pass(Client(), [SlotRequest()]).memory)), Faulted)
  {
    hide Client, SlotRequest, Applicable, Matches, Reaches, FindsState, Pass, SlotState, LookupState;
    SlotRequestIs();
    SlotRequestApplies();
    OriginalFindsState();
    var m, r := Client(), SlotRequest();
    var s := LookupState(0, TABLES, Pass(m, [r]).memory);
    LookupRegisters(0, TABLES, Pass(m, [r]).memory);
    PatchedSlot(m, [r], r, s);
    TrampolineSlotMissing();
  }

  lemma TrampolineSlotMissing()
    ensures SlotState(LookupState(0, TABLES, Pass(Client(), [SlotRequest()]).memory), TRAMPOLINE) == None
  {
    hide Client, SlotRequest, Applicable, Matches, Pass, LookupState, Writes, Mapped, Load, Covers;
    SlotRequestIs();
    SlotRequestApplies();
    ClientBytes();
    var m, r := Client(), SlotRequest();
    var m', x := Pass(m, [r]).memory, Wrap(Wrap(32 * TRAMPOLINE) + TABLES + 0x1_0C10);
    LookupRegisters(0, TABLES, m');
    PassImage(m, [r]);
    assert x == 0x10_1E01_0C10;
    assert x !in m;
    if x in Writes(m, r) {
      WritesCovered(m, r, x);
      NotCovered(r, x);
    }
    assert x !in m';
    Absent(m', x, 8);
  }

  lemma NotCovered(r: Request, x: U64)
    requires r.Guarded? && r.address == SITE && |r.bytes| == 17 && r.allocation == Some(TRAMPOLINE) && x == 0x10_1E01_0C10
    ensures !Covers(r, x)
  {
  }
}
