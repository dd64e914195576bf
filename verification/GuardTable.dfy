/**
 The table of guarded sites and the choice of builder: whatever entry is chosen, the bytes built
 are an assembled listing that can be left only through its exits.
 */
module GuardTable {
  import opened Wrappers
  import opened Words
  import opened Machine
  import opened InstructionEncoding
  import opened Programs
  import opened Stubs
  import opened StubDrafts
  import opened StubBuilders
  import opened GuardedSites
  import opened Installation

  datatype Builder =
    | Guard59002d
    | Guard5902d5
    | Guard590c58
    | Guard58fa83
    | ForceLength59c1ea
    | MirrorCompare59c2a0
    | Sentinel590c72
    | GuardedPublish5927f2
    | ForceCompare590ccb
    | ForceCompare590cf1
    | Guard590de8
    | Guard590ec9
    | Guard2ab698
    | Guard3699b2

  /** `SPECIAL_GUARDED_JUMP_BYPASS_SPECS`: source and target offsets, the block's bytes, where to resume, and the builder. */
  datatype GuardSpec = GuardSpec(source: nat, target: nat, expected: seq<Byte>, resume: nat, builder: Builder)

  function SpecOf(b: Builder): GuardSpec {
    match b
    case Guard59002d => GuardSpec(0x59002D, 0x5900A5, EXPECTED_59002D, 0x59003B, b)
    case Guard5902d5 => GuardSpec(0x5902D5, 0x5903BD, EXPECTED_5902D5, 0x5902E2, b)
    case Guard590c58 => GuardSpec(0x590C58, 0x590C81, EXPECTED_590C58, 0x590C65, b)
    case Guard58fa83 => GuardSpec(0x58FA83, 0x58FB29, EXPECTED_58FA83, 0x58FA90, b)
    case ForceLength59c1ea => GuardSpec(0x59C1EA, 0x59C21B, EXPECTED_59C1EA, 0x59C21B, b)
    case MirrorCompare59c2a0 => GuardSpec(0x59C2A0, 0x59C64F, EXPECTED_59C2A0, 0x59C2AE, b)
    case Sentinel590c72 => GuardSpec(0x590C72, 0x590DBA, EXPECTED_590C72, 0x590C81, b)
    case GuardedPublish5927f2 => GuardSpec(0x5927F2, 0x592826, EXPECTED_5927F2, 0x592801, b)
    case ForceCompare590ccb => GuardSpec(0x590CCB, 0x590CF1, EXPECTED_590CCB, 0x590CD9, b)
    case ForceCompare590cf1 => GuardSpec(0x590CF1, 0x590DCB, EXPECTED_590CF1, 0x590DCB, b)
    case Guard590de8 => GuardSpec(0x590DE8, 0x590EC6, EXPECTED_590DE8, 0x590E09, b)
    case Guard590ec9 => GuardSpec(0x590EC9, 0x590EDA, EXPECTED_590EC9, 0x590EDA, b)
    case Guard2ab698 => GuardSpec(0x2AB698, 0x2AB7F7, EXPECTED_2AB698, 0x2AB6AD, b)
    case Guard3699b2 => GuardSpec(0x3699B2, 0x3699F2, EXPECTED_3699B2, 0x3699C1, b)
  }

  /** The table entry for a pair of offsets, if it has one. */
  function LookupGuard(source: int, target: int): (b: Option<Builder>)
    ensures b.Some? ==> SpecOf(b.value).source == source && SpecOf(b.value).target == target
    ensures b.None? ==> forall c :: SpecOf(c).source != source || SpecOf(c).target != target
  {
    if source == 0x59002D && target == 0x5900A5 then Some(Guard59002d)
    else if source == 0x5902D5 && target == 0x5903BD then Some(Guard5902d5)
    else if source == 0x590C58 && target == 0x590C81 then Some(Guard590c58)
    else if source == 0x58FA83 && target == 0x58FB29 then Some(Guard58fa83)
    else if source == 0x59C1EA && target == 0x59C21B then Some(ForceLength59c1ea)
    else if source == 0x59C2A0 && target == 0x59C64F then Some(MirrorCompare59c2a0)
    else if source == 0x590C72 && target == 0x590DBA then Some(Sentinel590c72)
    else if source == 0x5927F2 && target == 0x592826 then Some(GuardedPublish5927f2)
    else if source == 0x590CCB && target == 0x590CF1 then Some(ForceCompare590ccb)
    else if source == 0x590CF1 && target == 0x590DCB then Some(ForceCompare590cf1)
    else if source == 0x590DE8 && target == 0x590EC6 then Some(Guard590de8)
    else if source == 0x590EC9 && target == 0x590EDA then Some(Guard590ec9)
    else if source == 0x2AB698 && target == 0x2AB7F7 then Some(Guard2ab698)
    else if source == 0x3699B2 && target == 0x3699F2 then Some(Guard3699b2)
    else None
  }

  function StubOf(b: Builder, target: U64, resume: U64): Program {
    match b
    case Guard59002d => Stub59002d(target, resume)
    case Guard5902d5 => Stub5902d5(target, resume)
    case Guard590c58 => Stub590c58(target, resume)
    case Guard58fa83 => Stub58fa83(target, resume)
    case ForceLength59c1ea => Stub59c1ea(target)
    case MirrorCompare59c2a0 => Stub59c2a0(target, resume)
    case Sentinel590c72 => Stub590c72(resume)
    case GuardedPublish5927f2 => Stub5927f2(target)
    case ForceCompare590ccb => Stub590ccb(resume, target)
    case ForceCompare590cf1 => Stub590cf1(target)
    case Guard590de8 => Stub590de8(target, resume)
    case Guard590ec9 => Stub590ec9(resume)
    case Guard2ab698 => Stub2ab698(target, resume)
    case Guard3699b2 => Stub3699b2(target, resume)
  }

  /** Which of the two addresses the builder encodes. */
  predicate UsesTarget(b: Builder) {
    !b.Sentinel590c72? && !b.Guard590ec9?
  }

  predicate UsesResume(b: Builder) {
    !b.ForceLength59c1ea? && !b.GuardedPublish5927f2? && !b.ForceCompare590cf1?
  }

  /** The stubs that stand in for their block resume right behind it. */
  lemma ResumesBehindBlock(b: Builder)
    requires UsesResume(b)
    ensures SpecOf(b).source + |SpecOf(b).expected| == SpecOf(b).resume
  {
  }

  /** Every site has room for the twelve-byte jump, and no two sites overlap. */
  lemma SitesApart(b: Builder, c: Builder)
    requires b != c
    ensures |SpecOf(b).expected| >= 12
    ensures SpecOf(b).source + |SpecOf(b).expected| <= SpecOf(c).source || SpecOf(c).source + |SpecOf(c).expected| <= SpecOf(b).source
  {
  }

  /** The dispatch on the builder's name. It fails only on an address that does not fit in 64 bits. */
  method BuildStub(b: Builder, trampoline: int, target: int, resume: int) returns (r: Result<seq<Byte>>)
    ensures r.Ok? <==> (UsesTarget(b) ==> IsU64(target)) && (UsesResume(b) ==> IsU64(resume))
    ensures r.Err? ==> r.error == AddressOverflow
    ensures r.Ok? ==>
              && WellFormed(StubOf(b, Wrap(target), Wrap(resume)))
              && r.value == Assemble(StubOf(b, Wrap(target), Wrap(resume)))
              && |r.value| <= STUB_ALLOCATION
  {
    hide WellFormed, Encode, Wrap, Stub59002d, Stub5902d5, Stub590c58, Stub58fa83, Stub59c1ea, Stub59c2a0, Stub590c72, Stub5927f2, Stub590ccb, Stub590cf1, Stub590de8, Stub590ec9, Stub2ab698, Stub3699b2;
    match b {
      case Guard59002d => r := Build59002d(trampoline, target, resume, EXPECTED_59002D);
      case Guard5902d5 => r := Build5902d5(trampoline, target, resume);
      case Guard590c58 => r := Build590c58(trampoline, target, resume);
      case Guard58fa83 => r := Build58fa83(trampoline, target, resume);
      case ForceLength59c1ea => r := Build59c1ea(target);
      case MirrorCompare59c2a0 => r := Build59c2a0(trampoline, target, resume);
      case Sentinel590c72 => r := Build590c72(resume);
      case GuardedPublish5927f2 => r := Build5927f2(trampoline, target);
      case ForceCompare590ccb => r := Build590ccb(trampoline, resume, target);
      case ForceCompare590cf1 => r := Build590cf1(target);
      case Guard590de8 => r := Build590de8(trampoline, target, resume);
      case Guard590ec9 => r := Build590ec9(trampoline, resume);
      case Guard2ab698 => r := Build2ab698(trampoline, target, resume);
      case Guard3699b2 => r := Build3699b2(trampoline, target, resume);
    }
  }

  lemma Exits59002d(skip: U64, resume: U64)
    ensures LeavesThroughExits(Stub59002d(skip, resume))
    ensures forall x: U64 :: ExitTarget(Stub59002d(skip, resume), x) ==> x == skip || x == resume
  {
    hide Encode, Offset;
  }

  lemma Exits5902d5(skip: U64, resume: U64)
    ensures LeavesThroughExits(Stub5902d5(skip, resume))
    ensures forall x: U64 :: ExitTarget(Stub5902d5(skip, resume), x) ==> x == skip || x == resume
  {
    hide Encode, Offset;
  }

  lemma Exits590c58(skip: U64, resume: U64)
    ensures LeavesThroughExits(Stub590c58(skip, resume))
    ensures forall x: U64 :: ExitTarget(Stub590c58(skip, resume), x) ==> x == skip || x == resume
  {
    hide Encode, Offset;
  }

  lemma Exits58fa83(skip: U64, resume: U64)
    ensures LeavesThroughExits(Stub58fa83(skip, resume))
    ensures forall x: U64 :: ExitTarget(Stub58fa83(skip, resume), x) ==> x == skip || x == resume
  {
    hide Encode, Offset;
  }

  lemma Exits59c1ea(skip: U64)
    ensures LeavesThroughExits(Stub59c1ea(skip))
    ensures forall x: U64 :: ExitTarget(Stub59c1ea(skip), x) ==> x == skip
  {
    hide Encode, Offset;
  }

  lemma Exits59c2a0(fail: U64, resume: U64)
    ensures LeavesThroughExits(Stub59c2a0(fail, resume))
    ensures forall x: U64 :: ExitTarget(Stub59c2a0(fail, resume), x) ==> x == fail || x == resume
  {
    hide Encode, Offset;
  }

  lemma Exits590c72(resume: U64)
    ensures LeavesThroughExits(Stub590c72(resume))
    ensures forall x: U64 :: ExitTarget(Stub590c72(resume), x) ==> x == resume
  {
    hide Encode, Offset;
  }

  lemma Exits5927f2(skip: U64)
    ensures LeavesThroughExits(Stub5927f2(skip))
    ensures forall x: U64 :: ExitTarget(Stub5927f2(skip), x) ==> x == skip
  {
    hide Encode, Offset;
  }

  lemma Exits590ccb(resume: U64, success: U64)
    ensures LeavesThroughExits(Stub590ccb(resume, success))
    ensures forall x: U64 :: ExitTarget(Stub590ccb(resume, success), x) ==> x == resume || x == success
  {
    hide Encode, Offset;
  }

  lemma Exits590cf1(success: U64)
    ensures LeavesThroughExits(Stub590cf1(success))
    ensures forall x: U64 :: ExitTarget(Stub590cf1(success), x) ==> x == success
  {
    hide Encode, Offset;
  }

  lemma Exits590de8(skip: U64, resume: U64)
    ensures LeavesThroughExits(Stub590de8(skip, resume))
    ensures forall x: U64 :: ExitTarget(Stub590de8(skip, resume), x) ==> x == skip || x == resume
  {
    hide Encode, Offset;
  }

  lemma Exits590ec9(resume: U64)
    ensures LeavesThroughExits(Stub590ec9(resume))
    ensures forall x: U64 :: ExitTarget(Stub590ec9(resume), x) ==> x == resume
  {
    hide Encode, Offset;
  }

  lemma Exits2ab698(skip: U64, resume: U64)
    ensures LeavesThroughExits(Stub2ab698(skip, resume))
    ensures forall x: U64 :: ExitTarget(Stub2ab698(skip, resume), x) ==> x == skip || x == resume
  {
    hide Encode, Offset;
  }

  lemma Exits3699b2(skip: U64, resume: U64)
    ensures LeavesThroughExits(Stub3699b2(skip, resume))
    ensures forall x: U64 :: ExitTarget(Stub3699b2(skip, resume), x) ==> x == skip || x == resume
  {
    hide Encode, Offset;
  }

  lemma StubWellFormed(b: Builder, target: U64, resume: U64)
    ensures WellFormed(StubOf(b, target, resume))
  {
    hide WellFormed, Stub59002d, Stub5902d5, Stub590c58, Stub58fa83, Stub59c1ea, Stub59c2a0, Stub590c72, Stub5927f2, Stub590ccb, Stub590cf1, Stub590de8, Stub590ec9, Stub2ab698, Stub3699b2;
    match b {
      case Guard59002d => Shape59002d(target, resume);
      case Guard5902d5 => Shape5902d5(target, resume);
      case Guard590c58 => Shape590c58(target, resume);
      case Guard58fa83 => Shape58fa83(target, resume);
      case ForceLength59c1ea => Shape59c1ea(target);
      case MirrorCompare59c2a0 => Shape59c2a0(target, resume);
      case Sentinel590c72 => Shape590c72(resume);
      case GuardedPublish5927f2 => Shape5927f2(target);
      case ForceCompare590ccb => Shape590ccb(resume, target);
      case ForceCompare590cf1 => Shape590cf1(target);
      case Guard590de8 => Shape590de8(target, resume);
      case Guard590ec9 => Shape590ec9(resume);
      case Guard2ab698 => Shape2ab698(target, resume);
      case Guard3699b2 => Shape3699b2(target, resume);
    }
  }

  /**
   For every stub, trampoline address, state and number of steps: where the stub leaves, RAX
   holds the address it left for, and that is one of the addresses it was built with.
   */
  lemma EveryStubExit(b: Builder, target: U64, resume: U64, base: U64, s: State, n: nat)
    ensures var c := ItemSteps(StubOf(b, target, resume), base, AtItem(0, s), n);
            c.Left? ==>
              && Get(c.s, RAX) == c.rip
              && ((UsesTarget(b) && c.rip == target) || (UsesResume(b) && c.rip == resume))
  {
    hide ItemSteps, LeavesThroughExits, ExitTarget, Stub59002d, Stub5902d5, Stub590c58, Stub58fa83, Stub59c1ea, Stub59c2a0, Stub590c72, Stub5927f2, Stub590ccb, Stub590cf1, Stub590de8, Stub590ec9, Stub2ab698, Stub3699b2;
    var p := StubOf(b, target, resume);
    match b {
      case Guard59002d => Exits59002d(target, resume);
      case Guard5902d5 => Exits5902d5(target, resume);
      case Guard590c58 => Exits590c58(target, resume);
      case Guard58fa83 => Exits58fa83(target, resume);
      case ForceLength59c1ea => Exits59c1ea(target);
      case MirrorCompare59c2a0 => Exits59c2a0(target, resume);
      case Sentinel590c72 => Exits590c72(resume);
      case GuardedPublish5927f2 => Exits5927f2(target);
      case ForceCompare590ccb => Exits590ccb(resume, target);
      case ForceCompare590cf1 => Exits590cf1(target);
      case Guard590de8 => Exits590de8(target, resume);
      case Guard590ec9 => Exits590ec9(resume);
      case Guard2ab698 => Exits2ab698(target, resume);
      case Guard3699b2 => Exits3699b2(target, resume);
    }
    StartsReady(p, s);
    ExitsCarryTarget(p, base, AtItem(0, s), n);
  }

  lemma StartsReady(p: Program, s: State)
    requires LeavesThroughExits(p)
    ensures ExitReady(p, AtItem(0, s))
  {
  }
}
