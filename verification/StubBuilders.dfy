/**
 The builders of the fourteen trampolines, as the source writes them: append instruction bytes
 and placeholders, note where labels fall, then overwrite the placeholders. Each is proved to
 return its listing, assembled, for every trampoline address, and to fail exactly when an exit
 address is not an unsigned 64-bit number. The lemma calls between the statements say which item
 of the listing the next bytes are.
 */
module StubBuilders {
  import opened Wrappers
  import opened Words
  import opened Machine
  import opened InstructionEncoding
  import opened JumpEncoders
  import opened Programs
  import opened Spelling
  import opened StubDrafts
  import opened Stubs
  import opened GuardedSites

  predicate IsU64(x: int) {
    0 <= x < 0x1_0000_0000_0000_0000
  }

  lemma Shape59002d(skip: U64, resume: U64)
    ensures WellFormed(Stub59002d(skip, resume))
    ensures BranchesAt(Stub59002d(skip, resume), {1, 3})
  {
    hide Encode, Offset;
    CodeLengthBound(Stub59002d(skip, resume));
  }

  /** The buffer before patching: the two tests, the displaced block and the two exits. */
  lemma Drafts59002d(skip: U64, resume: U64)
    requires WellFormed(Stub59002d(skip, resume))
    requires EncodeAbsoluteJump(skip, None).Ok? && EncodeAbsoluteJump(resume, None).Ok?
    ensures var p := Stub59002d(skip, resume);
            && Offset(p, 1) == 3 && Offset(p, 3) == 12 && Offset(p, 9) == 44
            && Draft(p, 11, {}) == [0x48, 0x85, 0xDB] + [0x0F, 0x84, 0, 0, 0, 0] + [0x4C, 0x39, 0xE3] + [0x0F, 0x84, 0, 0, 0, 0]
                 + EXPECTED_59002D + EncodeAbsoluteJump(resume, None).value + EncodeAbsoluteJump(skip, None).value
  {
    hide WellFormed, Encode, Draft, ItemBytes, LittleEndian, Offset;
    var p := Stub59002d(skip, resume);
    Empty(p);
    TestRbx();
    Appended(p, 0);
    Reserved(p, 1);
    CmpRbxR12();
    Appended(p, 2);
    Reserved(p, 3);
    LoadRdxRbx();
    Appended(p, 4);
    LeaRcxRsp();
    Appended(p, 5);
    StoreRspR12();
    Appended(p, 6);
    DraftLength(p, 1);
    DraftLength(p, 3);
    ExitAppended(p, 7, resume);
    ExitAppended(p, 9, skip);
    DraftLength(p, 9);
    var head := Draft(p, 4, {});
    Associative(head, [0x48, 0x8B, 0x53, 0x10], [0x48, 0x8D, 0x4C, 0x24, 0x40]);
    Associative(head, [0x48, 0x8B, 0x53, 0x10] + [0x48, 0x8D, 0x4C, 0x24, 0x40], [0x4C, 0x89, 0x64, 0x24, 0x48]);
    assert EXPECTED_59002D == [0x48, 0x8B, 0x53, 0x10] + [0x48, 0x8D, 0x4C, 0x24, 0x40] + [0x4C, 0x89, 0x64, 0x24, 0x48];
  }

  /** Fails also when the displaced bytes are too long for the jumps over them. */
  method Build59002d(trampoline: int, skip: int, resume: int, overwritten: seq<Byte>) returns (r: Result<seq<Byte>>)
    ensures r.Ok? <==> IsU64(skip) && IsU64(resume) && |overwritten| < 0x8000_0000 - 21
    ensures r.Err? && |overwritten| < 0x8000_0000 - 21 ==> r.error == AddressOverflow
    ensures r.Ok? ==> |r.value| == |overwritten| + 42
    ensures r.Ok? && overwritten == EXPECTED_59002D ==>
              WellFormed(Stub59002d(skip, resume)) && r.value == Assemble(Stub59002d(skip, resume))
  {
    hide WellFormed, Encode, Draft, ItemBytes, LittleEndian, Offset, Splice, BranchesAt;
    ghost var p := Stub59002d(Wrap(skip), Wrap(resume));
    if overwritten == EXPECTED_59002D {
      Shape59002d(Wrap(skip), Wrap(resume));
      Drafts59002d(Wrap(skip), Wrap(resume));
    }
    var stub: seq<Byte> := [0x48, 0x85, 0xDB];
    var jeZeroAddress := trampoline + |stub|;
    stub := stub + [0x0F, 0x84, 0, 0, 0, 0];
    stub := stub + [0x4C, 0x39, 0xE3];
    var jeR12Address := trampoline + |stub|;
    stub := stub + [0x0F, 0x84, 0, 0, 0, 0];
    stub := stub + overwritten;
    var toResume :- EncodeAbsoluteJump(resume, None);
    stub := stub + toResume;
    var skipAddress := trampoline + |stub|;
    var toSkip :- EncodeAbsoluteJump(skip, None);
    stub := stub + toSkip;
    if overwritten == EXPECTED_59002D {
      assert stub == Draft(p, 11, {});
      Patched(p, {}, 1, trampoline);
      Patched(p, {} + {1}, 3, trampoline);
      Finished(p, {1, 3}, {} + {1} + {3});
    }
    var toSkip1 :- EncodeConditionalJump([0x0F, 0x84], jeZeroAddress, skipAddress);
    stub := Splice(stub, 3, toSkip1);
    var toSkip2 := EncodeConditionalJump([0x0F, 0x84], jeR12Address, skipAddress);
    stub := Splice(stub, 12, toSkip2.value);
    return Ok(stub);
  }


  lemma Shape590c58(skip: U64, resume: U64)
    ensures WellFormed(Stub590c58(skip, resume))
    ensures BranchesAt(Stub590c58(skip, resume), {2, 4})
  {
    hide Encode, Offset;
    CodeLengthBound(Stub590c58(skip, resume));
  }

  method Build590c58(trampoline: int, skip: int, resume: int) returns (r: Result<seq<Byte>>)
    ensures r.Ok? <==> IsU64(skip) && IsU64(resume)
    ensures r.Err? ==> r.error == AddressOverflow
    ensures r.Ok? ==> WellFormed(Stub590c58(skip, resume)) && r.value == Assemble(Stub590c58(skip, resume)) && |r.value| <= STUB_ALLOCATION
  {
    ghost var p := Stub590c58(Wrap(skip), Wrap(resume));
    Shape590c58(Wrap(skip), Wrap(resume));
    hide WellFormed, Encode, Draft, ItemBytes, LittleEndian, Offset, Splice, EncodeConditionalJump, BranchesAt;
    Empty(p);
    var stub: seq<Byte> := [];
    LoadRdxTable();
    Appended(p, 0);
    stub := stub + [0x48, 0x8B, 0x91, 0xD0, 0x30, 0x00, 0x00];
    TestRdx();
    Appended(p, 1);
    stub := stub + [0x48, 0x85, 0xD2];
    var jeToSkip := |stub|;
    Reserved(p, 2);
    stub := stub + [0x0F, 0x84, 0, 0, 0, 0];
    CmpR10Length();
    Appended(p, 3);
    stub := stub + [0x4C, 0x3B, 0x52, 0x10];
    var jaeToSkip := |stub|;
    Reserved(p, 4);
    stub := stub + [0x0F, 0x83, 0, 0, 0, 0];
    ExitAppended(p, 5, Wrap(resume));
    var toResume :- EncodeAbsoluteJump(resume, None);
    stub := stub + toResume;
    var skipAddress := trampoline + |stub|;
    SetR8Sentinel();
    Appended(p, 7);
    stub := stub + [0x41, 0xB8, 0xFF, 0xFF, 0xFF, 0xFF];
    SetR9Sentinel();
    Appended(p, 8);
    stub := stub + [0x41, 0xB9, 0xFF, 0xFF, 0xFF, 0xFF];
    ExitAppended(p, 9, Wrap(skip));
    var toSkip :- EncodeAbsoluteJump(skip, None);
    stub := stub + toSkip;
    stub := FillIn(stub, jeToSkip, [0x0F, 0x84], trampoline, skipAddress, p, {}, 2);
    stub := FillIn(stub, jaeToSkip, [0x0F, 0x83], trampoline, skipAddress, p, {} + {2}, 4);
    Finished(p, {2, 4}, {} + {2} + {4});
    assert p == Stub590c58(skip, resume);
    return Ok(stub);
  }

  lemma Shape58fa83(skip: U64, resume: U64)
    ensures WellFormed(Stub58fa83(skip, resume))
    ensures BranchesAt(Stub58fa83(skip, resume), {2})
  {
    hide Encode, Offset;
    CodeLengthBound(Stub58fa83(skip, resume));
  }

  method Build58fa83(trampoline: int, skip: int, resume: int) returns (r: Result<seq<Byte>>)
    ensures r.Ok? <==> IsU64(skip) && IsU64(resume)
    ensures r.Err? ==> r.error == AddressOverflow
    ensures r.Ok? ==> WellFormed(Stub58fa83(skip, resume)) && r.value == Assemble(Stub58fa83(skip, resume)) && |r.value| <= STUB_ALLOCATION
  {
    ghost var p := Stub58fa83(Wrap(skip), Wrap(resume));
    Shape58fa83(Wrap(skip), Wrap(resume));
    hide WellFormed, Encode, Draft, ItemBytes, LittleEndian, Offset, Splice, EncodeConditionalJump, BranchesAt;
    Empty(p);
    var stub: seq<Byte> := [];
    LoadRaxTable();
    Appended(p, 0);
    stub := stub + [0x48, 0x8B, 0x81, 0xD0, 0x30, 0x00, 0x00];
    TestRax();
    Appended(p, 1);
    stub := stub + [0x48, 0x85, 0xC0];
    var jeToSkip := |stub|;
    Reserved(p, 2);
    stub := stub + [0x0F, 0x84, 0, 0, 0, 0];
    MovEdxR13();
    Appended(p, 3);
    stub := stub + [0x41, 0x8B, 0xD5];
    LoadR12Rax();
    Appended(p, 4);
    stub := stub + [0x44, 0x8B, 0x20];
    ExitAppended(p, 5, Wrap(resume));
    var toResume :- EncodeAbsoluteJump(resume, None);
    stub := stub + toResume;
    var skipAddress := trampoline + |stub|;
    ExitAppended(p, 7, Wrap(skip));
    var toSkip :- EncodeAbsoluteJump(skip, None);
    stub := stub + toSkip;
    stub := FillIn(stub, jeToSkip, [0x0F, 0x84], trampoline, skipAddress, p, {}, 2);
    Finished(p, {2}, {} + {2});
    assert p == Stub58fa83(skip, resume);
    return Ok(stub);
  }

  lemma Shape59c1ea(skip: U64)
    ensures WellFormed(Stub59c1ea(skip))
    ensures BranchesAt(Stub59c1ea(skip), {})
  {
    hide Encode, Offset;
    CodeLengthBound(Stub59c1ea(skip));
  }

  method Build59c1ea(skip: int) returns (r: Result<seq<Byte>>)
    ensures r.Ok? <==> IsU64(skip)
    ensures r.Err? ==> r.error == AddressOverflow
    ensures r.Ok? ==> WellFormed(Stub59c1ea(skip)) && r.value == Assemble(Stub59c1ea(skip)) && |r.value| <= STUB_ALLOCATION
  {
    ghost var p := Stub59c1ea(Wrap(skip));
    Shape59c1ea(Wrap(skip));
    hide WellFormed, Encode, Draft, ItemBytes, LittleEndian, Offset, Splice, EncodeConditionalJump, BranchesAt;
    Empty(p);
    var stub: seq<Byte> := [];
    SetR14Length();
    Appended(p, 0);
    stub := stub + [0x41, 0xBE, 0x41, 0x00, 0x00, 0x00];
    StoreLength();
    Appended(p, 1);
    stub := stub + [0x48, 0xC7, 0x44, 0x24, 0x38, 0x41, 0x00, 0x00, 0x00];
    ExitAppended(p, 2, Wrap(skip));
    var toSkip :- EncodeAbsoluteJump(skip, None);
    stub := stub + toSkip;
    Finished(p, {}, {});
    assert p == Stub59c1ea(skip);
    return Ok(stub);
  }

  lemma Shape59c2a0(fail: U64, resume: U64)
    ensures WellFormed(Stub59c2a0(fail, resume))
    ensures BranchesAt(Stub59c2a0(fail, resume), {1, 13, 19})
    ensures var p := Stub59c2a0(fail, resume);
            && |p| == 24
            && p[1] == Branch(NE, 17)
            && p[13] == Branch(NE, 8)
            && p[19] == Branch(NE, 22)
            && p[20] == Ins(Mov(W64, R(RAX), Imm(resume)), Std) && p[21] == Ins(JmpTo(R(RAX)), Std)
            && p[22] == Ins(Mov(W64, R(RAX), Imm(fail)), Std) && p[23] == Ins(JmpTo(R(RAX)), Std)
  {
    hide Encode, Offset;
    CodeLengthBound(Stub59c2a0(fail, resume));
  }

  /** Appends the first-iteration test and the set-up of the copy, and notes where its jumps were left. */
  method EmitEntry59c2a0(stub0: seq<Byte>, ghost p: Program) returns (stub: seq<Byte>, jneToCompare: nat)
    requires WellFormed(p) && (exists fail: U64, resume: U64 :: p == Stub59c2a0(fail, resume)) && stub0 == Draft(p, 0, {}) && |stub0| == Offset(p, 0)
    ensures stub == Draft(p, 8, {}) && |stub| == Offset(p, 8) <= |stub0| + 27
    ensures jneToCompare == Offset(p, 1)
  {
    hide WellFormed, Encode, Draft, ItemBytes, LittleEndian, Offset, Splice, EncodeConditionalJump, BranchesAt;
    ghost var fail: U64, resume: U64 :| p == Stub59c2a0(fail, resume);
    stub := stub0;
    TestEdx();
    Appended(p, 0);
    stub := stub + [0x85, 0xD2];
    jneToCompare := |stub|;
    Reserved(p, 1);
    stub := stub + [0x0F, 0x85, 0, 0, 0, 0];
    PushR9();
    Appended(p, 2);
    stub := stub + [0x41, 0x51];
    PushR10();
    Appended(p, 3);
    stub := stub + [0x41, 0x52];
    PushR11();
    Appended(p, 4);
    stub := stub + [0x41, 0x53];
    LeaR11Rbx();
    Appended(p, 5);
    stub := stub + [0x4C, 0x8D, 0x5B, 0x01];
    MovR9Rcx();
    Appended(p, 6);
    stub := stub + [0x49, 0x89, 0xC9];
    SetR10Count();
    Appended(p, 7);
    stub := stub + [0x41, 0xBA, 0x40, 0x00, 0x00, 0x00];
    DraftLength(p, 8);
  }

  /** Appends the copy loop and the restored registers, and notes where its jumps were left. */
  method EmitCopy59c2a0(trampoline: int, stub0: seq<Byte>, ghost p: Program) returns (stub: seq<Byte>, jneToCopy: nat, copyAddress: int, compareAddress: int)
    requires WellFormed(p) && (exists fail: U64, resume: U64 :: p == Stub59c2a0(fail, resume)) && stub0 == Draft(p, 8, {}) && |stub0| == Offset(p, 8)
    ensures stub == Draft(p, 18, {}) && |stub| == Offset(p, 18) <= |stub0| + 34
    ensures jneToCopy == Offset(p, 13) && copyAddress == trampoline + Offset(p, 8) && compareAddress == trampoline + Offset(p, 17)
  {
    hide WellFormed, Encode, Draft, ItemBytes, LittleEndian, Offset, Splice, EncodeConditionalJump, BranchesAt;
    ghost var fail: U64, resume: U64 :| p == Stub59c2a0(fail, resume);
    stub := stub0;
    copyAddress := trampoline + |stub|;
    LoadAlR9();
    Appended(p, 8);
    stub := stub + [0x41, 0x8A, 0x01];
    StoreR11Al();
    Appended(p, 9);
    stub := stub + [0x41, 0x88, 0x03];
    IncR9();
    Appended(p, 10);
    stub := stub + [0x49, 0xFF, 0xC1];
    IncR11();
    Appended(p, 11);
    stub := stub + [0x49, 0xFF, 0xC3];
    SubR10One();
    Appended(p, 12);
    stub := stub + [0x41, 0x83, 0xEA, 0x01];
    jneToCopy := |stub|;
    Reserved(p, 13);
    stub := stub + [0x0F, 0x85, 0, 0, 0, 0];
    PopR11();
    Appended(p, 14);
    stub := stub + [0x41, 0x5B];
    PopR10();
    Appended(p, 15);
    stub := stub + [0x41, 0x5A];
    PopR9();
    Appended(p, 16);
    stub := stub + [0x41, 0x59];
    compareAddress := trampoline + |stub|;
    LoadCompared();
    Appended(p, 17);
    stub := stub + [0x41, 0x0F, 0xB6, 0x44, 0x08, 0x01];
    DraftLength(p, 18);
  }

  /** Appends the displaced comparison, and notes where its jumps were left. */
  method EmitCompare59c2a0(stub0: seq<Byte>, ghost p: Program) returns (stub: seq<Byte>, jneToFail: nat)
    requires WellFormed(p) && (exists fail: U64, resume: U64 :: p == Stub59c2a0(fail, resume)) && stub0 == Draft(p, 18, {}) && |stub0| == Offset(p, 18)
    ensures stub == Draft(p, 20, {}) && |stub| == Offset(p, 20) <= |stub0| + 8
    ensures jneToFail == Offset(p, 19)
  {
    hide WellFormed, Encode, Draft, ItemBytes, LittleEndian, Offset, Splice, EncodeConditionalJump, BranchesAt;
    ghost var fail: U64, resume: U64 :| p == Stub59c2a0(fail, resume);
    stub := stub0;
    CmpRcxAl();
    Appended(p, 18);
    stub := stub + [0x38, 0x01];
    jneToFail := |stub|;
    Reserved(p, 19);
    stub := stub + [0x0F, 0x85, 0, 0, 0, 0];
    DraftLength(p, 20);
  }

  method Build59c2a0(trampoline: int, fail: int, resume: int) returns (r: Result<seq<Byte>>)
    ensures r.Ok? <==> IsU64(fail) && IsU64(resume)
    ensures r.Err? ==> r.error == AddressOverflow
    ensures r.Ok? ==> WellFormed(Stub59c2a0(fail, resume)) && r.value == Assemble(Stub59c2a0(fail, resume)) && |r.value| <= STUB_ALLOCATION
  {
    ghost var p := Stub59c2a0(Wrap(fail), Wrap(resume));
    Shape59c2a0(Wrap(fail), Wrap(resume));
    hide WellFormed, Encode, Draft, ItemBytes, LittleEndian, Offset, Splice, EncodeConditionalJump, BranchesAt, Stub59c2a0;
    Empty(p);
    var stub: seq<Byte> := [];
    var stubEntry, jneToCompare := EmitEntry59c2a0(stub, p);
    stub := stubEntry;
    var stubCopy, jneToCopy, copyAddress, compareAddress := EmitCopy59c2a0(trampoline, stub, p);
    stub := stubCopy;
    var stubCompare, jneToFail := EmitCompare59c2a0(stub, p);
    stub := stubCompare;
    ExitAppended(p, 20, Wrap(resume));
    var toResume :- EncodeAbsoluteJump(resume, None);
    stub := stub + toResume;
    var failAddress := trampoline + |stub|;
    ExitAppended(p, 22, Wrap(fail));
    var toFail :- EncodeAbsoluteJump(fail, None);
    stub := stub + toFail;
    stub := FillIn(stub, jneToCompare, [0x0F, 0x85], trampoline, compareAddress, p, {}, 1);
    stub := FillIn(stub, jneToCopy, [0x0F, 0x85], trampoline, copyAddress, p, {} + {1}, 13);
    stub := FillIn(stub, jneToFail, [0x0F, 0x85], trampoline, failAddress, p, {} + {1} + {13}, 19);
    Finished(p, {1, 13, 19}, {} + {1} + {13} + {19});
    assert p == Stub59c2a0(fail, resume);
    return Ok(stub);
  }

  lemma Shape590c72(resume: U64)
    ensures WellFormed(Stub590c72(resume))
    ensures BranchesAt(Stub590c72(resume), {})
  {
    hide Encode, Offset;
    CodeLengthBound(Stub590c72(resume));
  }

  method Build590c72(resume: int) returns (r: Result<seq<Byte>>)
    ensures r.Ok? <==> IsU64(resume)
    ensures r.Err? ==> r.error == AddressOverflow
    ensures r.Ok? ==> WellFormed(Stub590c72(resume)) && r.value == Assemble(Stub590c72(resume)) && |r.value| <= STUB_ALLOCATION
  {
    ghost var p := Stub590c72(Wrap(resume));
    Shape590c72(Wrap(resume));
    hide WellFormed, Encode, Draft, ItemBytes, LittleEndian, Offset, Splice, EncodeConditionalJump, BranchesAt;
    Empty(p);
    var stub: seq<Byte> := [];
    SetR8Sentinel();
    Appended(p, 0);
    stub := stub + [0x41, 0xB8, 0xFF, 0xFF, 0xFF, 0xFF];
    SetR9Sentinel();
    Appended(p, 1);
    stub := stub + [0x41, 0xB9, 0xFF, 0xFF, 0xFF, 0xFF];
    ExitAppended(p, 2, Wrap(resume));
    var toResume :- EncodeAbsoluteJump(resume, None);
    stub := stub + toResume;
    Finished(p, {}, {});
    assert p == Stub590c72(resume);
    return Ok(stub);
  }

  lemma Shape5927f2(skip: U64)
    ensures WellFormed(Stub5927f2(skip))
    ensures BranchesAt(Stub5927f2(skip), {1, 3, 5, 7})
  {
    hide Encode, Offset;
    CodeLengthBound(Stub5927f2(skip));
  }

  method Build5927f2(trampoline: int, skip: int) returns (r: Result<seq<Byte>>)
    ensures r.Ok? <==> IsU64(skip)
    ensures r.Err? ==> r.error == AddressOverflow
    ensures r.Ok? ==> WellFormed(Stub5927f2(skip)) && r.value == Assemble(Stub5927f2(skip)) && |r.value| <= STUB_ALLOCATION
  {
    ghost var p := Stub5927f2(Wrap(skip));
    Shape5927f2(Wrap(skip));
    hide WellFormed, Encode, Draft, ItemBytes, LittleEndian, Offset, Splice, EncodeConditionalJump, BranchesAt;
    Empty(p);
    var stub: seq<Byte> := [];
    TestR15();
    Appended(p, 0);
    stub := stub + [0x4D, 0x85, 0xFF];
    var jeToSkip1 := |stub|;
    Reserved(p, 1);
    stub := stub + [0x0F, 0x84, 0, 0, 0, 0];
    CmpKind();
    Appended(p, 2);
    stub := stub + [0x41, 0x83, 0x3F, 0x42];
    var jneToSkip1 := |stub|;
    Reserved(p, 3);
    stub := stub + [0x0F, 0x85, 0, 0, 0, 0];
    CmpCount();
    Appended(p, 4);
    stub := stub + [0x49, 0x83, 0x7F, 0x10, 0x43];
    var jneToSkip2 := |stub|;
    Reserved(p, 5);
    stub := stub + [0x0F, 0x85, 0, 0, 0, 0];
    CmpEntries();
    Appended(p, 6);
    stub := stub + [0x49, 0x83, 0x7F, 0x18, 0x00];
    var jeToSkip2 := |stub|;
    Reserved(p, 7);
    stub := stub + [0x0F, 0x84, 0, 0, 0, 0];
    StoreRaxR15();
    Appended(p, 8);
    stub := stub + [0x4C, 0x89, 0x38];
    var skipAddress := trampoline + |stub|;
    ExitAppended(p, 9, Wrap(skip));
    var toSkip :- EncodeAbsoluteJump(skip, None);
    stub := stub + toSkip;
    stub := FillIn(stub, jeToSkip1, [0x0F, 0x84], trampoline, skipAddress, p, {}, 1);
    stub := FillIn(stub, jneToSkip1, [0x0F, 0x85], trampoline, skipAddress, p, {} + {1}, 3);
    stub := FillIn(stub, jneToSkip2, [0x0F, 0x85], trampoline, skipAddress, p, {} + {1} + {3}, 5);
    stub := FillIn(stub, jeToSkip2, [0x0F, 0x84], trampoline, skipAddress, p, {} + {1} + {3} + {5}, 7);
    Finished(p, {1, 3, 5, 7}, {} + {1} + {3} + {5} + {7});
    assert p == Stub5927f2(skip);
    return Ok(stub);
  }

  lemma Shape590ccb(resume: U64, success: U64)
    ensures WellFormed(Stub590ccb(resume, success))
    ensures BranchesAt(Stub590ccb(resume, success), {3})
  {
    hide Encode, Offset;
    CodeLengthBound(Stub590ccb(resume, success));
  }

  method Build590ccb(trampoline: int, resume: int, success: int) returns (r: Result<seq<Byte>>)
    ensures r.Ok? <==> IsU64(resume) && IsU64(success)
    ensures r.Err? ==> r.error == AddressOverflow
    ensures r.Ok? ==> WellFormed(Stub590ccb(resume, success)) && r.value == Assemble(Stub590ccb(resume, success)) && |r.value| <= STUB_ALLOCATION
  {
    ghost var p := Stub590ccb(Wrap(resume), Wrap(success));
    Shape590ccb(Wrap(resume), Wrap(success));
    hide WellFormed, Encode, Draft, ItemBytes, LittleEndian, Offset, Splice, EncodeConditionalJump, BranchesAt;
    Empty(p);
    var stub: seq<Byte> := [];
    MovEcxEbx();
    Appended(p, 0);
    stub := stub + [0x89, 0xD9];
    MovEaxR8();
    Appended(p, 1);
    stub := stub + [0x44, 0x89, 0xC0];
    TestDl();
    Appended(p, 2);
    stub := stub + [0x84, 0xD2];
    var jeToIndexed := |stub|;
    Reserved(p, 3);
    stub := stub + [0x0F, 0x84, 0, 0, 0, 0];
    LoadEaxSecondary();
    Appended(p, 4);
    stub := stub + [0x8B, 0x47, 0x20];
    ExitAppended(p, 5, Wrap(success));
    var toSuccess :- EncodeAbsoluteJump(success, None);
    stub := stub + toSuccess;
    var indexedAddress := trampoline + |stub|;
    ExitAppended(p, 7, Wrap(resume));
    var toResume :- EncodeAbsoluteJump(resume, None);
    stub := stub + toResume;
    stub := FillIn(stub, jeToIndexed, [0x0F, 0x84], trampoline, indexedAddress, p, {}, 3);
    Finished(p, {3}, {} + {3});
    assert p == Stub590ccb(resume, success);
    return Ok(stub);
  }

  lemma Shape590cf1(success: U64)
    ensures WellFormed(Stub590cf1(success))
    ensures BranchesAt(Stub590cf1(success), {})
  {
    hide Encode, Offset;
    CodeLengthBound(Stub590cf1(success));
  }

  method Build590cf1(success: int) returns (r: Result<seq<Byte>>)
    ensures r.Ok? <==> IsU64(success)
    ensures r.Err? ==> r.error == AddressOverflow
    ensures r.Ok? ==> WellFormed(Stub590cf1(success)) && r.value == Assemble(Stub590cf1(success)) && |r.value| <= STUB_ALLOCATION
  {
    ghost var p := Stub590cf1(Wrap(success));
    Shape590cf1(Wrap(success));
    hide WellFormed, Encode, Draft, ItemBytes, LittleEndian, Offset, Splice, EncodeConditionalJump, BranchesAt;
    Empty(p);
    var stub: seq<Byte> := [];
    MovEaxR9();
    Appended(p, 0);
    stub := stub + [0x44, 0x89, 0xC8];
    ExitAppended(p, 1, Wrap(success));
    var toSuccess :- EncodeAbsoluteJump(success, None);
    stub := stub + toSuccess;
    Finished(p, {}, {});
    assert p == Stub590cf1(success);
    return Ok(stub);
  }

  lemma Shape590de8(skip: U64, resume: U64)
    ensures WellFormed(Stub590de8(skip, resume))
    ensures BranchesAt(Stub590de8(skip, resume), {3, 5, 7, 9, 11, 13, 20, 22})
    ensures var p := Stub590de8(skip, resume);
            && |p| == 27
            && p[3] == Branch(NE, 23)
            && p[5] == Branch(NE, 23)
            && p[7] == Branch(E, 25)
            && p[9] == Branch(E, 19)
            && p[11] == Branch(E, 25)
            && p[13] == Branch(E, 25)
            && p[20] == Branch(NE, 25)
            && p[22] == Branch(NE, 25)
            && p[23] == Ins(Mov(W64, R(RAX), Imm(resume)), Std) && p[24] == Ins(JmpTo(R(RAX)), Std)
            && p[25] == Ins(Mov(W64, R(RAX), Imm(skip)), Std) && p[26] == Ins(JmpTo(R(RAX)), Std)
  {
    hide Encode, Offset;
    CodeLengthBound(Stub590de8(skip, resume));
  }

  /** Appends the checks of the record, and notes where its jumps were left. */
  method EmitRecord590de8(stub0: seq<Byte>, ghost p: Program) returns (stub: seq<Byte>, jneToGo1: nat, jneToGo2: nat, jeToSkip1: nat)
    requires WellFormed(p) && (exists skip: U64, resume: U64 :: p == Stub590de8(skip, resume)) && stub0 == Draft(p, 0, {}) && |stub0| == Offset(p, 0)
    ensures stub == Draft(p, 8, {}) && |stub| == Offset(p, 8) <= |stub0| + 47
    ensures jneToGo1 == Offset(p, 3) && jneToGo2 == Offset(p, 5) && jeToSkip1 == Offset(p, 7)
  {
    hide WellFormed, Encode, Draft, ItemBytes, LittleEndian, Offset, Splice, EncodeConditionalJump, BranchesAt;
    ghost var skip: U64, resume: U64 :| p == Stub590de8(skip, resume);
    stub := stub0;
    LoadPromoted();
    Appended(p, 0);
    stub := stub + [0x45, 0x0F, 0xB6, 0x8F, 0x34, 0x77, 0x00, 0x00];
    LeaRecord();
    Appended(p, 1);
    stub := stub + [0x4D, 0x8D, 0x87, 0x10, 0x77, 0x00, 0x00];
    TestR9b();
    Appended(p, 2);
    stub := stub + [0x45, 0x84, 0xC9];
    jneToGo1 := |stub|;
    Reserved(p, 3);
    stub := stub + [0x0F, 0x85, 0, 0, 0, 0];
    CmpVectorZero();
    Appended(p, 4);
    stub := stub + [0x49, 0x83, 0xBF, 0xD8, 0x77, 0x00, 0x00, 0x00];
    jneToGo2 := |stub|;
    Reserved(p, 5);
    stub := stub + [0x0F, 0x85, 0, 0, 0, 0];
    TestRdi();
    Appended(p, 6);
    stub := stub + [0x48, 0x85, 0xFF];
    jeToSkip1 := |stub|;
    Reserved(p, 7);
    stub := stub + [0x0F, 0x84, 0, 0, 0, 0];
    DraftLength(p, 8);
  }

  /** Appends the checks of the path base, and notes where its jumps were left. */
  method EmitPath590de8(stub0: seq<Byte>, ghost p: Program) returns (stub: seq<Byte>, jeToEmpty: nat, jeToSkip2: nat, jeToSkip3: nat)
    requires WellFormed(p) && (exists skip: U64, resume: U64 :: p == Stub590de8(skip, resume)) && stub0 == Draft(p, 8, {}) && |stub0| == Offset(p, 8)
    ensures stub == Draft(p, 14, {}) && |stub| == Offset(p, 14) <= |stub0| + 29
    ensures jeToEmpty == Offset(p, 9) && jeToSkip2 == Offset(p, 11) && jeToSkip3 == Offset(p, 13)
  {
    hide WellFormed, Encode, Draft, ItemBytes, LittleEndian, Offset, Splice, EncodeConditionalJump, BranchesAt;
    ghost var skip: U64, resume: U64 :| p == Stub590de8(skip, resume);
    stub := stub0;
    CmpPathFlag();
    Appended(p, 8);
    stub := stub + [0x80, 0x7F, 0x24, 0x00];
    jeToEmpty := |stub|;
    Reserved(p, 9);
    stub := stub + [0x0F, 0x84, 0, 0, 0, 0];
    CmpPrimary();
    Appended(p, 10);
    stub := stub + [0x83, 0x3F, 0x00];
    jeToSkip2 := |stub|;
    Reserved(p, 11);
    stub := stub + [0x0F, 0x84, 0, 0, 0, 0];
    CmpSecondary();
    Appended(p, 12);
    stub := stub + [0x83, 0x7F, 0x20, 0x00];
    jeToSkip3 := |stub|;
    Reserved(p, 13);
    stub := stub + [0x0F, 0x84, 0, 0, 0, 0];
    DraftLength(p, 14);
  }

  /** Appends the promotion and the checks after it, and notes where its jumps were left. */
  method EmitPromote590de8(trampoline: int, stub0: seq<Byte>, ghost p: Program) returns (stub: seq<Byte>, jneToSkip1: nat, jneToSkip2: nat, emptyAddress: int)
    requires WellFormed(p) && (exists skip: U64, resume: U64 :: p == Stub590de8(skip, resume)) && stub0 == Draft(p, 14, {}) && |stub0| == Offset(p, 14)
    ensures stub == Draft(p, 23, {}) && |stub| == Offset(p, 23) <= |stub0| + 55
    ensures jneToSkip1 == Offset(p, 20) && jneToSkip2 == Offset(p, 22) && emptyAddress == trampoline + Offset(p, 19)
  {
    hide WellFormed, Encode, Draft, ItemBytes, LittleEndian, Offset, Splice, EncodeConditionalJump, BranchesAt;
    ghost var skip: U64, resume: U64 :| p == Stub590de8(skip, resume);
    stub := stub0;
    LoadEaxPrimary();
    Appended(p, 14);
    stub := stub + [0x8B, 0x07];
    StorePrimary();
    Appended(p, 15);
    stub := stub + [0x41, 0x89, 0x87, 0x10, 0x77, 0x00, 0x00];
    LoadEaxSecondary();
    Appended(p, 16);
    stub := stub + [0x8B, 0x47, 0x20];
    StoreSecondary();
    Appended(p, 17);
    stub := stub + [0x41, 0x89, 0x87, 0x30, 0x77, 0x00, 0x00];
    StorePromoted();
    Appended(p, 18);
    stub := stub + [0x41, 0xC6, 0x87, 0x34, 0x77, 0x00, 0x00, 0x01];
    emptyAddress := trampoline + |stub|;
    CmpFirstVector();
    Appended(p, 19);
    stub := stub + [0x48, 0x83, 0xBF, 0x98, 0x00, 0x00, 0x00, 0x00];
    jneToSkip1 := |stub|;
    Reserved(p, 20);
    stub := stub + [0x0F, 0x85, 0, 0, 0, 0];
    CmpSecondVector();
    Appended(p, 21);
    stub := stub + [0x48, 0x83, 0xBF, 0xC8, 0x00, 0x00, 0x00, 0x00];
    jneToSkip2 := |stub|;
    Reserved(p, 22);
    stub := stub + [0x0F, 0x85, 0, 0, 0, 0];
    DraftLength(p, 23);
  }

  method Build590de8(trampoline: int, skip: int, resume: int) returns (r: Result<seq<Byte>>)
    ensures r.Ok? <==> IsU64(skip) && IsU64(resume)
    ensures r.Err? ==> r.error == AddressOverflow
    ensures r.Ok? ==> WellFormed(Stub590de8(skip, resume)) && r.value == Assemble(Stub590de8(skip, resume)) && |r.value| <= STUB_ALLOCATION
  {
    ghost var p := Stub590de8(Wrap(skip), Wrap(resume));
    Shape590de8(Wrap(skip), Wrap(resume));
    hide WellFormed, Encode, Draft, ItemBytes, LittleEndian, Offset, Splice, EncodeConditionalJump, BranchesAt, Stub590de8;
    Empty(p);
    var stub: seq<Byte> := [];
    var stubRecord, jneToGo1, jneToGo2, jeToSkip1 := EmitRecord590de8(stub, p);
    stub := stubRecord;
    var stubPath, jeToEmpty, jeToSkip2, jeToSkip3 := EmitPath590de8(stub, p);
    stub := stubPath;
    var stubPromote, jneToSkip1, jneToSkip2, emptyAddress := EmitPromote590de8(trampoline, stub, p);
    stub := stubPromote;
    var goAddress := trampoline + |stub|;
    ExitAppended(p, 23, Wrap(resume));
    var toResume :- EncodeAbsoluteJump(resume, None);
    stub := stub + toResume;
    var skipAddress := trampoline + |stub|;
    ExitAppended(p, 25, Wrap(skip));
    var toSkip :- EncodeAbsoluteJump(skip, None);
    stub := stub + toSkip;
    stub := FillIn(stub, jneToGo1, [0x0F, 0x85], trampoline, goAddress, p, {}, 3);
    stub := FillIn(stub, jneToGo2, [0x0F, 0x85], trampoline, goAddress, p, {} + {3}, 5);
    stub := FillIn(stub, jeToSkip1, [0x0F, 0x84], trampoline, skipAddress, p, {} + {3} + {5}, 7);
    stub := FillIn(stub, jeToEmpty, [0x0F, 0x84], trampoline, emptyAddress, p, {} + {3} + {5} + {7}, 9);
    stub := FillIn(stub, jeToSkip2, [0x0F, 0x84], trampoline, skipAddress, p, {} + {3} + {5} + {7} + {9}, 11);
    stub := FillIn(stub, jeToSkip3, [0x0F, 0x84], trampoline, skipAddress, p, {} + {3} + {5} + {7} + {9} + {11}, 13);
    stub := FillIn(stub, jneToSkip1, [0x0F, 0x85], trampoline, skipAddress, p, {} + {3} + {5} + {7} + {9} + {11} + {13}, 20);
    stub := FillIn(stub, jneToSkip2, [0x0F, 0x85], trampoline, skipAddress, p, {} + {3} + {5} + {7} + {9} + {11} + {13} + {20}, 22);
    Finished(p, {3, 5, 7, 9, 11, 13, 20, 22}, {} + {3} + {5} + {7} + {9} + {11} + {13} + {20} + {22});
    assert p == Stub590de8(skip, resume);
    return Ok(stub);
  }

  lemma Shape590ec9(resume: U64)
    ensures WellFormed(Stub590ec9(resume))
    ensures BranchesAt(Stub590ec9(resume), {3, 5, 7})
  {
    hide Encode, Offset;
    CodeLengthBound(Stub590ec9(resume));
  }

  method Build590ec9(trampoline: int, resume: int) returns (r: Result<seq<Byte>>)
    ensures r.Ok? <==> IsU64(resume)
    ensures r.Err? ==> r.error == AddressOverflow
    ensures r.Ok? ==> WellFormed(Stub590ec9(resume)) && r.value == Assemble(Stub590ec9(resume)) && |r.value| <= STUB_ALLOCATION
  {
    ghost var p := Stub590ec9(Wrap(resume));
    Shape590ec9(Wrap(resume));
    hide WellFormed, Encode, Draft, ItemBytes, LittleEndian, Offset, Splice, EncodeConditionalJump, BranchesAt;
    Empty(p);
    var stub: seq<Byte> := [];
    ShlRaxFive();
    Appended(p, 0);
    stub := stub + [0x48, 0xC1, 0xE0, 0x05];
    LoadSlot();
    Appended(p, 1);
    stub := stub + [0x4A, 0x8B, 0x84, 0x18, 0x10, 0x0C, 0x01, 0x00];
    TestRax();
    Appended(p, 2);
    stub := stub + [0x48, 0x85, 0xC0];
    var jeToMissing1 := |stub|;
    Reserved(p, 3);
    stub := stub + [0x0F, 0x84, 0, 0, 0, 0];
    CmpRaxMinusOne();
    Appended(p, 4);
    stub := stub + [0x48, 0x83, 0xF8, 0xFF];
    var jeToMissing2 := |stub|;
    Reserved(p, 5);
    stub := stub + [0x0F, 0x84, 0, 0, 0, 0];
    CmpRax64K();
    Appended(p, 6);
    stub := stub + [0x48, 0x3D, 0x00, 0x00, 0x01, 0x00];
    var jbToMissing := |stub|;
    Reserved(p, 7);
    stub := stub + [0x0F, 0x82, 0, 0, 0, 0];
    LoadState();
    Appended(p, 8);
    stub := stub + [0x0F, 0xB6, 0x54, 0x18, 0x01];
    ExitAppended(p, 9, Wrap(resume));
    var toResume :- EncodeAbsoluteJump(resume, None);
    stub := stub + toResume;
    var missingAddress := trampoline + |stub|;
    XorEdx();
    Appended(p, 11);
    stub := stub + [0x31, 0xD2];
    ExitAppended(p, 12, Wrap(resume));
    stub := stub + toResume;
    stub := FillIn(stub, jeToMissing1, [0x0F, 0x84], trampoline, missingAddress, p, {}, 3);
    stub := FillIn(stub, jeToMissing2, [0x0F, 0x84], trampoline, missingAddress, p, {} + {3}, 5);
    stub := FillIn(stub, jbToMissing, [0x0F, 0x82], trampoline, missingAddress, p, {} + {3} + {5}, 7);
    Finished(p, {3, 5, 7}, {} + {3} + {5} + {7});
    assert p == Stub590ec9(resume);
    return Ok(stub);
  }

  lemma Shape2ab698(skip: U64, resume: U64)
    ensures WellFormed(Stub2ab698(skip, resume))
    ensures BranchesAt(Stub2ab698(skip, resume), {2})
  {
    hide Encode, Offset;
    CodeLengthBound(Stub2ab698(skip, resume));
  }

  method Build2ab698(trampoline: int, skip: int, resume: int) returns (r: Result<seq<Byte>>)
    ensures r.Ok? <==> IsU64(skip) && IsU64(resume)
    ensures r.Err? ==> r.error == AddressOverflow
    ensures r.Ok? ==> WellFormed(Stub2ab698(skip, resume)) && r.value == Assemble(Stub2ab698(skip, resume)) && |r.value| <= STUB_ALLOCATION
  {
    ghost var p := Stub2ab698(Wrap(skip), Wrap(resume));
    Shape2ab698(Wrap(skip), Wrap(resume));
    hide WellFormed, Encode, Draft, ItemBytes, LittleEndian, Offset, Splice, EncodeConditionalJump, BranchesAt;
    Empty(p);
    var stub: seq<Byte> := [];
    LoadRsi();
    Appended(p, 0);
    stub := stub + [0x48, 0x8B, 0x72, 0x08];
    TestRsi();
    Appended(p, 1);
    stub := stub + [0x48, 0x85, 0xF6];
    var jeToSkip := |stub|;
    Reserved(p, 2);
    stub := stub + [0x0F, 0x84, 0, 0, 0, 0];
    MovR15Rdx();
    Appended(p, 3);
    stub := stub + [0x4C, 0x8B, 0xFA];
    MovR14Rcx();
    Appended(p, 4);
    stub := stub + [0x4C, 0x8B, 0xF1];
    LeaRdxR11();
    Appended(p, 5);
    stub := stub + [0x49, 0x8D, 0x53, 0xA8];
    AddRcx();
    Appended(p, 6);
    stub := stub + [0x48, 0x83, 0xC1, 0x20];
    MovEdiR8();
    Appended(p, 7);
    stub := stub + [0x41, 0x8B, 0xF8];
    ExitAppended(p, 8, Wrap(resume));
    var toResume :- EncodeAbsoluteJump(resume, None);
    stub := stub + toResume;
    var skipAddress := trampoline + |stub|;
    ExitAppended(p, 10, Wrap(skip));
    var toSkip :- EncodeAbsoluteJump(skip, None);
    stub := stub + toSkip;
    stub := FillIn(stub, jeToSkip, [0x0F, 0x84], trampoline, skipAddress, p, {}, 2);
    Finished(p, {2}, {} + {2});
    assert p == Stub2ab698(skip, resume);
    return Ok(stub);
  }

  lemma Shape3699b2(skip: U64, resume: U64)
    ensures WellFormed(Stub3699b2(skip, resume))
    ensures BranchesAt(Stub3699b2(skip, resume), {3, 5, 10, 13, 15, 20})
    ensures var p := Stub3699b2(skip, resume);
            && |p| == 29
            && p[3] == Branch(E, 25)
            && p[5] == Branch(B, 25)
            && p[10] == Branch(NE, 25)
            && p[13] == Branch(E, 25)
            && p[15] == Branch(B, 25)
            && p[20] == Branch(NE, 25)
            && p[23] == Ins(Mov(W64, R(RAX), Imm(resume)), Std) && p[24] == Ins(JmpTo(R(RAX)), Std)
            && p[25] == Ins(Alu(Xor, W32, R(RAX), From(R(RAX))), Std)
            && p[26] == Ins(Mov(W32, At(RCX, 0x10), From(R(RAX))), Std)
            && p[27] == Ins(Mov(W64, R(RAX), Imm(skip)), Std) && p[28] == Ins(JmpTo(R(RAX)), Std)
  {
    hide Encode, Offset;
    CodeLengthBound(Stub3699b2(skip, resume));
  }

  /** Appends the first pointer, and notes where its jumps were left. */
  method EmitFirst3699b2(stub0: seq<Byte>, ghost p: Program) returns (stub: seq<Byte>, jeToBad1: nat, jbToBad1: nat, jneToBad1: nat)
    requires WellFormed(p) && (exists skip: U64, resume: U64 :: p == Stub3699b2(skip, resume)) && stub0 == Draft(p, 0, {}) && |stub0| == Offset(p, 0)
    ensures stub == Draft(p, 11, {}) && |stub| == Offset(p, 11) <= |stub0| + 49
    ensures jeToBad1 == Offset(p, 3) && jbToBad1 == Offset(p, 5) && jneToBad1 == Offset(p, 10)
  {
    hide WellFormed, Encode, Draft, ItemBytes, LittleEndian, Offset, Splice, EncodeConditionalJump, BranchesAt;
    ghost var skip: U64, resume: U64 :| p == Stub3699b2(skip, resume);
    stub := stub0;
    LoadR10();
    Appended(p, 0);
    stub := stub + [0x4C, 0x8B, 0x11];
    StoreR8d();
    Appended(p, 1);
    stub := stub + [0x44, 0x89, 0x41, 0x0C];
    TestR10();
    Appended(p, 2);
    stub := stub + [0x4D, 0x85, 0xD2];
    jeToBad1 := |stub|;
    Reserved(p, 3);
    stub := stub + [0x0F, 0x84, 0, 0, 0, 0];
    CmpR1064K();
    Appended(p, 4);
    stub := stub + [0x49, 0x81, 0xFA, 0x00, 0x00, 0x01, 0x00];
    jbToBad1 := |stub|;
    Reserved(p, 5);
    stub := stub + [0x0F, 0x82, 0, 0, 0, 0];
    MovRaxR10();
    Appended(p, 6);
    stub := stub + [0x4C, 0x89, 0xD0];
    ShlRax16();
    Appended(p, 7);
    stub := stub + [0x48, 0xC1, 0xE0, 0x10];
    SarRax16();
    Appended(p, 8);
    stub := stub + [0x48, 0xC1, 0xF8, 0x10];
    CmpRaxR10();
    Appended(p, 9);
    stub := stub + [0x4C, 0x39, 0xD0];
    jneToBad1 := |stub|;
    Reserved(p, 10);
    stub := stub + [0x0F, 0x85, 0, 0, 0, 0];
    DraftLength(p, 11);
  }

  /** Appends the second pointer, and notes where its jumps were left. */
  method EmitSecond3699b2(stub0: seq<Byte>, ghost p: Program) returns (stub: seq<Byte>, jeToBad2: nat, jbToBad2: nat, jneToBad2: nat)
    requires WellFormed(p) && (exists skip: U64, resume: U64 :: p == Stub3699b2(skip, resume)) && stub0 == Draft(p, 11, {}) && |stub0| == Offset(p, 11)
    ensures stub == Draft(p, 21, {}) && |stub| == Offset(p, 21) <= |stub0| + 46
    ensures jeToBad2 == Offset(p, 13) && jbToBad2 == Offset(p, 15) && jneToBad2 == Offset(p, 20)
  {
    hide WellFormed, Encode, Draft, ItemBytes, LittleEndian, Offset, Splice, EncodeConditionalJump, BranchesAt;
    ghost var skip: U64, resume: U64 :| p == Stub3699b2(skip, resume);
    stub := stub0;
    LoadRbx();
    Appended(p, 11);
    stub := stub + [0x49, 0x8B, 0x5A, 0x18];
    TestRbx();
    Appended(p, 12);
    stub := stub + [0x48, 0x85, 0xDB];
    jeToBad2 := |stub|;
    Reserved(p, 13);
    stub := stub + [0x0F, 0x84, 0, 0, 0, 0];
    CmpRbx64K();
    Appended(p, 14);
    stub := stub + [0x48, 0x81, 0xFB, 0x00, 0x00, 0x01, 0x00];
    jbToBad2 := |stub|;
    Reserved(p, 15);
    stub := stub + [0x0F, 0x82, 0, 0, 0, 0];
    MovRaxRbx();
    Appended(p, 16);
    stub := stub + [0x48, 0x89, 0xD8];
    ShlRax16();
    Appended(p, 17);
    stub := stub + [0x48, 0xC1, 0xE0, 0x10];
    SarRax16();
    Appended(p, 18);
    stub := stub + [0x48, 0xC1, 0xF8, 0x10];
    CmpRaxRbx();
    Appended(p, 19);
    stub := stub + [0x48, 0x39, 0xD8];
    jneToBad2 := |stub|;
    Reserved(p, 20);
    stub := stub + [0x0F, 0x85, 0, 0, 0, 0];
    DraftLength(p, 21);
  }

  /** Appends the zeroed result registers, and notes where its jumps were left. */
  method EmitClear3699b2(stub0: seq<Byte>, ghost p: Program) returns (stub: seq<Byte>)
    requires WellFormed(p) && (exists skip: U64, resume: U64 :: p == Stub3699b2(skip, resume)) && stub0 == Draft(p, 21, {}) && |stub0| == Offset(p, 21)
    ensures stub == Draft(p, 23, {}) && |stub| == Offset(p, 23) <= |stub0| + 4
  {
    hide WellFormed, Encode, Draft, ItemBytes, LittleEndian, Offset, Splice, EncodeConditionalJump, BranchesAt;
    ghost var skip: U64, resume: U64 :| p == Stub3699b2(skip, resume);
    stub := stub0;
    XorEcx();
    Appended(p, 21);
    stub := stub + [0x33, 0xC9];
    MovEaxEcx();
    Appended(p, 22);
    stub := stub + [0x8B, 0xC1];
    DraftLength(p, 23);
  }

  method Build3699b2(trampoline: int, skip: int, resume: int) returns (r: Result<seq<Byte>>)
    ensures r.Ok? <==> IsU64(skip) && IsU64(resume)
    ensures r.Err? ==> r.error == AddressOverflow
    ensures r.Ok? ==> WellFormed(Stub3699b2(skip, resume)) && r.value == Assemble(Stub3699b2(skip, resume)) && |r.value| <= STUB_ALLOCATION
  {
    ghost var p := Stub3699b2(Wrap(skip), Wrap(resume));
    Shape3699b2(Wrap(skip), Wrap(resume));
    hide WellFormed, Encode, Draft, ItemBytes, LittleEndian, Offset, Splice, EncodeConditionalJump, BranchesAt, Stub3699b2;
    Empty(p);
    var stub: seq<Byte> := [];
    var stubFirst, jeToBad1, jbToBad1, jneToBad1 := EmitFirst3699b2(stub, p);
    stub := stubFirst;
    var stubSecond, jeToBad2, jbToBad2, jneToBad2 := EmitSecond3699b2(stub, p);
    stub := stubSecond;
    var stubClear := EmitClear3699b2(stub, p);
    stub := stubClear;
    ExitAppended(p, 23, Wrap(resume));
    var toResume :- EncodeAbsoluteJump(resume, None);
    stub := stub + toResume;
    var badAddress := trampoline + |stub|;
    XorEax();
    Appended(p, 25);
    stub := stub + [0x31, 0xC0];
    StoreZeroResult();
    Appended(p, 26);
    stub := stub + [0x89, 0x41, 0x10];
    ExitAppended(p, 27, Wrap(skip));
    var toSkip :- EncodeAbsoluteJump(skip, None);
    stub := stub + toSkip;
    stub := FillIn(stub, jeToBad1, [0x0F, 0x84], trampoline, badAddress, p, {}, 3);
    stub := FillIn(stub, jbToBad1, [0x0F, 0x82], trampoline, badAddress, p, {} + {3}, 5);
    stub := FillIn(stub, jneToBad1, [0x0F, 0x85], trampoline, badAddress, p, {} + {3} + {5}, 10);
    stub := FillIn(stub, jeToBad2, [0x0F, 0x84], trampoline, badAddress, p, {} + {3} + {5} + {10}, 13);
    stub := FillIn(stub, jbToBad2, [0x0F, 0x82], trampoline, badAddress, p, {} + {3} + {5} + {10} + {13}, 15);
    stub := FillIn(stub, jneToBad2, [0x0F, 0x85], trampoline, badAddress, p, {} + {3} + {5} + {10} + {13} + {15}, 20);
    Finished(p, {3, 5, 10, 13, 15, 20}, {} + {3} + {5} + {10} + {13} + {15} + {20});
    assert p == Stub3699b2(skip, resume);
    return Ok(stub);
  }

  lemma Shape5902d5(skip: U64, resume: U64)
    ensures WellFormed(Stub5902d5(skip, resume))
    ensures BranchesAt(Stub5902d5(skip, resume), {1, 4, 6})
  {
    hide Encode, Offset;
    CodeLengthBound(Stub5902d5(skip, resume));
  }

  method Build5902d5(trampoline: int, skip: int, resume: int) returns (r: Result<seq<Byte>>)
    ensures r.Ok? <==> IsU64(skip) && IsU64(resume)
    ensures r.Err? ==> r.error == AddressOverflow
    ensures r.Ok? ==> WellFormed(Stub5902d5(skip, resume)) && r.value == Assemble(Stub5902d5(skip, resume)) && |r.value| <= STUB_ALLOCATION
  {
    ghost var p := Stub5902d5(Wrap(skip), Wrap(resume));
    Shape5902d5(Wrap(skip), Wrap(resume));
    hide WellFormed, Encode, Draft, ItemBytes, LittleEndian, Offset, Splice, EncodeConditionalJump, BranchesAt;
    Empty(p);
    var stub: seq<Byte> := [];
    CmpR10bOne();
    Appended(p, 0);
    stub := stub + [0x41, 0x80, 0xFA, 0x01];
    var jneToGo := trampoline + |stub|;
    Reserved(p, 1);
    stub := stub + [0x0F, 0x85, 0, 0, 0, 0];
    LoadR9Flag();
    Appended(p, 2);
    stub := stub + [0x44, 0x0F, 0xB6, 0x8A, 0x34, 0x77, 0x00, 0x00];
    TestR9b();
    Appended(p, 3);
    stub := stub + [0x45, 0x84, 0xC9];
    var jneToSkip1 := trampoline + |stub|;
    Reserved(p, 4);
    stub := stub + [0x0F, 0x85, 0, 0, 0, 0];
    CmpRdxVector();
    Appended(p, 5);
    stub := stub + [0x48, 0x83, 0xBA, 0xD8, 0x77, 0x00, 0x00, 0x00];
    var jneToSkip2 := trampoline + |stub|;
    Reserved(p, 6);
    stub := stub + [0x0F, 0x85, 0, 0, 0, 0];
    var goAddress := trampoline + |stub|;
    LoadRaxR8();
    Appended(p, 7);
    stub := stub + [0x49, 0x8B, 0x00];
    ExitAppended(p, 8, Wrap(resume));
    var toResume :- EncodeAbsoluteJump(resume, None);
    stub := stub + toResume;
    var skipAddress := trampoline + |stub|;
    ExitAppended(p, 10, Wrap(skip));
    var toSkip :- EncodeAbsoluteJump(skip, None);
    stub := stub + toSkip;
    Patched(p, {}, 1, trampoline);
    var patch1 := EncodeConditionalJump([0x0F, 0x85], jneToGo, goAddress);
    stub := Splice(stub, 4, patch1.value);
    Patched(p, {} + {1}, 4, trampoline);
    var patch4 := EncodeConditionalJump([0x0F, 0x85], jneToSkip1, skipAddress);
    stub := Splice(stub, 21, patch4.value);
    Patched(p, {} + {1} + {4}, 6, trampoline);
    var patch6 := EncodeConditionalJump([0x0F, 0x85], jneToSkip2, skipAddress);
    stub := Splice(stub, 35, patch6.value);
    Finished(p, {1, 4, 6}, {} + {1} + {4} + {6});
    assert p == Stub5902d5(skip, resume);
    return Ok(stub);
  }
}
