/**
 The original bytes each guarded site must hold before it is patched, and proofs that these are
 the displaced instructions, assembled.
 */
module GuardedSites {
  import opened Words
  import opened InstructionEncoding
  import opened Programs
  import opened Spelling
  import opened Stubs

  const EXPECTED_59002D: seq<Byte> := [0x48, 0x8B, 0x53, 0x10, 0x48, 0x8D, 0x4C, 0x24, 0x40, 0x4C, 0x89, 0x64, 0x24, 0x48]
  const EXPECTED_5902D5: seq<Byte> := [0x41, 0x80, 0xFA, 0x01, 0x0F, 0x84, 0xDE, 0x00, 0x00, 0x00, 0x49, 0x8B, 0x00]
  const EXPECTED_590C58: seq<Byte> := [0x48, 0x8B, 0x91, 0xD0, 0x30, 0x00, 0x00, 0x4C, 0x3B, 0x52, 0x10, 0x73, 0x0D]
  const EXPECTED_58FA83: seq<Byte> := [0x48, 0x8B, 0x81, 0xD0, 0x30, 0x00, 0x00, 0x41, 0x8B, 0xD5, 0x44, 0x8B, 0x20]
  const EXPECTED_59C1EA: seq<Byte> := [0x49, 0x83, 0xFE, 0x41, 0x74, 0x2B, 0x48, 0x85, 0xDB, 0x74, 0x0D, 0x4D, 0x85, 0xF6, 0x74, 0x08]
  const EXPECTED_59C2A0: seq<Byte> := [0x41, 0x0F, 0xB6, 0x44, 0x08, 0x01, 0x38, 0x01, 0x0F, 0x85, 0xA1, 0x03, 0x00, 0x00]
  const EXPECTED_590C72: seq<Byte> := [0x44, 0x8B, 0x04, 0x25, 0x00, 0x00, 0x00, 0x00, 0x48, 0x8B, 0xCE, 0x44, 0x8B, 0x49, 0x04]
  const EXPECTED_5927F2: seq<Byte> := [0x48, 0x8B, 0x38, 0x4C, 0x89, 0x38, 0x48, 0x85, 0xFF, 0x74, 0x29, 0x48, 0x8D, 0x4F, 0x08]
  const EXPECTED_590CCB: seq<Byte> := [0x41, 0x3B, 0xC0, 0x75, 0x2A, 0x84, 0xD2, 0x74, 0x05, 0x8B, 0x47, 0x20, 0xEB, 0x18]
  const EXPECTED_590CF1: seq<Byte> := [0x41, 0x3B, 0xC1, 0x0F, 0x84, 0xD1, 0x00, 0x00, 0x00, 0x0F, 0x57, 0xC0]
  const EXPECTED_590DE8: seq<Byte> := [0x45, 0x0F, 0xB6, 0x8F, 0x34, 0x77, 0x00, 0x00, 0x4D, 0x8D, 0x87, 0x10, 0x77, 0x00, 0x00, 0x45, 0x84, 0xC9, 0x75, 0x0D, 0x49, 0x39, 0xB7, 0xD8, 0x77, 0x00, 0x00, 0x0F, 0x84, 0xBD, 0x00, 0x00, 0x00]
  const EXPECTED_590EC9: seq<Byte> := [0x48, 0xC1, 0xE0, 0x05, 0x4A, 0x8B, 0x84, 0x18, 0x10, 0x0C, 0x01, 0x00, 0x0F, 0xB6, 0x54, 0x18, 0x01]
  const EXPECTED_2AB698: seq<Byte> := [0x48, 0x8B, 0x72, 0x08, 0x4C, 0x8B, 0xFA, 0x4C, 0x8B, 0xF1, 0x49, 0x8D, 0x53, 0xA8, 0x48, 0x83, 0xC1, 0x20, 0x41, 0x8B, 0xF8]
  const EXPECTED_3699B2: seq<Byte> := [0x4C, 0x8B, 0x11, 0x44, 0x89, 0x41, 0x0C, 0x49, 0x8B, 0x5A, 0x18, 0x33, 0xC9, 0x8B, 0xC1]

  lemma LaidNone(p: Program)
    requires WellFormed(p)
    ensures Layout(p, 0) == []
  {
  }

  lemma Laid(p: Program, k: nat)
    requires WellFormed(p) && k < |p| && p[k].Ins?
    ensures Layout(p, k + 1) == Layout(p, k) + Encode(p[k].instr, p[k].form)
  {
    hide Encode, WellFormed;
  }

  lemma Encodable59002d()
    ensures WellFormed(Displaced59002d())
  {
    hide Encode, Offset;
    CodeLengthBound(Displaced59002d());
  }

  lemma Expected59002d()
    ensures WellFormed(Displaced59002d()) && Assemble(Displaced59002d()) == EXPECTED_59002D
  {
    hide Encode, WellFormed, Layout;
    var p := Displaced59002d();
    Encodable59002d();
    LaidNone(p);
    LoadRdxRbx();
    Laid(p, 0);
    assert Layout(p, 1) == [0x48, 0x8B, 0x53, 0x10];
    LeaRcxRsp();
    Laid(p, 1);
    assert Layout(p, 2) == [0x48, 0x8B, 0x53, 0x10, 0x48, 0x8D, 0x4C, 0x24, 0x40];
    StoreRspR12();
    Laid(p, 2);
    assert Layout(p, 3) == EXPECTED_59002D;
  }

  lemma Encodable5902d5()
    ensures WellFormed(Displaced5902d5())
  {
    hide Encode, Offset;
    CodeLengthBound(Displaced5902d5());
  }

  lemma Expected5902d5()
    ensures WellFormed(Displaced5902d5()) && Assemble(Displaced5902d5()) == EXPECTED_5902D5
  {
    hide Encode, WellFormed, Layout;
    var p := Displaced5902d5();
    Encodable5902d5();
    LaidNone(p);
    CmpR10bOne();
    Laid(p, 0);
    assert Layout(p, 1) == [0x41, 0x80, 0xFA, 0x01];
    JeNearDE();
    Laid(p, 1);
    assert Layout(p, 2) == [0x41, 0x80, 0xFA, 0x01, 0x0F, 0x84, 0xDE, 0x00, 0x00, 0x00];
    LoadRaxR8();
    Laid(p, 2);
    assert Layout(p, 3) == EXPECTED_5902D5;
  }

  lemma Encodable590c58()
    ensures WellFormed(Displaced590c58())
  {
    hide Encode, Offset;
    CodeLengthBound(Displaced590c58());
  }

  lemma Expected590c58()
    ensures WellFormed(Displaced590c58()) && Assemble(Displaced590c58()) == EXPECTED_590C58
  {
    hide Encode, WellFormed, Layout;
    var p := Displaced590c58();
    Encodable590c58();
    LaidNone(p);
    LoadRdxTable();
    Laid(p, 0);
    assert Layout(p, 1) == [0x48, 0x8B, 0x91, 0xD0, 0x30, 0x00, 0x00];
    CmpR10Length();
    Laid(p, 1);
    assert Layout(p, 2) == [0x48, 0x8B, 0x91, 0xD0, 0x30, 0x00, 0x00, 0x4C, 0x3B, 0x52, 0x10];
    JaeShort0D();
    Laid(p, 2);
    assert Layout(p, 3) == EXPECTED_590C58;
  }

  lemma Encodable58fa83()
    ensures WellFormed(Displaced58fa83())
  {
    hide Encode, Offset;
    CodeLengthBound(Displaced58fa83());
  }

  lemma Expected58fa83()
    ensures WellFormed(Displaced58fa83()) && Assemble(Displaced58fa83()) == EXPECTED_58FA83
  {
    hide Encode, WellFormed, Layout;
    var p := Displaced58fa83();
    Encodable58fa83();
    LaidNone(p);
    LoadRaxTable();
    Laid(p, 0);
    assert Layout(p, 1) == [0x48, 0x8B, 0x81, 0xD0, 0x30, 0x00, 0x00];
    MovEdxR13();
    Laid(p, 1);
    assert Layout(p, 2) == [0x48, 0x8B, 0x81, 0xD0, 0x30, 0x00, 0x00, 0x41, 0x8B, 0xD5];
    LoadR12Rax();
    Laid(p, 2);
    assert Layout(p, 3) == EXPECTED_58FA83;
  }

  lemma Encodable59c2a0()
    ensures WellFormed(Displaced59c2a0())
  {
    hide Encode, Offset;
    CodeLengthBound(Displaced59c2a0());
  }

  lemma Expected59c2a0()
    ensures WellFormed(Displaced59c2a0()) && Assemble(Displaced59c2a0()) == EXPECTED_59C2A0
  {
    hide Encode, WellFormed, Layout;
    var p := Displaced59c2a0();
    Encodable59c2a0();
    LaidNone(p);
    LoadCompared();
    Laid(p, 0);
    assert Layout(p, 1) == [0x41, 0x0F, 0xB6, 0x44, 0x08, 0x01];
    CmpRcxAl();
    Laid(p, 1);
    assert Layout(p, 2) == [0x41, 0x0F, 0xB6, 0x44, 0x08, 0x01, 0x38, 0x01];
    JneNearFail();
    Laid(p, 2);
    assert Layout(p, 3) == EXPECTED_59C2A0;
  }

  lemma Encodable590de8()
    ensures WellFormed(Displaced590de8())
  {
    hide Encode, Offset;
    CodeLengthBound(Displaced590de8());
  }

  lemma Expected590de8()
    ensures WellFormed(Displaced590de8()) && Assemble(Displaced590de8()) == EXPECTED_590DE8
  {
    hide Encode, WellFormed, Layout;
    var p := Displaced590de8();
    Encodable590de8();
    LaidNone(p);
    LoadPromoted();
    Laid(p, 0);
    assert Layout(p, 1) == [0x45, 0x0F, 0xB6, 0x8F, 0x34, 0x77, 0x00, 0x00];
    LeaRecord();
    Laid(p, 1);
    assert Layout(p, 2) == [0x45, 0x0F, 0xB6, 0x8F, 0x34, 0x77, 0x00, 0x00, 0x4D, 0x8D, 0x87, 0x10, 0x77, 0x00, 0x00];
    TestR9b();
    Laid(p, 2);
    assert Layout(p, 3) == [0x45, 0x0F, 0xB6, 0x8F, 0x34, 0x77, 0x00, 0x00, 0x4D, 0x8D, 0x87, 0x10, 0x77, 0x00, 0x00, 0x45, 0x84, 0xC9];
    JneShort0D();
    Laid(p, 3);
    assert Layout(p, 4) == [0x45, 0x0F, 0xB6, 0x8F, 0x34, 0x77, 0x00, 0x00, 0x4D, 0x8D, 0x87, 0x10, 0x77, 0x00, 0x00, 0x45, 0x84, 0xC9, 0x75, 0x0D];
    CmpVectorRsi();
    Laid(p, 4);
    assert Layout(p, 5) == [0x45, 0x0F, 0xB6, 0x8F, 0x34, 0x77, 0x00, 0x00, 0x4D, 0x8D, 0x87, 0x10, 0x77, 0x00, 0x00, 0x45, 0x84, 0xC9, 0x75, 0x0D, 0x49, 0x39, 0xB7, 0xD8, 0x77, 0x00, 0x00];
    JeNearBD();
    Laid(p, 5);
    assert Layout(p, 6) == EXPECTED_590DE8;
  }

  lemma Encodable590ec9()
    ensures WellFormed(Displaced590ec9())
  {
    hide Encode, Offset;
    CodeLengthBound(Displaced590ec9());
  }

  lemma Expected590ec9()
    ensures WellFormed(Displaced590ec9()) && Assemble(Displaced590ec9()) == EXPECTED_590EC9
  {
    hide Encode, WellFormed, Layout;
    var p := Displaced590ec9();
    Encodable590ec9();
    LaidNone(p);
    ShlRaxFive();
    Laid(p, 0);
    assert Layout(p, 1) == [0x48, 0xC1, 0xE0, 0x05];
    LoadSlot();
    Laid(p, 1);
    assert Layout(p, 2) == [0x48, 0xC1, 0xE0, 0x05, 0x4A, 0x8B, 0x84, 0x18, 0x10, 0x0C, 0x01, 0x00];
    LoadState();
    Laid(p, 2);
    assert Layout(p, 3) == EXPECTED_590EC9;
  }

  lemma Encodable2ab698()
    ensures WellFormed(Displaced2ab698())
  {
    hide Encode, Offset;
    CodeLengthBound(Displaced2ab698());
  }

  lemma Expected2ab698()
    ensures WellFormed(Displaced2ab698()) && Assemble(Displaced2ab698()) == EXPECTED_2AB698
  {
    hide Encode, WellFormed, Layout;
    var p := Displaced2ab698();
    Encodable2ab698();
    LaidNone(p);
    LoadRsi();
    Laid(p, 0);
    assert Layout(p, 1) == [0x48, 0x8B, 0x72, 0x08];
    MovR15Rdx();
    Laid(p, 1);
    assert Layout(p, 2) == [0x48, 0x8B, 0x72, 0x08, 0x4C, 0x8B, 0xFA];
    MovR14Rcx();
    Laid(p, 2);
    assert Layout(p, 3) == [0x48, 0x8B, 0x72, 0x08, 0x4C, 0x8B, 0xFA, 0x4C, 0x8B, 0xF1];
    LeaRdxR11();
    Laid(p, 3);
    assert Layout(p, 4) == [0x48, 0x8B, 0x72, 0x08, 0x4C, 0x8B, 0xFA, 0x4C, 0x8B, 0xF1, 0x49, 0x8D, 0x53, 0xA8];
    AddRcx();
    Laid(p, 4);
    assert Layout(p, 5) == [0x48, 0x8B, 0x72, 0x08, 0x4C, 0x8B, 0xFA, 0x4C, 0x8B, 0xF1, 0x49, 0x8D, 0x53, 0xA8, 0x48, 0x83, 0xC1, 0x20];
    MovEdiR8();
    Laid(p, 5);
    assert Layout(p, 6) == EXPECTED_2AB698;
  }

  lemma Encodable3699b2()
    ensures WellFormed(Displaced3699b2())
  {
    hide Encode, Offset;
    CodeLengthBound(Displaced3699b2());
  }

  lemma Expected3699b2()
    ensures WellFormed(Displaced3699b2()) && Assemble(Displaced3699b2()) == EXPECTED_3699B2
  {
    hide Encode, WellFormed, Layout;
    var p := Displaced3699b2();
    Encodable3699b2();
    LaidNone(p);
    LoadR10();
    Laid(p, 0);
    assert Layout(p, 1) == [0x4C, 0x8B, 0x11];
    StoreR8d();
    Laid(p, 1);
    assert Layout(p, 2) == [0x4C, 0x8B, 0x11, 0x44, 0x89, 0x41, 0x0C];
    LoadRbx();
    Laid(p, 2);
    assert Layout(p, 3) == [0x4C, 0x8B, 0x11, 0x44, 0x89, 0x41, 0x0C, 0x49, 0x8B, 0x5A, 0x18];
    XorEcx();
    Laid(p, 3);
    assert Layout(p, 4) == [0x4C, 0x8B, 0x11, 0x44, 0x89, 0x41, 0x0C, 0x49, 0x8B, 0x5A, 0x18, 0x33, 0xC9];
    MovEaxEcx();
    Laid(p, 4);
    assert Layout(p, 5) == EXPECTED_3699B2;
  }
}
