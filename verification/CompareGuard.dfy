/**
 The empty-compare guard 590de8. R15 is the record, RDI the companion path base. A record with
 anything to compare goes on; an empty one goes on when the path base is empty too, or is first
 promoted from the pair the path base holds. Promotion does not by itself let the record
 through: the path base's two vectors are still checked afterwards.
 */
module CompareGuard {
  import opened Wrappers
  import opened Words
  import opened ProcessMemory
  import opened Machine
  import opened InstructionEncoding
  import opened Programs
  import opened Spelling
  import opened StepRules
  import opened Agreement
  import opened Stubs
  import opened Guards

  predicate NonZero(v: Option<U64>) {
    v.Some? && v.value != 0
  }

  function RecordFlag(s: State): Option<U64> { Field(s, Get(s, R15) + 0x7734, W8) }
  function RecordVector(s: State): Option<U64> { Field(s, Get(s, R15) + 0x77D8, W64) }
  function PathFlag(s: State): Option<U64> { Field(s, Get(s, RDI) + 0x24, W8) }
  function Primary(s: State): Option<U64> { Field(s, Get(s, RDI), W32) }
  function Secondary(s: State): Option<U64> { Field(s, Get(s, RDI) + 0x20, W32) }
  function FirstVector(s: State): Option<U64> { Field(s, Get(s, RDI) + 0x98, W64) }
  function SecondVector(s: State): Option<U64> { Field(s, Get(s, RDI) + 0xC8, W64) }

  /** The record has something to compare. */
  predicate RecordLive(s: State) {
    NonZero(RecordFlag(s)) || (RecordFlag(s) == Some(0) && NonZero(RecordVector(s)))
  }

  predicate RecordEmpty(s: State) {
    RecordFlag(s) == Some(0) && RecordVector(s) == Some(0)
  }

  predicate PathEmpty(s: State) {
    PathFlag(s) == Some(0)
  }

  predicate PathPair(s: State) {
    NonZero(PathFlag(s)) && NonZero(Primary(s)) && NonZero(Secondary(s))
  }

  /** The path base is marked as filled, but half of the pair is missing. */
  predicate PathLacksPair(s: State) {
    NonZero(PathFlag(s)) && (Primary(s) == Some(0) || (NonZero(Primary(s)) && Secondary(s) == Some(0)))
  }

  predicate VectorsEmpty(s: State) {
    FirstVector(s) == Some(0) && SecondVector(s) == Some(0)
  }

  predicate VectorPresent(s: State) {
    NonZero(FirstVector(s)) || (FirstVector(s) == Some(0) && NonZero(SecondVector(s)))
  }

  /** The three promoted fields can be written. */
  predicate Promotable(s: State) {
    && Mapped(s.mem, Wrap(Get(s, R15) + 0x7710), 4)
    && Mapped(s.mem, Wrap(Get(s, R15) + 0x7730), 4)
    && Mapped(s.mem, Wrap(Get(s, R15) + 0x7734), 1)
  }

  /** A field of the path base shares no byte with the promoted fields of the record. */
  predicate FieldApart(s: State, offset: int, n: nat) {
    var a := Wrap(Get(s, RDI) + offset);
    && Apart(a, n, Wrap(Get(s, R15) + 0x7710), 4)
    && Apart(a, n, Wrap(Get(s, R15) + 0x7730), 4)
    && Apart(a, n, Wrap(Get(s, R15) + 0x7734), 1)
  }

  /** The record and path-base fields are disjoint. */
  predicate Separate(s: State) {
    FieldApart(s, 0x20, 4) && FieldApart(s, 0x98, 8) && FieldApart(s, 0xC8, 8)
  }

  /** The pair moved into the record, and the record marked as filled. */
  function PromotedMemory(s: State): Memory
    requires Promotable(s) && Primary(s).Some? && Secondary(s).Some?
  {
    hide Mapped, Store, Load;
    var first, second, flag := Wrap(Get(s, R15) + 0x7710), Wrap(Get(s, R15) + 0x7730), Wrap(Get(s, R15) + 0x7734);
    SameMapping(s.mem, first, 4, Primary(s).value, second, 4);
    SameMapping(s.mem, first, 4, Primary(s).value, flag, 1);
    var m := Store(s.mem, first, 4, Primary(s).value);
    SameMapping(m, second, 4, Secondary(s).value, flag, 1);
    Store(Store(m, second, 4, Secondary(s).value), flag, 1, 1)
  }

  function Promoted(s: State): State
    requires Promotable(s) && Primary(s).Some? && Secondary(s).Some?
  {
    s.(mem := PromotedMemory(s))
  }

  /** The registers the block sets first: the record's flag and the address of its slot. */
  function Inspected(s: State): State
    requires RecordFlag(s).Some?
  {
    SetReg(SetReg(s, R9, RecordFlag(s).value), R8, Wrap(Get(s, R15) + 0x7710))
  }

  lemma Listing590de8(skip: U64, resume: U64)
    ensures var p := Stub590de8(skip, resume);
            && |p| == 27
            && p[0] == Ins(Movzx(W32, R9, At(R15, 0x7734)), Std)
            && p[1] == Ins(Lea(W64, R8, At(R15, 0x7710)), Std)
            && p[2] == Ins(Alu(Test, W8, R(R9), From(R(R9))), Std)
            && p[3] == Branch(NE, 23)
            && p[4] == Ins(Alu(Cmp, W64, At(R15, 0x77D8), Imm(0)), Std)
            && p[5] == Branch(NE, 23)
            && p[6] == Ins(Alu(Test, W64, R(RDI), From(R(RDI))), Std)
            && p[7] == Branch(E, 25)
  {
  }

  lemma ListingPath590de8(skip: U64, resume: U64)
    ensures var p := Stub590de8(skip, resume);
            && |p| == 27
            && p[8] == Ins(Alu(Cmp, W8, At(RDI, 0x24), Imm(0)), Std)
            && p[9] == Branch(E, 19)
            && p[10] == Ins(Alu(Cmp, W32, At(RDI, 0), Imm(0)), Std)
            && p[11] == Branch(E, 25)
            && p[12] == Ins(Alu(Cmp, W32, At(RDI, 0x20), Imm(0)), Std)
            && p[13] == Branch(E, 25)
  {
  }

  lemma ListingPromote590de8(skip: U64, resume: U64)
    ensures var p := Stub590de8(skip, resume);
            && |p| == 27
            && p[14] == Ins(Mov(W32, R(RAX), From(At(RDI, 0))), Alt)
            && p[15] == Ins(Mov(W32, At(R15, 0x7710), From(R(RAX))), Std)
            && p[16] == Ins(Mov(W32, R(RAX), From(At(RDI, 0x20))), Alt)
            && p[17] == Ins(Mov(W32, At(R15, 0x7730), From(R(RAX))), Std)
            && p[18] == Ins(Mov(W8, At(R15, 0x7734), Imm(1)), Std)
            && p[19] == Ins(Alu(Cmp, W64, At(RDI, 0x98), Imm(0)), Std)
            && p[20] == Branch(NE, 25)
            && p[21] == Ins(Alu(Cmp, W64, At(RDI, 0xC8), Imm(0)), Std)
            && p[22] == Branch(NE, 25)
            && ExitAt(p, 23, resume) && ExitAt(p, 25, skip)
  {
  }

  lemma Immediates()
    ensures Immediate(W8, 0) == 0 && Immediate(W32, 0) == 0 && Immediate(W64, 0) == 0 && Immediate(W8, 1) == 1
  {
  }

  /** Items 0 to 7: a live record goes on, an empty one without a path base is refused. */
  lemma RecordChecks(base: U64, s: State, t: State, n: nat, skip: U64, resume: U64) returns (u: State, m: nat)
    requires n >= 8 && Agree(s, t)
    ensures m <= 8 && (RecordFlag(t).Some? ==> Agree(u, Inspected(t)))
    ensures var p := Stub590de8(skip, resume);
            var run := ItemSteps(p, base, AtItem(0, s), n);
            if RecordLive(t) then run == ItemSteps(p, base, AtItem(23, u), n - m)
            else if RecordEmpty(t) then run == ItemSteps(p, base, AtItem(if Get(t, RDI) == 0 then 25 else 8, u), n - m)
            else run == Fault
  {
    hide ItemSteps, Wrap, ItemStep, Agree, Exec, Encode, Offset, Mapped, Load, Store, Stub590de8, Immediate;
    Listing590de8(skip, resume);
    Immediates();
    var p := Stub590de8(skip, resume);
    AgreeOn(s, t, R15);
    u, m := s, 0;
    if RecordFlag(t).None? {
      WidenFaults(p, base, 0, s, n);
    } else {
      u := Inspects(base, s, t, n, skip, resume);
      m := 4;
      if RecordFlag(t).value == 0 {
        InspectedFields(t);
        u, m := VectorCheck(base, u, Inspected(t), n - 4, skip, resume);
        m := m + 4;
      }
    }
  }

  lemma InspectedFields(s: State)
    requires RecordFlag(s).Some?
    ensures var t := Inspected(s);
            && t.mem == s.mem && Get(t, RDI) == Get(s, RDI) && Get(t, R15) == Get(s, R15)
  {
  }

  lemma SmallByte(v: U64)
    requires v < 0x100
    ensures Truncate(W8, v) == v
  {
  }

  /** Items 0 to 3, when the flag can be read. */
  lemma Inspects(base: U64, s: State, t: State, n: nat, skip: U64, resume: U64) returns (u: State)
    requires n >= 4 && Agree(s, t) && RecordFlag(t).Some?
    ensures Agree(u, Inspected(t))
    ensures var p := Stub590de8(skip, resume);
            ItemSteps(p, base, AtItem(0, s), n)
            == ItemSteps(p, base, AtItem(if RecordFlag(t).value == 0 then 4 else 23, u), n - 4)
  {
    hide ItemSteps, Wrap, ItemStep, Agree, Exec, Encode, Offset, Mapped, Load, Store, Stub590de8, Truncate;
    Listing590de8(skip, resume);
    var p, flag := Stub590de8(skip, resume), RecordFlag(t).value;
    AgreeOn(s, t, R15);
    var s1 := Widen(p, base, 0, s, n, flag);
    AgreeSet(s, t, R9, flag);
    var s2 := Address(p, base, 1, s1, n - 1);
    AgreeSet(s1, SetReg(t, R9, flag), R8, Wrap(Get(t, R15) + 0x7710));
    u := TestSelf(p, base, 2, s2, n - 2);
    SmallByte(flag);
    Decide(p, base, 3, u, n - 3);
    AgreeFlagged(s2, u.zf, u.cf);
    AgreeTransitive(u, s2, Inspected(t));
  }

  lemma VectorCheck(base: U64, s: State, t: State, n: nat, skip: U64, resume: U64) returns (u: State, m: nat)
    requires n >= 4 && Agree(s, t)
    ensures m <= 4 && Agree(u, t)
    ensures var p := Stub590de8(skip, resume);
            var run := ItemSteps(p, base, AtItem(4, s), n);
            if NonZero(RecordVector(t)) then run == ItemSteps(p, base, AtItem(23, u), n - m)
            else if RecordVector(t) == Some(0) then run == ItemSteps(p, base, AtItem(if Get(t, RDI) == 0 then 25 else 8, u), n - m)
            else run == Fault
  {
    hide ItemSteps, Wrap, ItemStep, Agree, Exec, Encode, Offset, Mapped, Load, Store, Stub590de8, Immediate;
    Listing590de8(skip, resume);
    Immediates();
    var p := Stub590de8(skip, resume);
    AgreeOn(s, t, R15);
    AgreeOn(s, t, RDI);
    u, m := s, 0;
    if RecordVector(t).None? {
      AluFaults(p, base, 4, s, n);
    } else {
      u := Compare(p, base, 4, s, n, RecordVector(t).value, 0);
      Decide(p, base, 5, u, n - 1);
      AgreeFlagged(s, u.zf, u.cf);
      AgreeTransitive(u, s, t);
      m := 2;
      if RecordVector(t).value == 0 {
        var s1 := u;
        u := TestSelf(p, base, 6, s1, n - 2);
        Decide(p, base, 7, u, n - 3);
        AgreeFlagged(s1, u.zf, u.cf);
        AgreeTransitive(u, s1, t);
        m := 4;
      }
    }
  }

  /** Items 8 to 13: what the path base holds. */
  lemma PathChecks(base: U64, s: State, t: State, n: nat, skip: U64, resume: U64) returns (u: State, m: nat)
    requires n >= 6 && Agree(s, t)
    ensures m <= 6 && Agree(u, t)
    ensures var p := Stub590de8(skip, resume);
            var run := ItemSteps(p, base, AtItem(8, s), n);
            if PathEmpty(t) then run == ItemSteps(p, base, AtItem(19, u), n - m)
            else if PathPair(t) then run == ItemSteps(p, base, AtItem(14, u), n - m)
            else if PathLacksPair(t) then run == ItemSteps(p, base, AtItem(25, u), n - m)
            else run == Fault
  {
    hide ItemSteps, Wrap, ItemStep, Agree, Exec, Encode, Offset, Mapped, Load, Store, Stub590de8, Immediate;
    ListingPath590de8(skip, resume);
    Immediates();
    var p := Stub590de8(skip, resume);
    AgreeOn(s, t, RDI);
    u, m := s, 0;
    if PathFlag(t).None? {
      AluFaults(p, base, 8, s, n);
    } else {
      u := Compare(p, base, 8, s, n, PathFlag(t).value, 0);
      Decide(p, base, 9, u, n - 1);
      AgreeFlagged(s, u.zf, u.cf);
      AgreeTransitive(u, s, t);
      m := 2;
      if PathFlag(t).value != 0 {
        u, m := PairChecks(base, u, t, n - 2, skip, resume);
        m := m + 2;
      }
    }
  }

  lemma PairChecks(base: U64, s: State, t: State, n: nat, skip: U64, resume: U64) returns (u: State, m: nat)
    requires n >= 4 && Agree(s, t)
    ensures m <= 4 && Agree(u, t)
    ensures var p := Stub590de8(skip, resume);
            var run := ItemSteps(p, base, AtItem(10, s), n);
            if NonZero(Primary(t)) && NonZero(Secondary(t)) then run == ItemSteps(p, base, AtItem(14, u), n - m)
            else if Primary(t) == Some(0) || (NonZero(Primary(t)) && Secondary(t) == Some(0))
            then run == ItemSteps(p, base, AtItem(25, u), n - m)
            else run == Fault
  {
    hide ItemSteps, Wrap, ItemStep, Agree, Exec, Encode, Offset, Mapped, Load, Store, Stub590de8, Immediate;
    ListingPath590de8(skip, resume);
    Immediates();
    var p := Stub590de8(skip, resume);
    AgreeOn(s, t, RDI);
    u, m := s, 0;
    if Primary(t).None? {
      AluFaults(p, base, 10, s, n);
    } else {
      u := Compare(p, base, 10, s, n, Primary(t).value, 0);
      Decide(p, base, 11, u, n - 1);
      AgreeFlagged(s, u.zf, u.cf);
      AgreeTransitive(u, s, t);
      m := 2;
      if Primary(t).value != 0 {
        if Secondary(t).None? {
          AluFaults(p, base, 12, u, n - 2);
        } else {
          var s1 := u;
          u := Compare(p, base, 12, s1, n - 2, Secondary(t).value, 0);
          Decide(p, base, 13, u, n - 3);
          AgreeFlagged(s1, u.zf, u.cf);
          AgreeTransitive(u, s1, t);
          m := 4;
        }
      }
    }
  }

  /** Items 19 to 22: the path base's vectors decide. */
  lemma VectorChecks(base: U64, s: State, t: State, n: nat, skip: U64, resume: U64) returns (u: State, m: nat)
    requires n >= 4 && Agree(s, t)
    ensures m <= 4 && Agree(u, t)
    ensures var p := Stub590de8(skip, resume);
            var run := ItemSteps(p, base, AtItem(19, s), n);
            if VectorsEmpty(t) then run == ItemSteps(p, base, AtItem(23, u), n - m)
            else if VectorPresent(t) then run == ItemSteps(p, base, AtItem(25, u), n - m)
            else run == Fault
  {
    hide ItemSteps, Wrap, ItemStep, Agree, Exec, Encode, Offset, Mapped, Load, Store, Stub590de8, Immediate;
    ListingPromote590de8(skip, resume);
    Immediates();
    var p := Stub590de8(skip, resume);
    AgreeOn(s, t, RDI);
    u, m := s, 0;
    if FirstVector(t).None? {
      AluFaults(p, base, 19, s, n);
    } else {
      u := Compare(p, base, 19, s, n, FirstVector(t).value, 0);
      Decide(p, base, 20, u, n - 1);
      AgreeFlagged(s, u.zf, u.cf);
      AgreeTransitive(u, s, t);
      m := 2;
      if FirstVector(t).value == 0 {
        if SecondVector(t).None? {
          AluFaults(p, base, 21, u, n - 2);
        } else {
          var s1 := u;
          u := Compare(p, base, 21, s1, n - 2, SecondVector(t).value, 0);
          Decide(p, base, 22, u, n - 3);
          AgreeFlagged(s1, u.zf, u.cf);
          AgreeTransitive(u, s1, t);
          m := 4;
        }
      }
    }
  }

  lemma SmallTruncates(v: U64)
    requires v < Modulus(W32)
    ensures Truncate(W32, v) == v
  {
  }

  /** Items 14 to 18: the three promotion writes, or the first of them that faults. */
  lemma Promotion(base: U64, s: State, t: State, n: nat, skip: U64, resume: U64) returns (u: State)
    requires n >= 5 && Agree(s, t) && Primary(t).Some? && Secondary(t).Some? && Separate(t)
    ensures Promotable(t) ==> Agree(u, Promoted(t))
    ensures var p := Stub590de8(skip, resume);
            ItemSteps(p, base, AtItem(14, s), n)
            == if Promotable(t) then ItemSteps(p, base, AtItem(19, u), n - 5) else Fault
  {
    hide ItemSteps, Wrap, ItemStep, Agree, Exec, Encode, Offset, Mapped, Load, Store, Stub590de8, Immediate, Apart, Truncate;
    ListingPromote590de8(skip, resume);
    var p := Stub590de8(skip, resume);
    AgreeOn(s, t, RDI);
    AgreeOn(s, t, R15);
    u := s;
    var first := Wrap(Get(t, R15) + 0x7710);
    var s1 := Set(p, base, 14, s, n, Primary(t).value);
    SmallTruncates(Primary(t).value);
    if !Mapped(t.mem, first, 4) {
      PutFaults(p, base, 15, s1, n - 1);
    } else {
      var s2 := Put(p, base, 15, s1, n - 1, Primary(t).value);
      AgreeScratch(s, Primary(t).value, s.zf, s.cf);
      assert s1 == SetReg(s, RAX, Primary(t).value).(zf := s.zf, cf := s.cf);
      AgreeTransitive(s1, s, t);
      AgreeMemory(s1, t, s2.mem);
      u := SecondWrite(base, s2, t, n - 2, skip, resume);
    }
  }

  /** Items 16 to 18, the first write done. */
  lemma SecondWrite(base: U64, s: State, t: State, n: nat, skip: U64, resume: U64) returns (u: State)
    requires Primary(t).Some? && Secondary(t).Some? && Separate(t) && Mapped(t.mem, Wrap(Get(t, R15) + 0x7710), 4)
    requires n >= 3 && Agree(s, t.(mem := Store(t.mem, Wrap(Get(t, R15) + 0x7710), 4, Primary(t).value)))
    ensures Promotable(t) ==> Agree(u, Promoted(t))
    ensures var p := Stub590de8(skip, resume);
            ItemSteps(p, base, AtItem(16, s), n)
            == if Promotable(t) then ItemSteps(p, base, AtItem(19, u), n - 3) else Fault
  {
    hide ItemSteps, Wrap, ItemStep, Agree, Exec, Encode, Offset, Mapped, Load, Store, Stub590de8, Immediate, Apart, Truncate;
    ListingPromote590de8(skip, resume);
    var p := Stub590de8(skip, resume);
    var first, second := Wrap(Get(t, R15) + 0x7710), Wrap(Get(t, R15) + 0x7730);
    var m := Store(t.mem, first, 4, Primary(t).value);
    AgreeOn(s, t.(mem := m), RDI);
    AgreeOn(s, t.(mem := m), R15);
    LoadApart(t.mem, first, 4, Primary(t).value, Wrap(Get(t, RDI) + 0x20), 4);
    u := s;
    var s1 := Set(p, base, 16, s, n, Secondary(t).value);
    SmallTruncates(Secondary(t).value);
    SameMapping(t.mem, first, 4, Primary(t).value, second, 4);
    if !Mapped(t.mem, second, 4) {
      PutFaults(p, base, 17, s1, n - 1);
    } else {
      var s2 := Put(p, base, 17, s1, n - 1, Secondary(t).value);
      AgreeScratch(s, Secondary(t).value, s.zf, s.cf);
      assert s1 == SetReg(s, RAX, Secondary(t).value).(zf := s.zf, cf := s.cf);
      AgreeTransitive(s1, s, t.(mem := m));
      AgreeMemory(s1, t.(mem := m), s2.mem);
      u := ThirdWrite(base, s2, t, n - 2, skip, resume);
    }
  }

  lemma ThirdWrite(base: U64, s: State, t: State, n: nat, skip: U64, resume: U64) returns (u: State)
    requires Primary(t).Some? && Secondary(t).Some?
    requires Mapped(t.mem, Wrap(Get(t, R15) + 0x7710), 4) && Mapped(t.mem, Wrap(Get(t, R15) + 0x7730), 4)
    requires var m := Store(t.mem, Wrap(Get(t, R15) + 0x7710), 4, Primary(t).value);
             && Mapped(m, Wrap(Get(t, R15) + 0x7730), 4)
             && n >= 1 && Agree(s, t.(mem := Store(m, Wrap(Get(t, R15) + 0x7730), 4, Secondary(t).value)))
    ensures Promotable(t) ==> Agree(u, Promoted(t))
    ensures var p := Stub590de8(skip, resume);
            ItemSteps(p, base, AtItem(18, s), n)
            == if Promotable(t) then ItemSteps(p, base, AtItem(19, u), n - 1) else Fault
  {
    hide ItemSteps, Wrap, ItemStep, Agree, Exec, Encode, Offset, Mapped, Load, Store, Stub590de8, Immediate;
    ListingPromote590de8(skip, resume);
    Immediates();
    var p := Stub590de8(skip, resume);
    var first, second, flag := Wrap(Get(t, R15) + 0x7710), Wrap(Get(t, R15) + 0x7730), Wrap(Get(t, R15) + 0x7734);
    var m := Store(t.mem, first, 4, Primary(t).value);
    var m' := Store(m, second, 4, Secondary(t).value);
    AgreeOn(s, t.(mem := m'), R15);
    SameMapping(t.mem, first, 4, Primary(t).value, flag, 1);
    SameMapping(m, second, 4, Secondary(t).value, flag, 1);
    u := s;
    if !Mapped(t.mem, flag, 1) {
      PutFaults(p, base, 18, s, n);
    } else {
      u := Put(p, base, 18, s, n, 1);
      AgreeMemory(s, t.(mem := m'), u.mem);
    }
  }

  lemma ApartAfterStores(s: State, offset: int, n: nat, w: Width)
    requires Promotable(s) && Primary(s).Some? && Secondary(s).Some? && FieldApart(s, offset, Size(w))
    ensures Field(Promoted(s), Get(s, RDI) + offset, w) == Field(s, Get(s, RDI) + offset, w)
  {
    hide Mapped, Load, Store, Apart;
    var a := Wrap(Get(s, RDI) + offset);
    var first, second, flag := Wrap(Get(s, R15) + 0x7710), Wrap(Get(s, R15) + 0x7730), Wrap(Get(s, R15) + 0x7734);
    var m := Store(s.mem, first, 4, Primary(s).value);
    SameMapping(s.mem, first, 4, Primary(s).value, second, 4);
    var m' := Store(m, second, 4, Secondary(s).value);
    SameMapping(s.mem, first, 4, Primary(s).value, flag, 1);
    SameMapping(m, second, 4, Secondary(s).value, flag, 1);
    SameMapping(s.mem, first, 4, Primary(s).value, a, Size(w));
    SameMapping(m, second, 4, Secondary(s).value, a, Size(w));
    SameMapping(m', flag, 1, 1, a, Size(w));
    if Mapped(s.mem, a, Size(w)) {
      LoadApart(s.mem, first, 4, Primary(s).value, a, Size(w));
      LoadApart(m, second, 4, Secondary(s).value, a, Size(w));
      LoadApart(m', flag, 1, 1, a, Size(w));
    }
  }

  /** The promotion writes leave the path base's vectors as they were. */
  lemma PromotionKeepsVectors(s: State)
    requires Promotable(s) && Primary(s).Some? && Secondary(s).Some? && Separate(s)
    ensures VectorsEmpty(Promoted(s)) == VectorsEmpty(s) && VectorPresent(Promoted(s)) == VectorPresent(s)
  {
    hide Field, FieldApart, PromotedMemory;
    ApartAfterStores(s, 0x98, 8, W64);
    ApartAfterStores(s, 0xC8, 8, W64);
  }

  /** When the three promotion writes are performed. */
  predicate Promotes(s: State) {
    RecordEmpty(s) && Get(s, RDI) != 0 && PathPair(s) && Promotable(s)
  }

  /** An empty record's path base gets as far as the vector checks. */
  predicate Reconsidered(s: State) {
    RecordEmpty(s) && Get(s, RDI) != 0 && (PathEmpty(s) || Promotes(s))
  }

  predicate Resumes(s: State) {
    RecordLive(s) || (Reconsidered(s) && VectorsEmpty(s))
  }

  predicate Skips(s: State) {
    RecordEmpty(s) && (Get(s, RDI) == 0 || PathLacksPair(s) || (Reconsidered(s) && VectorPresent(s)))
  }

  function Outcome590de8(s: State): State
    requires RecordFlag(s).Some?
  {
    if Promotes(s) then Promoted(Inspected(s)) else Inspected(s)
  }

  /**
   For every memory in which the record and path-base fields are disjoint: the stub resumes, or
   skips, exactly under these conditions and otherwise faults; and it performs the promotion
   writes, whichever way it then leaves, exactly when `Promotes` holds.
   */
  lemma Guard590de8(base: U64, s: State, a: U64, skip: U64, resume: U64, n: nat)
    requires n >= 25 && Separate(s)
    ensures var c := ItemSteps(Stub590de8(skip, resume), base, AtItem(0, SetReg(s, RAX, a)), n);
            if Resumes(s) then LeftFor(c, resume, Outcome590de8(s))
            else if Skips(s) then LeftFor(c, skip, Outcome590de8(s))
            else c.Fault?
  {
    hide ItemSteps, Wrap, Agree, Exec, Encode, Offset, Mapped, Load, Store, Stub590de8, Field, ExitAt, LeftFor, Inspected, PromotedMemory,
      FieldApart, VectorsEmpty, VectorPresent, PathPair, PathLacksPair;
    ListingPromote590de8(skip, resume);
    var p, s0 := Stub590de8(skip, resume), SetReg(s, RAX, a);
    AgreeScratch(s, a, s.zf, s.cf);
    assert s0 == SetReg(s, RAX, a).(zf := s.zf, cf := s.cf);
    var u, m := RecordChecks(base, s0, s, n, skip, resume);
    if RecordLive(s) {
      Exits(p, base, 23, u, n - m, resume, Inspected(s));
    } else if RecordEmpty(s) {
      InspectedFields(s);
      if Get(s, RDI) == 0 {
        Exits(p, base, 25, u, n - m, skip, Inspected(s));
      } else {
        FromPath(base, u, s, n - m, skip, resume);
      }
    }
  }

  /** Everything from the path checks on, for an empty record with a path base. */
  lemma FromPath(base: U64, s: State, t: State, n: nat, skip: U64, resume: U64)
    requires n >= 17 && RecordEmpty(t) && Get(t, RDI) != 0 && Separate(t) && Agree(s, Inspected(t))
    ensures var c := ItemSteps(Stub590de8(skip, resume), base, AtItem(8, s), n);
            if Resumes(t) then LeftFor(c, resume, Outcome590de8(t))
            else if Skips(t) then LeftFor(c, skip, Outcome590de8(t))
            else c.Fault?
  {
    hide ItemSteps, Wrap, Agree, Exec, Encode, Offset, Mapped, Load, Store, Stub590de8, ExitAt, LeftFor, Inspected, PromotedMemory;
    ListingPromote590de8(skip, resume);
    InspectedFields(t);
    var p, t0 := Stub590de8(skip, resume), Inspected(t);
    var u, m := PathChecks(base, s, t0, n, skip, resume);
    if PathEmpty(t) {
      FromVectors(base, u, t0, n - m, skip, resume);
    } else if PathPair(t) {
      var v := Promotion(base, u, t0, n - m, skip, resume);
      if Promotable(t) {
        FromVectors(base, v, Promoted(t0), n - m - 5, skip, resume);
        PromotionKeepsVectors(t0);
      }
    } else if PathLacksPair(t) {
      Exits(p, base, 25, u, n - m, skip, t0);
    }
  }

  lemma FromVectors(base: U64, s: State, t: State, n: nat, skip: U64, resume: U64)
    requires n >= 6 && Agree(s, t)
    ensures var c := ItemSteps(Stub590de8(skip, resume), base, AtItem(19, s), n);
            if VectorsEmpty(t) then LeftFor(c, resume, t)
            else if VectorPresent(t) then LeftFor(c, skip, t)
            else c.Fault?
  {
    hide ItemSteps, Wrap, Agree, Exec, Encode, Offset, Mapped, Load, Store, Stub590de8, ExitAt, LeftFor, VectorsEmpty, VectorPresent;
    ListingPromote590de8(skip, resume);
    var p := Stub590de8(skip, resume);
    var u, m := VectorChecks(base, s, t, n, skip, resume);
    if VectorsEmpty(t) {
      Exits(p, base, 23, u, n - m, resume, t);
    } else if VectorPresent(t) {
      Exits(p, base, 25, u, n - m, skip, t);
    }
  }

  /* ---------- the displaced block ---------- */

  lemma ListingBlock590de8()
    ensures var q := Displaced590de8();
            && |q| == 6
            && q[0] == Ins(Movzx(W32, R9, At(R15, 0x7734)), Std)
            && q[1] == Ins(Lea(W64, R8, At(R15, 0x7710)), Std)
            && q[2] == Ins(Alu(Test, W8, R(R9), From(R(R9))), Std)
            && q[3] == Ins(Jcc(NE, 0x0D), Alt)
            && q[4] == Ins(Alu(Cmp, W64, At(R15, 0x77D8), From(R(RSI))), Std)
            && q[5] == Ins(Jcc(E, 0xBD), Std)
  {
  }

  /** The block's short jump leads just behind the block. */
  lemma ShortJump590de8(site: U64)
    ensures Wrap(Next(Displaced590de8(), site, 3) + 0x0D) == End(Displaced590de8(), site)
    ensures Next(Displaced590de8(), site, 5) == End(Displaced590de8(), site)
  {
    hide Encode, Wrap;
    var q := Displaced590de8();
    LoadPromoted();
    LeaRecord();
    TestR9b();
    JneShort0D();
    CmpVectorRsi();
    JeNearBD();
    assert Offset(q, 4) == 20 && CodeLength(q) == 33;
    WrapAdd(site + 20, 13);
  }

  lemma BlockVector(site: U64, s: State, t: State, n: nat)
    requires n >= 3 && Agree(s, t)
    ensures var block := ItemSteps(Displaced590de8(), site, AtItem(4, s), n);
            var end := End(Displaced590de8(), site);
            if RecordVector(t).None? then block.Fault?
            else
              && block.Left? && Agree(block.s, t)
              && block.rip == (if RecordVector(t) == Some(Get(t, RSI)) then Wrap(end + 0xBD) else end)
  {
    hide ItemSteps, ItemStep, Agree, Exec, Encode, Offset, Mapped, Load, Store, Displaced590de8, Wrap, End;
    ListingBlock590de8();
    ShortJump590de8(site);
    var q := Displaced590de8();
    AgreeOn(s, t, R15);
    AgreeOn(s, t, RSI);
    if RecordVector(t).None? {
      AluFaults(q, site, 4, s, n);
    } else {
      var s1 := Compare(q, site, 4, s, n, RecordVector(t).value, Get(t, RSI));
      AgreeFlagged(s, s1.zf, s1.cf);
      AgreeTransitive(s1, s, t);
      DecideOut(q, site, 5, s1, n - 1);
      EndIsBehind(site);
      FallOff(q, site, s1, n - 2);
    }
  }

  /** The block: on behind itself for a filled record, to its failure branch for one equal to RSI. */
  lemma Block590de8(site: U64, s: State, n: nat)
    requires n >= 7
    ensures var block := ItemSteps(Displaced590de8(), site, AtItem(0, s), n);
            var end := End(Displaced590de8(), site);
            if RecordFlag(s).None? || (RecordFlag(s) == Some(0) && RecordVector(s).None?) then block.Fault?
            else
              && block.Left? && Agree(block.s, Inspected(s))
              && block.rip == (if RecordFlag(s) == Some(0) && RecordVector(s) == Some(Get(s, RSI)) then Wrap(end + 0xBD) else end)
  {
    hide ItemSteps, ItemStep, Agree, Exec, Encode, Offset, Mapped, Load, Store, Displaced590de8, Wrap, End;
    ListingBlock590de8();
    ShortJump590de8(site);
    var q := Displaced590de8();
    if RecordFlag(s).None? {
      WidenFaults(q, site, 0, s, n);
    } else {
      var s1 := Widen(q, site, 0, s, n, RecordFlag(s).value);
      var s2 := Address(q, site, 1, s1, n - 1);
      var s3 := TestSelf(q, site, 2, s2, n - 2);
      AgreeFlagged(s2, s3.zf, s3.cf);
      DecideOut(q, site, 3, s3, n - 3);
      if RecordFlag(s).value == 0 {
        BlockVector(site, s3, Inspected(s), n - 4);
      }
    }
  }

  lemma EndIsBehind(site: U64)
    ensures End(Displaced590de8(), site) == Wrap(site + CodeLength(Displaced590de8()))
  {
  }

  lemma AgreeReflexive(s: State)
    ensures Agree(s, s)
  {
  }

  /** The stub goes on behind the block, its two exits being distinct or not. */
  predicate GoesOn(s: State, skip: U64, resume: U64) {
    Resumes(s) || (Skips(s) && skip == resume)
  }

  /** Where the stub does not go on behind the block with it, whatever else it does. */
  predicate Differs(s: State, skip: U64, resume: U64) {
    && RecordFlag(s) == Some(0)
    && (RecordVector(s) == Some(Get(s, RSI)) || (RecordVector(s) == Some(0) && !(GoesOn(s, skip, resume) && !Promotes(s))))
  }

  /** The promotion marks the record as filled, so it changes memory. */
  lemma PromotionShows(s: State)
    requires Promotes(s)
    ensures Promoted(s).mem != s.mem
  {
    hide Load, Store, Mapped;
    var first, second, flag := Wrap(Get(s, R15) + 0x7710), Wrap(Get(s, R15) + 0x7730), Wrap(Get(s, R15) + 0x7734);
    SameMapping(s.mem, first, 4, Primary(s).value, second, 4);
    SameMapping(s.mem, first, 4, Primary(s).value, flag, 1);
    var m := Store(s.mem, first, 4, Primary(s).value);
    SameMapping(m, second, 4, Secondary(s).value, flag, 1);
    Pow256Values();
    LoadStored(Store(m, second, 4, Secondary(s).value), flag, 1, 1);
    assert Load(s.mem, flag, 1) == 0;
  }

  lemma InspectedPromotes(s: State)
    requires Promotes(s)
    ensures Promotes(Inspected(s))
  {
    hide Mapped, Load, Inspected;
    InspectedFields(s);
  }

  lemma PromotionDisagrees(s: State)
    requires Promotes(s)
    ensures !Agree(Outcome590de8(s), Inspected(s))
  {
    hide Field, Promoted, Agree, Inspected, PromotedMemory, Promotable;
    InspectedPromotes(s);
    var t := Inspected(s);
    PromotionShows(t);
    if Agree(Promoted(t), t) {
      AgreeOn(Promoted(t), t, RBX);
    }
  }

  /**
   What goes on behind the block: in every state whose record and path-base fields are disjoint
   the stub replaces a block that runs through, except exactly on an unfilled record whose vector equals RSI, and on one whose vector is zero
   unless the stub resumes without promoting it.
   */
  lemma ReplacesExactly590de8(base: U64, site: U64, s: State, a: U64, skip: U64, resume: U64, n: nat)
    requires n >= 25 && Separate(s)
    ensures var c := ItemSteps(Stub590de8(skip, resume), base, AtItem(0, SetReg(s, RAX, a)), n);
            var block := ItemSteps(Displaced590de8(), site, AtItem(0, s), n);
            Replaces(c, block, End(Displaced590de8(), site), resume) <==> !Differs(s, skip, resume)
  {
    hide ItemSteps, Wrap, Stub590de8, Displaced590de8, End, Inspected, Agree, Mapped, Load, Outcome590de8, Field, Promotes,
      VectorsEmpty, VectorPresent, PathLacksPair;
    Guard590de8(base, s, a, skip, resume, n);
    Block590de8(site, s, n);
    var c, block := ItemSteps(Stub590de8(skip, resume), base, AtItem(0, SetReg(s, RAX, a)), n), ItemSteps(Displaced590de8(), site, AtItem(0, s), n);
    var end := End(Displaced590de8(), site);
    FailureElsewhere(site);
    if RecordFlag(s).Some? && block.Left? {
      AgreeTransitive(block.s, Inspected(s), Inspected(s)) by {
        AgreeReflexive(Inspected(s));
      }
      if GoesOn(s, skip, resume) {
        SameOutcome(s, c.s, block.s);
        assert LeftFor(c, resume, block.s) <==> !Promotes(s);
      } else {
        assert !LeftFor(c, resume, block.s);
      }
      assert block.rip == end <==> !(RecordFlag(s) == Some(0) && RecordVector(s) == Some(Get(s, RSI)));
    }
  }

  /** A stub that goes on agrees with the block if and only if nothing was promoted. */
  lemma SameOutcome(s: State, c: State, block: State)
    requires RecordFlag(s).Some?
    requires Agree(c, Outcome590de8(s)) && Agree(block, Inspected(s))
    ensures Agree(c, block) <==> !Promotes(s)
    ensures RecordLive(s) ==> !Promotes(s)
  {
    hide Inspected, Agree, Field, Promoted, RecordVector, RecordFlag;
    AgreeTransitive(block, Inspected(s), Inspected(s)) by {
      AgreeReflexive(Inspected(s));
    }
    AgreeTransitive(c, Outcome590de8(s), Outcome590de8(s)) by {
      AgreeReflexive(Outcome590de8(s));
    }
    if Promotes(s) {
      PromotionDisagrees(s);
      if Agree(c, block) {
        AgreeTransitive(Outcome590de8(s), c, block);
        AgreeTransitive(Outcome590de8(s), block, Inspected(s));
      }
    } else {
      AgreeTransitive(c, Inspected(s), block);
    }
  }

  /**
   The states in which the stub does what the block does. A live record's vector must not equal
   RSI; an empty record must not be promoted, and must be skipped if the block fails it and
   resumed if the block goes on with it.
   */
  predicate KeepsWay(s: State) {
    RecordFlag(s) == Some(0) ==>
      && !(Get(s, RSI) != 0 && RecordVector(s) == Some(Get(s, RSI)))
      && (RecordVector(s) == Some(0) ==> !Promotes(s) && if Get(s, RSI) == 0 then Skips(s) && !Resumes(s) else Resumes(s))
  }

  /** Where the block's failure branch leads. */
  function Failure590de8(site: U64): U64 {
    Wrap(End(Displaced590de8(), site) + 0xBD)
  }

  lemma FailureElsewhere(site: U64)
    ensures Failure590de8(site) != End(Displaced590de8(), site)
  {
    hide End, Wrap;
    Elsewhere(End(Displaced590de8(), site));
  }

  lemma Elsewhere(end: U64)
    ensures Wrap(end + 0xBD) != end
  {
  }

  /**
   Both ways out: in every state whose record and path-base fields are disjoint, stub and block
   fault together, resume together or take the failure branch together, all in the same state, if
   and only if `KeepsWay` holds.
   */
  lemma FollowsExactly590de8(base: U64, site: U64, s: State, a: U64, skip: U64, resume: U64, n: nat)
    requires n >= 25 && Separate(s) && skip != resume
    ensures var c := ItemSteps(Stub590de8(skip, resume), base, AtItem(0, SetReg(s, RAX, a)), n);
            var block := ItemSteps(Displaced590de8(), site, AtItem(0, s), n);
            Follows(c, block, End(Displaced590de8(), site), Failure590de8(site), resume, skip) <==> KeepsWay(s)
  {
    hide ItemSteps, Wrap, Stub590de8, Displaced590de8, End, Inspected, Agree, Mapped, Load, Outcome590de8, Field, Promotes,
      VectorsEmpty, VectorPresent, PathLacksPair;
    Guard590de8(base, s, a, skip, resume, n);
    Block590de8(site, s, n);
    var c, block := ItemSteps(Stub590de8(skip, resume), base, AtItem(0, SetReg(s, RAX, a)), n), ItemSteps(Displaced590de8(), site, AtItem(0, s), n);
    FailureElsewhere(site);
    if RecordFlag(s).Some? && block.Left? && c.Left? {
      SameOutcome(s, c.s, block.s);
    }
  }

  /** With the exits the patch table gives the stub, the block's own two targets: they go the same way exactly then. */
  lemma SameWay590de8(base: U64, site: U64, s: State, a: U64, n: nat)
    requires n >= 25 && Separate(s)
    ensures var p := Stub590de8(Failure590de8(site), End(Displaced590de8(), site));
            SameWay(ItemSteps(p, base, AtItem(0, SetReg(s, RAX, a)), n), ItemSteps(Displaced590de8(), site, AtItem(0, s), n))
            <==> KeepsWay(s)
  {
    hide ItemSteps, Stub590de8, Displaced590de8, End, Inspected, Agree, KeepsWay, RecordFlag, RecordVector, Failure590de8;
    var end, failure := End(Displaced590de8(), site), Failure590de8(site);
    FailureElsewhere(site);
    FollowsExactly590de8(base, site, s, a, failure, end, n);
    BlockGoes(site, s, n);
  }

  /** The block faults or leaves for one of its two targets. */
  lemma BlockGoes(site: U64, s: State, n: nat)
    requires n >= 7
    ensures var block := ItemSteps(Displaced590de8(), site, AtItem(0, s), n);
            block.Fault? || (block.Left? && (block.rip == End(Displaced590de8(), site) || block.rip == Failure590de8(site)))
    ensures RecordEmpty(s) && Get(s, RSI) == 0 ==>
              ItemSteps(Displaced590de8(), site, AtItem(0, s), n).Left? && ItemSteps(Displaced590de8(), site, AtItem(0, s), n).rip == Failure590de8(site)
  {
    hide ItemSteps, Displaced590de8, End, Inspected, Agree, Wrap, Field;
    Block590de8(site, s, n);
  }

  /**
   With RSI zero, as the block expects: the stub replaces the block for every record but the empty
   ones, which the block fails, and it fails those too exactly when it skips them unpromoted.
   */
  lemma Preserves590de8(base: U64, site: U64, s: State, a: U64, skip: U64, resume: U64, n: nat)
    requires n >= 25 && Separate(s) && Get(s, RSI) == 0
    ensures var c := ItemSteps(Stub590de8(skip, resume), base, AtItem(0, SetReg(s, RAX, a)), n);
            var block := ItemSteps(Displaced590de8(), site, AtItem(0, s), n);
            var end, failure := End(Displaced590de8(), site), Failure590de8(site);
            && (Replaces(c, block, end, resume) <==> !RecordEmpty(s))
            && (RecordEmpty(s) ==> block.Left? && block.rip == failure)
            && (skip != resume ==>
                  (Follows(c, block, end, failure, resume, skip) <==> (RecordEmpty(s) ==> Skips(s) && !Resumes(s) && !Promotes(s))))
  {
    hide ItemSteps, Stub590de8, Displaced590de8, End, Replaces, Field, Resumes, Promotes, Skips, Agree, Inspected, Failure590de8, Follows;
    ReplacesExactly590de8(base, site, s, a, skip, resume, n);
    BlockGoes(site, s, n);
    if skip != resume {
      FollowsExactly590de8(base, site, s, a, skip, resume, n);
    }
  }

  /**
   With RSI not zero the two compare different things: an unfilled record whose vector equals RSI
   fails in the block, and is let through by the stub.
   */
  lemma Diverges590de8(base: U64, site: U64, s: State, a: U64, skip: U64, resume: U64, n: nat)
    requires n >= 25 && Separate(s)
    requires RecordFlag(s) == Some(0) && Get(s, RSI) != 0 && RecordVector(s) == Some(Get(s, RSI))
    ensures var c := ItemSteps(Stub590de8(skip, resume), base, AtItem(0, SetReg(s, RAX, a)), n);
            var block := ItemSteps(Displaced590de8(), site, AtItem(0, s), n);
            && block.Left? && block.rip == Wrap(End(Displaced590de8(), site) + 0xBD)
            && c.Left? && c.rip == resume
  {
    hide ItemSteps, Wrap, Stub590de8, Displaced590de8, End, Inspected, Agree, Mapped, Load, Promoted, Reconsidered, Field;
    Guard590de8(base, s, a, skip, resume, n);
    Block590de8(site, s, n);
  }
}
