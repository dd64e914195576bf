/**
 The two guards that take RAX as an input, once they are installed: there RAX is the trampoline's
 own address. Everything is about bytes in the one memory that holds the client, the patched
 site and the stub, which the publication guard writes to.
 */
module InstalledGuards {
  import opened Wrappers
  import opened Words
  import opened ProcessMemory
  import opened Machine
  import opened InstructionEncoding
  import opened JumpEncoders
  import opened Programs
  import opened StepRules
  import opened OneMemory
  import opened Spelling
  import opened Agreement
  import opened Stubs
  import opened Guards
  import opened GuardedSites
  import opened OtherGuards
  import opened ForcedGuards
  import opened Installation
  import opened PatchPasses
  import opened PatchedImage

  /** Run from the site, the machine gets to `target`, the target in RAX and the rest as in `t`. */
  ghost predicate Comes(site: U64, s: State, target: U64, t: State) {
    exists u :: Agree(u, t) && Get(u, RAX) == target && Reaches(Running(site, s), Running(target, u))
  }

  lemma SiteJumps(trampoline: U64, site: U64, size: nat, s: State)
    requires size >= 12 && EncodeAbsoluteJump(trampoline, Some(size)).Ok?
    requires HoldsCode(s.mem, site, EncodeAbsoluteJump(trampoline, Some(size)).value)
    ensures Reaches(Running(site, s), Running(trampoline, SetReg(s, RAX, trampoline)))
  {
    hide ItemSteps, ItemStep, WellFormed, HoldsCode, Assemble, EncodeAbsoluteJump, Reaches, ByteSteps, IntactThroughout, Exec;
    var p := SiteJump(trampoline);
    SiteJumpBytes(trampoline, size);
    HoldsPrefix(s.mem, site, EncodeAbsoluteJump(trampoline, Some(size)).value, Assemble(p));
    ExitTo(p, site, 0, s, 2, trampoline);
    ReadOnlyStaysIntact(p, site, AtItem(0, s), 2);
    Exactly(p, site, AtItem(0, s), 2);
  }

  /** From the site through the whole stub, faults included. */
  lemma RunsInPlace(p: Program, a: U64, site: U64, size: nat, s: State, n: nat)
    requires WellFormed(p) && Installed(s.mem, p, a, site, size)
    requires IntactThroughout(p, a, AtItem(0, SetReg(s, RAX, a)), n)
    ensures var end := ItemSteps(p, a, AtItem(0, SetReg(s, RAX, a)), n);
            && (end.Left? ==> Reaches(Running(site, s), Running(end.rip, end.s)))
            && (end.Fault? ==> Reaches(Running(site, s), Faulted))
  {
    hide ItemSteps, ItemStep, WellFormed, HoldsCode, Assemble, EncodeAbsoluteJump, Reaches, ByteSteps, IntactThroughout;
    var s0 := SetReg(s, RAX, a);
    SiteJumps(a, site, size, s);
    Exactly(p, a, AtItem(0, s0), n);
    var end := ItemSteps(p, a, AtItem(0, s0), n);
    if !end.AtItem? {
      ReachesTransitive(Running(site, s), Running(a, s0), Spot(p, a, end));
    }
  }

  lemma ComesWith(site: U64, s: State, c: Control, target: U64, t: State)
    requires LeftFor(c, target, t) && Reaches(Running(site, s), Running(c.rip, c.s))
    ensures Comes(site, s, target, t)
  {
    hide Reaches, Agree;
  }

  /* ---------- 590ec9 ---------- */

  lemma ReadOnly590ec9(resume: U64)
    ensures ReadOnly(Stub590ec9(resume))
  {
    Listing590ec9(resume);
    hide Stub590ec9;
  }

  /** The machine, run into the site, ends up with archive state `r`, or faults for None. */
  ghost predicate SlotResult(site: U64, s: State, resume: U64, r: Option<U64>) {
    if r.None? then Reaches(Running(site, s), Faulted) else Comes(site, s, resume, SetReg(s, RDX, r.value))
  }

  /** The installed stub looks the trampoline's address up, whatever index the site has in RAX. */
  lemma InstalledSlot(a: U64, site: U64, size: nat, s: State, resume: U64)
    requires WellFormed(Stub590ec9(resume)) && Installed(s.mem, Stub590ec9(resume), a, site, size)
    ensures SlotResult(site, s, resume, SlotState(s, a))
  {
    hide ItemSteps, ItemStep, WellFormed, Installed, Reaches, IntactThroughout, Stub590ec9, SlotState, Comes, ReadOnly, Agree;
    var p := Stub590ec9(resume);
    assert HoldsCode(s.mem, a, Assemble(p)) by {
      StubHeld(s.mem, p, a, site, size);
    }
    hide HoldsCode, Assemble;
    ReadOnly590ec9(resume);
    ReadOnlyStaysIntact(p, a, AtItem(0, SetReg(s, RAX, a)), 12);
    Guard590ec9(a, s, a, resume, 12);
    RunsInPlace(p, a, site, size, s, 12);
    if SlotState(s, a).Some? {
      ComesWith(site, s, ItemSteps(p, a, AtItem(0, SetReg(s, RAX, a)), 12), resume, SetReg(s, RDX, SlotState(s, a).value));
    }
  }

  lemma StubHeld(m: Memory, p: Program, a: U64, site: U64, size: nat)
    requires WellFormed(p) && Installed(m, p, a, site, size)
    ensures HoldsCode(m, a, Assemble(p))
  {
  }

  /* ---------- room for a counterexample ---------- */

  /** The 256 bytes from `x` are clear of the 512 from `b`. */
  predicate FarFrom(x: int, b: int) {
    Wrap(x - b + 0x100) >= 0x300
  }

  predicate Near(b: int, i: int) {
    !FarFrom(0x1_0000 * i, b)
  }

  lemma NearOnce(b: int, i: int, j: int)
    requires i < j <= i + 4
    ensures !Near(b, i) || !Near(b, j)
  {
    WrapAdd(0x1_0000 * i - b + 0x100, 0x1_0000 * (j - i));
  }

  lemma NearAtMostOne(b: int)
    ensures forall i, j :: 1 <= i < j <= 5 ==> !Near(b, i) || !Near(b, j)
  {
    forall i, j | 1 <= i < j <= 5
      ensures !Near(b, i) || !Near(b, j)
    {
      NearOnce(b, i, j);
    }
  }

  predicate FarFromAll(i: int, b0: int, b1: int, b2: int, b3: int) {
    !Near(b0, i) && !Near(b1, i) && !Near(b2, i) && !Near(b3, i)
  }

  lemma AwayFrom(k: int, b: int)
    requires !Near(b, k)
    ensures FarFrom(0x1_0000 * k, b)
  {
  }

  /** Four blocks cannot be near all of five spots. */
  lemma FreeSpot(b0: int, b1: int, b2: int, b3: int) returns (x: int)
    ensures 0x1_0000 <= x <= 0x5_0000
    ensures FarFrom(x, b0) && FarFrom(x, b1) && FarFrom(x, b2) && FarFrom(x, b3)
  {
    NearAtMostOne(b0);
    NearAtMostOne(b1);
    NearAtMostOne(b2);
    NearAtMostOne(b3);
    hide Near, FarFrom;
    var k := if FarFromAll(1, b0, b1, b2, b3) then 1 else if FarFromAll(2, b0, b1, b2, b3) then 2
             else if FarFromAll(3, b0, b1, b2, b3) then 3 else if FarFromAll(4, b0, b1, b2, b3) then 4 else 5;
    assert FarFromAll(k, b0, b1, b2, b3);
    x := 0x1_0000 * k;
    AwayFrom(k, b0);
    AwayFrom(k, b1);
    AwayFrom(k, b2);
    AwayFrom(k, b3);
  }

  /** The stub and the jump to it, as memory. */
  function Image(p: Program, a: U64, site: U64, size: nat): Memory
    requires WellFormed(p) && size >= 12
  {
    Block(a, Assemble(p)) + Block(site, JumpTo(a, size))
  }

  /** Stub and site lie in the address space and do not overlap. */
  predicate Fits(p: Program, a: U64, site: U64, size: nat)
    requires WellFormed(p)
  {
    && 12 <= size <= 0x100 && CodeLength(p) <= 0x100
    && a + CodeLength(p) <= 0x1_0000_0000_0000_0000 && site + size <= 0x1_0000_0000_0000_0000
    && (a + CodeLength(p) <= site || site + size <= a)
  }

  ghost predicate Contains(m: Memory, part: Memory) {
    forall x :: x in part ==> x in m && m[x] == part[x]
  }

  lemma ImageInstalled(m: Memory, p: Program, a: U64, site: U64, size: nat)
    requires WellFormed(p) && Fits(p, a, site, size) && Contains(m, Image(p, a, site, size))
    ensures Installed(m, p, a, site, size)
  {
    hide WellFormed, Assemble, JumpTo, HoldsCode, CodeLength;
    JumpLength(a, size);
    JumpIsEncoded(a, size);
    var stub, jump := Assemble(p), JumpTo(a, size);
    forall x: U64 | Within(x, a, |stub|)
      ensures x in m && m[x] == stub[x - a]
    {
      assert x in Image(p, a, site, size) && !Within(x, site, size);
    }
    BlockHoldsCode(a, stub, m);
    forall x: U64 | Within(x, site, size)
      ensures x in m && m[x] == jump[x - site]
    {
      assert x in Image(p, a, site, size);
    }
    BlockHoldsCode(site, jump, m);
  }

  /** Image addresses are near the stub or near the site. */
  lemma ImageNear(p: Program, a: U64, site: U64, size: nat, x: U64)
    requires WellFormed(p) && Fits(p, a, site, size) && x in Image(p, a, site, size)
    ensures Wrap(x - a) < 0x100 || Wrap(x - site) < 0x100
  {
    hide WellFormed, Assemble, JumpTo, CodeLength;
    JumpLength(a, size);
  }

  lemma FarOutside(x: int, b: int, y: int)
    requires FarFrom(x, b) && 0 <= y < 0x100
    ensures Wrap(x + y - b) >= 0x200
  {
    WrapAdd(x - b + 0x100, y - 0x100);
  }

  /** A free spot is not part of the image, nor is any of the bytes behind it. */
  lemma FarFromImage(p: Program, a: U64, site: U64, size: nat, x: int, y: int, d: int)
    requires WellFormed(p) && Fits(p, a, site, size) && FarFrom(x, a - d) && FarFrom(x, site - d) && 0 <= y < 0x100
    ensures Wrap(x + y + d) !in Image(p, a, site, size)
  {
    hide Image, FarFrom, WellFormed, CodeLength, Wrap;
    FarOutside(x, a - d, y);
    FarOutside(x, site - d, y);
    WrapSub(x + y + d, a);
    WrapSub(x + y + d, site);
    var z := Wrap(x + y + d);
    if z in Image(p, a, site, size) {
      ImageNear(p, a, site, size, z);
    }
  }

  lemma {:induction false} ZeroLoad(m: Memory, a: U64, n: nat)
    requires a + n <= 0x1_0000_0000_0000_0000 && forall x: U64 :: a <= x < a + n ==> x in m && m[x] == 0
    ensures Mapped(m, a, n) && Load(m, a, n) == 0
    decreases n
  {
    if n > 0 {
      assert a <= a < a + n;
      ZeroLoad(m, Wrap(a + 1), n - 1);
    }
  }

  /** A state whose index register is `i` and whose table register is `r11`. */
  function LookupState(i: U64, r11: U64, m: Memory): State {
    SetReg(SetReg(State(seq(16, _ => 0), false, false, m), RAX, i), R11, r11)
  }

  lemma LookupRegisters(i: U64, r11: U64, m: Memory)
    ensures var s := LookupState(i, r11, m);
            s.mem == m && Get(s, RAX) == i && Get(s, R11) == r11 && Get(s, RBX) == 0
  {
  }

  /** A state of an installed site with archive index `i`. */
  ghost predicate AtSlotSite(s: State, a: U64, site: U64, i: U64, resume: U64)
    requires WellFormed(Stub590ec9(resume))
  {
    Installed(s.mem, Stub590ec9(resume), a, site, 17) && Get(s, RAX) == i
  }

  /**
   Whatever the rest of the state, the installed stub yields what it is meant to yield for the
   site's index if and only if the index and the trampoline's address have the same slot.
   */
  lemma SlotKeptExactly(a: U64, site: U64, i: U64, resume: U64)
    requires WellFormed(Stub590ec9(resume)) && Fits(Stub590ec9(resume), a, site, 17)
    ensures (forall s :: AtSlotSite(s, a, site, i, resume) ==> SlotState(s, a) == SlotState(s, i))
            <==> Wrap(32 * a) == Wrap(32 * i)
  {
    hide WellFormed, Stub590ec9, Installed, Fits, SlotState, Missing;
    if Wrap(32 * a) == Wrap(32 * i) {
      forall s | AtSlotSite(s, a, site, i, resume)
        ensures SlotState(s, a) == SlotState(s, i)
      {
        SameSlot(s, a, i);
      }
    } else {
      var s := SlotLost(a, site, i, resume);
    }
  }

  lemma SameSlot(s: State, a: U64, i: U64)
    requires Wrap(32 * a) == Wrap(32 * i)
    ensures SlotState(s, a) == SlotState(s, i)
  {
    hide Field, Wrap;
  }

  lemma SlotDistance(a: U64, i: U64)
    requires Wrap(32 * a) != Wrap(32 * i)
    ensures 32 <= Wrap(32 * a - 32 * i) <= 0x1_0000_0000_0000_0000 - 32
  {
    WrapSub(32 * a, 32 * i);
    InThirtyTwos(a);
    InThirtyTwos(i);
  }

  lemma InThirtyTwos(a: int)
    ensures Wrap(32 * a) % 32 == 0
  {
  }

  /** `part` at a free spot next to an installed stub. */
  lemma PlacedApart(p: Program, a: U64, site: U64, size: nat, x: int, part: seq<Byte>)
    requires WellFormed(p) && Fits(p, a, site, size) && FarFrom(x, a) && FarFrom(x, site) && 0 <= x <= 0x10_0000 && |part| <= 0x100
    ensures var m := Image(p, a, site, size) + Block(x, part);
            && Installed(m, p, a, site, size)
            && forall y: U64 :: x <= y < x + |part| ==> y in m && m[y] == part[y - x]
  {
    hide WellFormed, Installed, Image, FarFrom, CodeLength;
    var m := Image(p, a, site, size) + Block(x, part);
    forall y: U64 | y in Image(p, a, site, size)
      ensures y in m && m[y] == Image(p, a, site, size)[y]
    {
      if x <= y < x + |part| {
        assert Wrap(x + (y - x) + 0) == y;
        FarFromImage(p, a, site, size, x, y - x, 0);
      }
    }
    ImageInstalled(m, p, a, site, size);
    assert forall y: U64 :: x <= y < x + |part| ==> Within(y, x, |part|);
  }

  /** A slot that can be read, and nothing where the stub looks instead. */
  lemma SlotLost(a: U64, site: U64, i: U64, resume: U64) returns (s: State)
    requires WellFormed(Stub590ec9(resume)) && Fits(Stub590ec9(resume), a, site, 17) && Wrap(32 * a) != Wrap(32 * i)
    ensures AtSlotSite(s, a, site, i, resume) && SlotState(s, i) == Some(0) && SlotState(s, a) == None
  {
    hide WellFormed, Stub590ec9, Installed, Fits, Image, Wrap, Mapped, Load, FarFrom;
    var p, d := Stub590ec9(resume), 32 * a - 32 * i;
    var x := FreeSpot(a, site, a - d, site - d);
    var zero: seq<Byte> := seq(8, _ => 0);
    var m := Image(p, a, site, 17) + Block(x, zero);
    PlacedApart(p, a, site, 17, x, zero);
    s := LookupState(i, Wrap(x - 32 * i - 0x1_0C10), m);
    LookupRegisters(i, Wrap(x - 32 * i - 0x1_0C10), m);
    LookedUp(i, i, x);
    LookedUp(a, i, x);
    hide LookupState;
    ZeroLoad(m, x, 8);
    assert SlotPointer(s, i) == Some(0);
    FarFromImage(p, a, site, 17, x, 0, d);
    SlotDistance(a, i);
    Beyond(x, d);
    Absent(m, Wrap(x + d), 8);
    assert SlotPointer(s, a) == None;
  }

  lemma LookedUp(j: U64, i: U64, x: int)
    ensures Wrap(Wrap(32 * j) + Wrap(x - 32 * i - 0x1_0C10) + 0x1_0C10) == Wrap(x + (32 * j - 32 * i))
  {
  }

  lemma Beyond(x: int, d: int)
    requires 0 <= x < 0x10_0000 && 32 <= Wrap(d) <= 0x1_0000_0000_0000_0000 - 32
    ensures !(x <= Wrap(x + d) < x + 8)
  {
    WrapAdd(x + d, -x);
  }

  lemma Absent(m: Memory, a: U64, n: nat)
    requires a !in m && n > 0
    ensures !Mapped(m, a, n)
  {
  }

  /* ---------- 5927f2 ---------- */

  /** The instructions displaced at 0x5927F2: swap the new table into the owner's slot, keeping the old one. */
  function Displaced5927f2(): Program {
    [
      Ins(Mov(W64, R(RDI), From(At(RAX, 0))), Alt),
      Ins(Mov(W64, At(RAX, 0), From(R(R15))), Std),
      Ins(Alu(Test, W64, R(RDI), From(R(RDI))), Std),
      Ins(Jcc(E, 0x29), Alt),
      Ins(Lea(W64, RCX, At(RDI, 8)), Std)
    ]
  }

  lemma Encodable5927f2()
    ensures WellFormed(Displaced5927f2())
  {
    hide Encode, Offset;
    CodeLengthBound(Displaced5927f2());
  }

  lemma LoadRdiRax()
    ensures Encode(Mov(W64, R(RDI), From(At(RAX, 0))), Alt) == [0x48, 0x8B, 0x38]
  {
  }

  lemma LeaRcxRdi()
    ensures Encode(Lea(W64, RCX, At(RDI, 8)), Std) == [0x48, 0x8D, 0x4F, 0x08]
  {
  }

  lemma Expected5927f2()
    ensures WellFormed(Displaced5927f2()) && Assemble(Displaced5927f2()) == EXPECTED_5927F2
    ensures Offset(Displaced5927f2(), 4) == 11
  {
    hide Encode, WellFormed, Layout;
    var p := Displaced5927f2();
    Encodable5927f2();
    LaidNone(p);
    LoadRdiRax();
    Laid(p, 0);
    StoreRaxR15();
    Laid(p, 1);
    assert Layout(p, 2) == [0x48, 0x8B, 0x38, 0x4C, 0x89, 0x38];
    TestRdi();
    Laid(p, 2);
    ShortJump(E, 0x74, 0x29);
    Laid(p, 3);
    assert Layout(p, 4) == [0x48, 0x8B, 0x38, 0x4C, 0x89, 0x38, 0x48, 0x85, 0xFF, 0x74, 0x29];
    LeaRcxRdi();
    Laid(p, 4);
    assert Layout(p, 5) == EXPECTED_5927F2;
  }

  /** The displaced code publishes whatever table it is given in the owner's slot, and skips the release of an absent old one. */
  lemma Block5927f2(site: U64, s: State, n: nat)
    requires n >= 6
    ensures var block := ItemSteps(Displaced5927f2(), site, AtItem(0, s), n);
            var slot := Get(s, RAX);
            if !Mapped(s.mem, slot, 8) then block.Fault?
            else
              var previous: int := Load64(s.mem, slot);
              var t := SetReg(s, RDI, previous).(mem := Store(s.mem, slot, 8, Get(s, R15)));
              && block.Left?
              && block.rip == Wrap(site + (if previous == 0 then 0x34 else 15))
              && Agree(block.s, if previous == 0 then t else SetReg(t, RCX, Wrap(previous + 8)))
  {
    hide ItemSteps, ItemStep, Exec, Encode, Offset, Agree, Mapped, Load, Store, Wrap, WellFormed, Assemble;
    Expected5927f2();
    var q, slot := Displaced5927f2(), Get(s, RAX);
    assert CodeLength(q) == |EXPECTED_5927F2| == 15;
    var value := Field(s, slot, W64);
    if value.None? {
      SetFaults(q, site, 0, s, n);
    } else {
      var previous: int := value.value;
      var s1 := Set(q, site, 0, s, n, previous);
      var s2 := Put(q, site, 1, s1, n - 1, Get(s, R15));
      var s3 := TestSelf(q, site, 2, s2, n - 2);
      AgreeFlagged(s2, s3.zf, s3.cf);
      DecideOut(q, site, 3, s3, n - 3);
      WrapAdd(site + 11, 0x29);
      if previous != 0 {
        var s4 := Address(q, site, 4, s3, n - 4);
        AgreeSet(s3, s2, RCX, Wrap(previous + 8));
        FallOff(q, site, s4, n - 5);
      }
    }
  }

  /** What the installed stub makes of memory: the table's address over the stub's own first bytes. */
  function Published(s: State, a: U64): Memory
    requires Mapped(s.mem, a, 8)
  {
    Store(s.mem, a, 8, Get(s, R15))
  }

  lemma {:induction false} CodeIsMapped(m: Memory, a: U64, bytes: seq<Byte>)
    requires HoldsCode(m, a, bytes)
    ensures Mapped(m, a, |bytes|)
    decreases |bytes|
  {
    if bytes != [] {
      assert ByteAt(m, a + 0, bytes[0]);
      CodeSlice(m, a, bytes, 1, |bytes|);
      CodeIsMapped(m, Wrap(a + 1), bytes[1..]);
    }
  }

  lemma {:induction false} StoredBytes(m: Memory, a: U64, n: nat, v: nat)
    requires Mapped(m, a, n) && n <= 8
    ensures HoldsCode(Store(m, a, n, v), a, LittleEndian(v, n))
    decreases n
  {
    if n > 0 {
      var next := Wrap(a + 1);
      var m' := m[a := v % 0x100];
      MappedSameKeys(m, m', next, n - 1);
      StoredBytes(m', next, n - 1, v / 0x100);
      var bytes, rest := LittleEndian(v, n), LittleEndian(v / 0x100, n - 1);
      var after := Store(m, a, n, v);
      OutsideByDistance(a, next, n - 1);
      StoreFrame(m', next, n - 1, v / 0x100, a);
      forall i: nat | i < |bytes|
        ensures ByteAt(after, a + i, bytes[i])
      {
        if i > 0 {
          assert ByteAt(after, next + (i - 1), rest[i - 1]);
          WrapAdd(a + 1, i - 1);
        }
      }
    }
  }

  /** Code behind what a store writes is still there. */
  lemma CodeKept(m: Memory, a: U64, n: nat, v: nat, d: nat, bytes: seq<Byte>)
    requires Mapped(m, a, n) && HoldsCode(m, Wrap(a + d), bytes)
    requires n <= d && d + |bytes| <= 0x1_0000_0000_0000_0000
    ensures HoldsCode(Store(m, a, n, v), Wrap(a + d), bytes)
  {
    hide Store, Mapped;
    forall i: nat | i < |bytes|
      ensures ByteAt(Store(m, a, n, v), Wrap(a + d) + i, bytes[i])
    {
      assert ByteAt(m, Wrap(a + d) + i, bytes[i]);
      WrapAdd(a + d, i);
      WrapSub(a + d + i, a);
      OutsideByDistance(Wrap(a + d + i), a, n);
      StoreFrame(m, a, n, v, Wrap(a + d + i));
    }
  }

  /** The stub's first eight bytes are the table's address now; it is still the stub only if they were that before. */
  lemma StubOverwritten(m: Memory, p: Program, a: U64, v: U64)
    requires WellFormed(p) && HoldsCode(m, a, Assemble(p)) && 8 <= CodeLength(p) < 0x8000_0000 && Mapped(m, a, 8)
    ensures HoldsCode(Store(m, a, 8, v), a, LittleEndian(v, 8))
    ensures HoldsCode(Store(m, a, 8, v), a, Assemble(p)) <==> Assemble(p)[..8] == LittleEndian(v, 8)
  {
    hide WellFormed, Assemble, Store, Mapped, LittleEndian;
    var m', code, bytes := Store(m, a, 8, v), Assemble(p), LittleEndian(v, 8);
    StoredBytes(m, a, 8, v);
    if HoldsCode(m', a, code) {
      forall i: nat | i < 8
        ensures code[i] == bytes[i]
      {
        assert ByteAt(m', a + i, code[i]) && ByteAt(m', a + i, bytes[i]);
      }
    }
    if code[..8] == bytes {
      CodeSlice(m, a, code, 8, |code|);
      CodeKept(m, a, 8, v, 8, code[8..|code|]);
      forall i: nat | i < |code|
        ensures ByteAt(m', a + i, code[i])
      {
        if i < 8 {
          assert ByteAt(m', a + i, bytes[i]) && code[..8][i] == code[i];
        } else {
          assert ByteAt(m', Wrap(a + 8) + (i - 8), code[8..|code|][i - 8]);
          WrapAdd(a + 8, i - 8);
        }
      }
    }
  }

  /** Every item of the exit has its bytes. */
  ghost predicate ExitIntact(p: Program, a: U64, m: Memory)
    requires |p| == 11 && p[9].Ins? && p[10].Ins?
  {
    Intact(p, a, 9, m) && Intact(p, a, 10, m)
  }

  /** While the publication stub runs: up to its store memory is as at the start, and from there on the exit is in place. */
  ghost predicate Publishing(p: Program, a: U64, m: Memory, c: Control)
    requires |p| == 11 && p[9].Ins? && p[10].Ins?
  {
    c.AtItem? ==>
      && c.k < 11
      && (if c.k <= 8 then c.s.mem == m && Get(c.s, RAX) == a else ExitIntact(p, a, c.s.mem))
  }

  /** A comparison changes neither registers nor memory. */
  lemma ComparesOnly(i: Instr, next: U64, s: State)
    requires i.Alu? && (i.op == Cmp || i.op == Test) && Exec(i, next, s).Running?
    ensures Exec(i, next, s).s.mem == s.mem && Exec(i, next, s).s.regs == s.regs
  {
    hide Mapped, Load, Read, ReadSource;
  }

  lemma StoreBeforeExit(p: Program, a: U64, m: Memory, v: U64)
    requires |p| == 11 && p[9].Ins? && p[10].Ins? && ExitIntact(p, a, m) && Mapped(m, a, 8)
    requires 8 <= Offset(p, 9) && CodeLength(p) <= 0x100
    ensures ExitIntact(p, a, Store(m, a, 8, v))
  {
    hide ItemBytes, Store, Mapped, HoldsCode, Wrap, Offset, ItemLength;
    OffsetMonotonic(p, 9, 10);
    OffsetStep(p, 9);
    OffsetStep(p, 10);
    CodeKept(m, a, 8, v, Offset(p, 9), ItemBytes(p, 9));
    CodeKept(m, a, 8, v, Offset(p, 10), ItemBytes(p, 10));
  }

  lemma OffsetStep(p: Program, k: nat)
    requires k < |p|
    ensures Offset(p, k + 1) == Offset(p, k) + ItemLength(p[k]) && Offset(p, k + 1) <= CodeLength(p)
  {
    hide ItemLength;
    OffsetMonotonic(p, k + 1, |p|);
  }

  lemma Sizes5927f2(skip: U64)
    requires WellFormed(Stub5927f2(skip))
    ensures var p := Stub5927f2(skip);
            |p| == 11 && p[9].Ins? && p[10].Ins? && 8 <= Offset(p, 9) && CodeLength(p) <= 0x100
  {
    hide Offset, Encode, CodeLength;
    Listing5927f2(skip);
    var p := Stub5927f2(skip);
    CodeLengthBound(p);
    OffsetStep(p, 1);
    OffsetStep(p, 3);
    OffsetMonotonic(p, 2, 3);
    OffsetMonotonic(p, 4, 9);
  }

  lemma StoresAt(a: U64, next: U64, s: State)
    requires Get(s, RAX) == a && Exec(Mov(W64, At(RAX, 0), From(R(R15))), next, s).Running?
    ensures Mapped(s.mem, a, 8) && Exec(Mov(W64, At(RAX, 0), From(R(R15))), next, s).s.mem == Store(s.mem, a, 8, Get(s, R15))
  {
    hide Mapped, Store;
    assert EffectiveAddress(s, At(RAX, 0)) == a;
  }

  /** One step of the publication stub. */
  lemma PublishStep(skip: U64, a: U64, m: Memory, k: nat, s: State)
    requires WellFormed(Stub5927f2(skip)) && HoldsCode(m, a, Assemble(Stub5927f2(skip)))
    ensures var p := Stub5927f2(skip);
            |p| == 11 && p[9].Ins? && p[10].Ins?
            && (Publishing(p, a, m, AtItem(k, s)) ==>
                  && Intact(p, a, k, s.mem)
                  && Publishing(p, a, m, ItemStep(p, a, AtItem(k, s))))
  {
    hide Exec, WellFormed, Assemble, HoldsCode, Offset, Wrap, Intact, Stub5927f2, CodeLength, Get;
    Listing5927f2(skip);
    Sizes5927f2(skip);
    var p := Stub5927f2(skip);
    HeldItem(p, a, 9, m);
    HeldItem(p, a, 10, m);
    if Publishing(p, a, m, AtItem(k, s)) {
      if k <= 8 {
        HeldItem(p, a, k, m);
      }
      PublishItem(p, skip, a, m, k, s);
    }
  }

  lemma PublishItem(p: Program, skip: U64, a: U64, m: Memory, k: nat, s: State)
    requires p == Stub5927f2(skip) && |p| == 11 && p[9].Ins? && p[10].Ins? && 8 <= Offset(p, 9) && CodeLength(p) <= 0x100
    requires Publishing(p, a, m, AtItem(k, s)) && ExitIntact(p, a, m)
    ensures Publishing(p, a, m, ItemStep(p, a, AtItem(k, s)))
  {
    hide Exec, Offset, Wrap, ExitIntact, Stub5927f2, CodeLength, Store, Mapped;
    Listing5927f2(skip);
    var next := Wrap(a + Offset(p, k + 1));
    if k % 2 == 0 && k < 8 {
      if Exec(p[k].instr, next, s).Running? {
        ComparesOnly(p[k].instr, next, s);
      }
    } else if k == 8 {
      if Exec(p[k].instr, next, s).Running? {
        StoresAt(a, next, s);
        StoreBeforeExit(p, a, m, Get(s, R15));
      }
    } else if k == 9 {
      ExecSetsRax(p[9].instr, next, s);
    }
  }

  /** The stub overwrites only what it has already executed. */
  lemma {:induction false} PublishesIntact(skip: U64, a: U64, m: Memory, c: Control, n: nat)
    requires WellFormed(Stub5927f2(skip)) && HoldsCode(m, a, Assemble(Stub5927f2(skip)))
    requires var p := Stub5927f2(skip); |p| == 11 && p[9].Ins? && p[10].Ins? && Publishing(p, a, m, c)
    ensures IntactThroughout(Stub5927f2(skip), a, c, n)
    decreases n
  {
    hide ItemStep, WellFormed, Assemble, HoldsCode, Intact, Stub5927f2, Publishing;
    if n > 0 && c.AtItem? && c.k < |Stub5927f2(skip)| {
      PublishStep(skip, a, m, c.k, c.s);
      PublishesIntact(skip, a, m, ItemStep(Stub5927f2(skip), a, c), n - 1);
    }
  }

  /**
   The installed stub, in every state: it refuses an unhealthy table, publishes a healthy one over
   its own first eight bytes, leaving for the skip target all the same, and otherwise faults.
   */
  lemma InstalledPublication(a: U64, site: U64, size: nat, s: State, skip: U64)
    requires WellFormed(Stub5927f2(skip)) && Installed(s.mem, Stub5927f2(skip), a, site, size)
    ensures Mapped(s.mem, a, 8)
    ensures if Unhealthy(s) then Comes(site, s, skip, s)
            else if Healthy(s) then Comes(site, s, skip, s.(mem := Published(s, a)))
            else Reaches(Running(site, s), Faulted)
  {
    hide ItemSteps, ItemStep, WellFormed, HoldsCode, Reaches, IntactThroughout, Stub5927f2, Comes, Agree, Store, Field, Assemble,
      EncodeAbsoluteJump, CodeLength, Mapped, Healthy, Unhealthy;
    var p, s0 := Stub5927f2(skip), SetReg(s, RAX, a);
    Sizes5927f2(skip);
    OffsetStep(p, 9);
    StubHeld(s.mem, p, a, site, size);
    CodeIsMapped(s.mem, a, Assemble(p));
    MappedPrefix(s.mem, a, |Assemble(p)|, 8);
    assert Publishing(p, a, s.mem, AtItem(0, s0));
    PublishesIntact(skip, a, s.mem, AtItem(0, s0), 11);
    Guard5927f2(a, s, a, skip, 11);
    RunsInPlace(p, a, site, size, s, 11);
    var c := ItemSteps(p, a, AtItem(0, s0), 11);
    if Unhealthy(s) {
      ComesWith(site, s, c, skip, s);
    } else if Healthy(s) {
      ComesWith(site, s, c, skip, s.(mem := Published(s, a)));
    }
  }

  lemma HealthyIsNotUnhealthy(s: State)
    requires Healthy(s)
    ensures !Unhealthy(s)
  {
    hide Field;
  }

  lemma {:induction false} MappedPrefix(m: Memory, a: U64, n: nat, k: nat)
    requires Mapped(m, a, n) && k <= n
    ensures Mapped(m, a, k)
    decreases k
  {
    if k > 0 {
      MappedPrefix(m, Wrap(a + 1), n - 1, k - 1);
    }
  }

  /**
   So the owner's slot, whose address the site has in RAX, keeps its value when it lies apart from
   those eight bytes, and the stub is itself again only if they were the table's address before.
   */
  lemma PublicationMissesSlot(a: U64, site: U64, size: nat, s: State, skip: U64)
    requires WellFormed(Stub5927f2(skip)) && Installed(s.mem, Stub5927f2(skip), a, site, size) && Healthy(s)
    requires Mapped(s.mem, Get(s, RAX), 8) && Apart(Get(s, RAX), 8, a, 8)
    ensures Mapped(s.mem, a, 8) && Comes(site, s, skip, s.(mem := Published(s, a)))
    ensures Mapped(Published(s, a), Get(s, RAX), 8) && Load64(Published(s, a), Get(s, RAX)) == Load64(s.mem, Get(s, RAX))
    ensures HoldsCode(Published(s, a), a, LittleEndian(Get(s, R15), 8)) && CodeLength(Stub5927f2(skip)) >= 8
    ensures HoldsCode(Published(s, a), a, Assemble(Stub5927f2(skip)))
            <==> Assemble(Stub5927f2(skip))[..8] == LittleEndian(Get(s, R15), 8)
  {
    hide WellFormed, HoldsCode, Stub5927f2, Comes, Store, Field, Assemble, EncodeAbsoluteJump, CodeLength, Mapped, Load, Apart, Healthy,
      Unhealthy, LittleEndian;
    HealthyIsNotUnhealthy(s);
    InstalledPublication(a, site, size, s, skip);
    Sizes5927f2(skip);
    OffsetStep(Stub5927f2(skip), 9);
    StubHeld(s.mem, Stub5927f2(skip), a, site, size);
    StubOverwritten(s.mem, Stub5927f2(skip), a, Get(s, R15));
    LoadApart(s.mem, a, 8, Get(s, R15), Get(s, RAX), 8);
  }

  /** A slot apart from what is overwritten, or the very place: afterwards it holds the table only if it did before, or is that place. */
  lemma SlotHoldsTable(s: State, a: U64, v: U64)
    requires Mapped(s.mem, a, 8) && Mapped(s.mem, v, 8) && (v == a || Apart(v, 8, a, 8))
    ensures Mapped(Published(s, a), v, 8)
    ensures Load64(Published(s, a), v) == Get(s, R15) <==> v == a || Load64(s.mem, v) == Get(s, R15)
  {
    hide Store, Mapped, Load, Apart;
    if v == a {
      Pow256Values();
      LoadStored(s.mem, a, 8, Get(s, R15));
    } else {
      LoadApart(s.mem, a, 8, Get(s, R15), v, 8);
    }
  }

  /** The slot lies in the address space, clear of stub and site. */
  predicate SlotClear(a: U64, site: U64, v: U64) {
    && v + 8 <= 0x1_0000_0000_0000_0000
    && (v + 8 <= a || a + 0x100 <= v) && (v + 8 <= site || site + 0x100 <= v)
  }

  /** A state of an installed site with a healthy table and the owner's slot at `v`. */
  ghost predicate AtPublicationSite(s: State, a: U64, site: U64, v: U64, skip: U64)
    requires WellFormed(Stub5927f2(skip))
  {
    && Installed(s.mem, Stub5927f2(skip), a, site, 15) && Healthy(s)
    && Get(s, RAX) == v && Mapped(s.mem, v, 8) && Mapped(s.mem, a, 8)
  }

  ghost predicate Receives(s: State, a: U64, v: U64)
    requires Mapped(s.mem, a, 8)
  {
    Mapped(Published(s, a), v, 8) && Load64(Published(s, a), v) == Get(s, R15)
  }

  /**
   The installed stub publishes where the displaced code does, in every state, if and only if the
   owner's slot is the trampoline itself.
   */
  lemma SlotReceivesExactly(a: U64, site: U64, v: U64, skip: U64)
    requires WellFormed(Stub5927f2(skip)) && Fits(Stub5927f2(skip), a, site, 15) && (v == a || SlotClear(a, site, v))
    ensures (forall s :: AtPublicationSite(s, a, site, v, skip) ==> Receives(s, a, v)) <==> v == a
  {
    hide WellFormed, Stub5927f2, Installed, Fits, Healthy, Published, Load, Mapped;
    if v == a {
      forall s | AtPublicationSite(s, a, site, v, skip)
        ensures Receives(s, a, v)
      {
        SlotHoldsTable(s, a, v);
      }
    } else {
      var s := SlotKept(a, site, v, skip);
    }
  }

  /** The table every check accepts: kind 0x42, 0x43 entries, an entry array. */
  function HealthyTable(): seq<Byte> {
    seq(0x20, i => if i == 0 then 0x42 else if i == 0x10 then 0x43 else if i == 0x18 then 1 else 0)
  }

  lemma LowByteLoad(m: Memory, a: U64, n: nat, b: Byte)
    requires n > 0 && a + n <= 0x1_0000_0000_0000_0000 && a in m && m[a] == b
    requires forall x: U64 :: a < x < a + n ==> x in m && m[x] == 0
    ensures Mapped(m, a, n) && Load(m, a, n) == b
  {
    if n > 1 {
      ZeroLoad(m, a + 1, n - 1);
    }
  }

  lemma HealthyAt(s: State, x: U64)
    requires 0 < x <= 0x10_0000 && Get(s, R15) == x
    requires forall y: U64 :: x <= y < x + 0x20 ==> y in s.mem && s.mem[y] == HealthyTable()[y - x]
    ensures Healthy(s)
  {
    hide Mapped, Load;
    LowByteLoad(s.mem, x, 4, 0x42);
    LowByteLoad(s.mem, x + 0x10, 8, 0x43);
    LowByteLoad(s.mem, x + 0x18, 8, 1);
  }

  function PublicationState(table: U64, slot: U64, m: Memory): State {
    SetReg(SetReg(State(seq(16, _ => 0), false, false, m), RAX, slot), R15, table)
  }

  lemma PublicationRegisters(table: U64, slot: U64, m: Memory)
    ensures var s := PublicationState(table, slot, m);
            s.mem == m && Get(s, RAX) == slot && Get(s, R15) == table
  {
  }

  lemma FarFromSlot(x: int, v: U64, y: int)
    requires FarFrom(x, v) && 0 <= x <= 0x10_0000 && v <= y < v + 8
    ensures !(x <= y < x + 0x100)
  {
    if x <= y < x + 0x100 {
      FarOutside(x, v, y - x);
    }
  }

  /** A zero slot, clear of everything, that is still zero afterwards. */
  lemma SlotKept(a: U64, site: U64, v: U64, skip: U64) returns (s: State)
    requires WellFormed(Stub5927f2(skip)) && Fits(Stub5927f2(skip), a, site, 15) && SlotClear(a, site, v)
    ensures AtPublicationSite(s, a, site, v, skip) && !Receives(s, a, v)
  {
    hide WellFormed, Stub5927f2, Installed, Image, Mapped, Load, FarFrom, Healthy, HealthyTable, CodeLength, Store;
    var p := Stub5927f2(skip);
    var x := FreeSpot(a, site, v, v);
    var zero: seq<Byte> := seq(8, _ => 0);
    assert |HealthyTable()| == 0x20 by {
      TableLength();
    }
    PlacedApart(p, a, site, 15, x, HealthyTable());
    var n := Image(p, a, site, 15) + Block(x, HealthyTable());
    var m := n + Block(v, zero);
    StillInstalled(n, p, a, site, v, zero);
    SlotAdded(n, v, x, HealthyTable(), zero);
    s := PublicationState(x, v, m);
    PublicationRegisters(x, v, m);
    hide PublicationState;
    HealthyAt(s, x);
    ZeroLoad(m, v, 8);
    StubHeld(m, p, a, site, 15);
    StubMapped(m, skip, a);
    SlotApart(a, site, v);
    SlotHoldsTable(s, a, v);
  }

  lemma TableLength()
    ensures |HealthyTable()| == 0x20
  {
  }

  lemma StubMapped(m: Memory, skip: U64, a: U64)
    requires WellFormed(Stub5927f2(skip)) && HoldsCode(m, a, Assemble(Stub5927f2(skip)))
    ensures Mapped(m, a, 8) && CodeLength(Stub5927f2(skip)) >= 8
  {
    hide WellFormed, HoldsCode, Assemble, Mapped, Stub5927f2, CodeLength;
    Sizes5927f2(skip);
    OffsetStep(Stub5927f2(skip), 9);
    CodeIsMapped(m, a, Assemble(Stub5927f2(skip)));
    MappedPrefix(m, a, |Assemble(Stub5927f2(skip))|, 8);
  }

  lemma SlotApart(a: U64, site: U64, v: U64)
    requires SlotClear(a, site, v) && a + 8 <= 0x1_0000_0000_0000_0000
    ensures Apart(v, 8, a, 8)
  {
    ApartByDistance(v, 8, a, 8);
  }

  lemma HoldsElsewhere(m: Memory, a: U64, bytes: seq<Byte>, v: U64, zero: seq<Byte>)
    requires HoldsCode(m, a, bytes) && a + |bytes| <= 0x1_0000_0000_0000_0000
    requires v + |zero| <= a || a + |bytes| <= v
    ensures HoldsCode(m + Block(v, zero), a, bytes)
  {
    forall i: nat | i < |bytes|
      ensures ByteAt(m + Block(v, zero), a + i, bytes[i])
    {
      assert ByteAt(m, a + i, bytes[i]);
    }
  }

  /** A slot clear of stub and site does not disturb them. */
  lemma StillInstalled(m: Memory, p: Program, a: U64, site: U64, v: U64, zero: seq<Byte>)
    requires WellFormed(p) && Fits(p, a, site, 15) && SlotClear(a, site, v) && |zero| == 8 && Installed(m, p, a, site, 15)
    ensures Installed(m + Block(v, zero), p, a, site, 15)
  {
    hide WellFormed, Assemble, CodeLength, HoldsCode, EncodeAbsoluteJump, JumpTo, Block;
    JumpIsEncoded(a, 15);
    JumpLength(a, 15);
    HoldsElsewhere(m, a, Assemble(p), v, zero);
    HoldsElsewhere(m, site, JumpTo(a, 15), v, zero);
  }

  /** Nor does it disturb a table at a free spot. */
  lemma SlotAdded(m: Memory, v: U64, x: int, table: seq<Byte>, zero: seq<Byte>)
    requires v + 8 <= 0x1_0000_0000_0000_0000 && |zero| == 8 && (forall b :: b in zero ==> b == 0)
    requires FarFrom(x, v) && 0x1_0000 <= x <= 0x5_0000 && |table| == 0x20
    requires forall y: U64 :: x <= y < x + 0x20 ==> y in m && m[y] == table[y - x]
    ensures forall y: U64 :: x <= y < x + 0x20 ==> y in m + Block(v, zero) && (m + Block(v, zero))[y] == table[y - x]
    ensures forall y: U64 :: v <= y < v + 8 ==> y in m + Block(v, zero) && (m + Block(v, zero))[y] == 0
  {
    hide FarFrom;
    forall y: U64 | x <= y < x + 0x20
      ensures y !in Block(v, zero)
    {
      if v <= y < v + 8 {
        FarFromSlot(x, v, y);
      }
    }
    forall y: U64 | v <= y < v + 8
      ensures y in Block(v, zero) && Block(v, zero)[y] == 0
    {
      assert Within(y, v, 8) && zero[y - v] in zero;
    }
  }
}
