/**
 Putting the pieces together: what the launcher's passes leave in process memory, and what the
 machine then does when it runs into a patched site.
 */
module PatchedImage {
  import opened Wrappers
  import opened Words
  import opened ProcessMemory
  import opened Machine
  import opened JumpEncoders
  import opened Programs
  import opened PatchTables
  import opened Agreement
  import opened Stubs
  import opened StubDrafts
  import opened GuardTable
  import opened Guards
  import opened Installation
  import opened PatchPasses
  import opened PatchProcess

  /* ---------- running a pass twice ---------- */

  lemma JumpIsNotExpected(b: Builder, allocation: U64)
    ensures |SpecOf(b).expected| >= 12
    ensures JumpTo(allocation, |SpecOf(b).expected|) != SpecOf(b).expected
  {
    hide LittleEndian;
    var jump := JumpTo(allocation, |SpecOf(b).expected|);
    assert jump[0] == 0x48 && jump[1] == 0xB8;
    FirstTwoBytes(b);
  }

  lemma FirstTwoBytes(b: Builder)
    ensures |SpecOf(b).expected| >= 12 && (SpecOf(b).expected[0] != 0x48 || SpecOf(b).expected[1] != 0xB8)
  {
  }

  /** None of the three passes ever writes the bytes it looks for. */
  lemma RequestsChange(m: Memory, imageBase: int, offset: int, target: int, answer: Option<U64>)
    ensures Applicable(m, NullReadRequest(imageBase, offset)) ==> Changes(m, NullReadRequest(imageBase, offset))
    ensures Applicable(m, InlineRequest(imageBase, offset)) ==> Changes(m, InlineRequest(imageBase, offset))
    ensures var r := JumpRequest(imageBase, offset, target, answer);
            Applicable(m, r) ==> Changes(m, r)
  {
    hide Readable, ReadBytes, NULL_READ, NULL_READ_REPLACEMENT, KnownInlinePatch, LookupGuard, KnownBlock, SpecOf, EncodeRelativeJump,
      JumpTo, Block, StubBytes;
    NullReadsChangeBytes();
    if KnownInlinePatch(offset).Some? {
      InlinePatchesChangeBytes(offset);
    }
    var r := JumpRequest(imageBase, offset, target, answer);
    if Applicable(m, r) && Matches(m, r) {
      if r.Guarded? {
        JumpIsNotExpected(r.builder, r.allocation.value);
      } else {
        RelativeJumpLength(imageBase + offset, imageBase + target, KnownBlock(offset));
      }
    }
  }

  ghost predicate PatchedOnce(m: Memory, rs: seq<Request>) {
    var first := Pass(m, rs);
    var second := Pass(first.memory, rs);
    && first.result.Ok? && second.result.Ok? && second.memory == first.memory
    && |first.result.value| == |rs| && |second.result.value| == |rs|
    && forall i :: 0 <= i < |rs| ==> !second.result.value[i].matched
  }

  lemma RunsOnce(m: Memory, rs: seq<Request>)
    requires PairwiseApart(rs) && AllApplicable(m, rs) && (forall r :: r in rs ==> Changes(m, r))
    ensures PatchedOnce(m, rs)
  {
    hide Pass, PairwiseApart, Applicable, Changes;
    PassImage(m, rs);
    SecondPass(m, rs);
  }

  lemma NullReadRequestChanges(m: Memory, imageBase: int, offsets: seq<int>, r: Request)
    requires r in NullReadRequests(imageBase, offsets) && Applicable(m, r)
    ensures Changes(m, r)
  {
    hide Applicable, Changes, NullReadRequest;
    var i :| 0 <= i < |NullReadRequests(imageBase, offsets)| && NullReadRequests(imageBase, offsets)[i] == r;
    RequestsChange(m, imageBase, offsets[i], 0, None);
  }

  /**
   Patching null reads at disjoint, readable offsets: a second run reports no match and leaves
   memory as the first did.
   */
  lemma NullReadsPatchedOnce(m: Memory, imageBase: int, offsets: seq<int>)
    requires PairwiseApart(NullReadRequests(imageBase, offsets)) && AllApplicable(m, NullReadRequests(imageBase, offsets))
    ensures PatchedOnce(m, NullReadRequests(imageBase, offsets))
  {
    hide PairwiseApart, Applicable, Changes, NullReadRequests;
    var rs := NullReadRequests(imageBase, offsets);
    forall r | r in rs
      ensures Changes(m, r)
    {
      NullReadRequestChanges(m, imageBase, offsets, r);
    }
    RunsOnce(m, rs);
  }

  lemma InlineRequestChanges(m: Memory, imageBase: int, offsets: seq<int>, r: Request)
    requires r in InlineRequests(imageBase, offsets) && Applicable(m, r)
    ensures Changes(m, r)
  {
    hide Applicable, Changes, InlineRequest;
    var i :| 0 <= i < |InlineRequests(imageBase, offsets)| && InlineRequests(imageBase, offsets)[i] == r;
    RequestsChange(m, imageBase, offsets[i], 0, None);
  }

  lemma InlinePatchedOnce(m: Memory, imageBase: int, offsets: seq<int>)
    requires PairwiseApart(InlineRequests(imageBase, offsets)) && AllApplicable(m, InlineRequests(imageBase, offsets))
    ensures PatchedOnce(m, InlineRequests(imageBase, offsets))
  {
    hide PairwiseApart, Applicable, Changes, InlineRequests;
    var rs := InlineRequests(imageBase, offsets);
    forall r | r in rs
      ensures Changes(m, r)
    {
      InlineRequestChanges(m, imageBase, offsets, r);
    }
    RunsOnce(m, rs);
  }

  lemma JumpRequestChanges(m: Memory, imageBase: int, pairs: seq<(int, int)>, answers: seq<Option<U64>>, r: Request)
    requires |answers| == |pairs| && r in JumpRequests(imageBase, pairs, answers) && Applicable(m, r)
    ensures Changes(m, r)
  {
    hide Applicable, Changes, JumpRequest;
    var i :| 0 <= i < |JumpRequests(imageBase, pairs, answers)| && JumpRequests(imageBase, pairs, answers)[i] == r;
    RequestsChange(m, imageBase, pairs[i].0, pairs[i].1, answers[i]);
  }

  lemma JumpsPatchedOnce(m: Memory, imageBase: int, pairs: seq<(int, int)>, answers: seq<Option<U64>>)
    requires |answers| == |pairs|
    requires PairwiseApart(JumpRequests(imageBase, pairs, answers)) && AllApplicable(m, JumpRequests(imageBase, pairs, answers))
    ensures PatchedOnce(m, JumpRequests(imageBase, pairs, answers))
  {
    hide PairwiseApart, Applicable, Changes, JumpRequests;
    var rs := JumpRequests(imageBase, pairs, answers);
    forall r | r in rs
      ensures Changes(m, r)
    {
      JumpRequestChanges(m, imageBase, pairs, answers, r);
    }
    RunsOnce(m, rs);
  }

  /* ---------- running a patched site ---------- */

  lemma BlockHoldsCode(a: U64, bytes: seq<Byte>, m: Memory)
    requires a + |bytes| <= 0x1_0000_0000_0000_0000
    requires forall x: U64 :: Within(x, a, |bytes|) ==> x in m && m[x] == bytes[x - a]
    ensures HoldsCode(m, a, bytes)
  {
    forall i: nat | i < |bytes|
      ensures ByteAt(m, a + i, bytes[i])
    {
      assert Within(a + i, a, |bytes|);
    }
  }

  lemma StubInstalled(m: Memory, r: Request)
    requires r.Guarded? && Applicable(m, r) && Matches(m, r)
    ensures r.allocation.Some? && HoldsCode(Writes(m, r), r.allocation.value, StubBytes(r))
  {
    hide ReadBytes, Writes, StubBytes, HoldsCode;
    forall x: U64 | Within(x, r.allocation.value, |StubBytes(r)|)
      ensures x in Writes(m, r) && Writes(m, r)[x] == StubBytes(r)[x - r.allocation.value]
    {
      StubByte(m, r, x);
    }
    BlockHoldsCode(r.allocation.value, StubBytes(r), Writes(m, r));
  }

  lemma JumpByte(m: Memory, r: Request, x: U64)
    requires r.Guarded? && Applicable(m, r) && Matches(m, r) && Within(x, r.address, |r.bytes|)
    ensures |JumpTo(r.allocation.value, |r.bytes|)| == |r.bytes|
    ensures x in Writes(m, r) && Writes(m, r)[x] == JumpTo(r.allocation.value, |r.bytes|)[x - r.address]
  {
    hide StubBytes, JumpTo, ReadBytes;
    JumpLength(r.allocation.value, |r.bytes|);
    assert x in Block(r.address, JumpTo(r.allocation.value, |r.bytes|));
  }

  lemma JumpInstalled(m: Memory, r: Request)
    requires r.Guarded? && Applicable(m, r) && Matches(m, r)
    ensures 0 <= r.address < 0x1_0000_0000_0000_0000 && r.allocation.Some? && |r.bytes| >= 12
    ensures HoldsCode(Writes(m, r), r.address, JumpTo(r.allocation.value, |r.bytes|))
  {
    hide ReadBytes, Writes, StubBytes, HoldsCode, JumpTo;
    var n := |r.bytes|;
    JumpLength(r.allocation.value, n);
    assert Has(m, r.address) && Has(m, r.address + n - 1);
    forall x: U64 | Within(x, r.address, n)
      ensures x in Writes(m, r) && Writes(m, r)[x] == JumpTo(r.allocation.value, n)[x - r.address]
    {
      JumpByte(m, r, x);
    }
    BlockHoldsCode(r.address, JumpTo(r.allocation.value, n), Writes(m, r));
  }

  /** What a matched guard writes is its stub, and at the site the jump to it. */
  lemma GuardInstalls(m: Memory, r: Request)
    requires r.Guarded? && Applicable(m, r) && Matches(m, r)
    ensures 0 <= r.address < 0x1_0000_0000_0000_0000 && r.allocation.Some?
    ensures var p := StubOf(r.builder, Wrap(r.target), Wrap(r.resume));
            WellFormed(p) && Installed(Writes(m, r), p, r.allocation.value, r.address, |r.bytes|)
  {
    hide WellFormed, Assemble, StubOf, HoldsCode, JumpTo, Writes, Applicable, Matches, EncodeAbsoluteJump, StubBytes;
    StubWellFormed(r.builder, Wrap(r.target), Wrap(r.resume));
    StubBytesAssembled(r);
    StubInstalled(m, r);
    JumpInstalled(m, r);
    JumpIsEncoded(r.allocation.value, |r.bytes|);
  }

  lemma JumpIsEncoded(a: U64, n: nat)
    requires n >= 12
    ensures EncodeAbsoluteJump(a, Some(n)) == Ok(JumpTo(a, n))
  {
  }

  lemma StubByte(m: Memory, r: Request, x: U64)
    requires r.Guarded? && Applicable(m, r) && Matches(m, r) && Within(x, r.allocation.value, |StubBytes(r)|)
    ensures x in Writes(m, r) && Writes(m, r)[x] == StubBytes(r)[x - r.allocation.value]
  {
    hide StubBytes, JumpTo, ReadBytes;
    assert Within(x, r.allocation.value, STUB_ALLOCATION);
    assert !Has(m, x);
    assert !Within(x, r.address, |r.bytes|);
    JumpLength(r.allocation.value, |r.bytes|);
  }

  /** Process memory after the pass is the guard's code and, disjoint from it, everything else. */
  lemma CodeAndData(m: Memory, rs: seq<Request>, r: Request)
    requires PairwiseApart(rs) && AllApplicable(m, rs) && r in rs
    ensures var m', code := Pass(m, rs).memory, Writes(m, r);
            m' - code.Keys + code == m'
  {
    hide Pass, Writes, PairwiseApart, Applicable;
    PassImage(m, rs);
  }

  /**
   After any completed pass that matched a guard: the machine, run into the site from a state on
   that very memory, arrives wherever the stub's items leave for, whatever RAX held.
   */
  lemma PatchedSiteRuns(m: Memory, rs: seq<Request>, r: Request, s: State, n: nat, target: U64, t: State, v: U64)
    requires PairwiseApart(rs) && AllApplicable(m, rs) && r in rs && r.Guarded? && Matches(m, r)
    requires s.mem == Pass(m, rs).memory - Writes(m, r).Keys
    requires r.allocation.Some?
    requires var p := StubOf(r.builder, Wrap(r.target), Wrap(r.resume));
             LeftFor(ItemSteps(p, r.allocation.value, AtItem(0, SetReg(s, RAX, r.allocation.value)), n), target, t)
    ensures 0 <= r.address < 0x1_0000_0000_0000_0000
    ensures Extend(s, Writes(m, r)).mem == Pass(m, rs).memory
    ensures Arrives(r.address, SetReg(s, RAX, v), Writes(m, r), target, t)
  {
    hide Pass, Writes, PairwiseApart, Applicable, Matches, WellFormed, StubOf, Installed, ItemSteps, LeftFor, Arrives;
    assert Applicable(m, r);
    GuardInstalls(m, r);
    CodeAndData(m, rs, r);
    var p := StubOf(r.builder, Wrap(r.target), Wrap(r.resume));
    InstalledLeaves(p, r.allocation.value, r.address as U64, |r.bytes|, s, Writes(m, r), n, target, t, v);
  }

  /**
   Spelled out for the master-table guard: after a pass that matched it, an absent table or an
   index past it arrives at the fallback with both sentinels set, and otherwise, whenever the
   displaced block would have run through, the machine arrives behind it in the block's state.
   */
  lemma PatchedMasterTable(m: Memory, rs: seq<Request>, r: Request, s: State, v: U64)
    requires PairwiseApart(rs) && AllApplicable(m, rs) && r in rs && r.Guarded? && r.builder == Guard590c58 && Matches(m, r)
    requires s.mem == Pass(m, rs).memory - Writes(m, r).Keys
    ensures 0 <= r.address < 0x1_0000_0000_0000_0000
    ensures var block := ItemSteps(Displaced590c58(), r.address, AtItem(0, s), 11);
            var table := Quad(s, Get(s, RCX) + 0x30D0);
            if table == Some(0) || (table.Some? && IndexPastTable(s, table.value))
            then Arrives(r.address, SetReg(s, RAX, v), Writes(m, r), Wrap(r.target), WithSentinels(s, table.value))
            else block.Left? ==> Arrives(r.address, SetReg(s, RAX, v), Writes(m, r), Wrap(r.resume), block.s)
  {
    hide Pass, Writes, PairwiseApart, Applicable, Matches, ItemSteps, LeftFor, Arrives, Stub590c58, Displaced590c58, End, Agree,
      Mapped, Load, WithSentinels, IndexPastTable, Installed;
    assert Applicable(m, r);
    GuardInstalls(m, r);
    var a, target, resume := r.allocation.value, Wrap(r.target), Wrap(r.resume);
    Guards.Guard590c58(a, r.address, s, a, target, resume, 11);
    var block := ItemSteps(Displaced590c58(), r.address, AtItem(0, s), 11);
    var table := Quad(s, Get(s, RCX) + 0x30D0);
    if table == Some(0) || (table.Some? && IndexPastTable(s, table.value)) {
      PatchedSiteRuns(m, rs, r, s, 11, target, WithSentinels(s, table.value), v);
    } else if block.Left? {
      PatchedSiteRuns(m, rs, r, s, 11, resume, block.s, v);
    }
  }

  /* ---------- the reports ---------- */

  /** What a report says, in the memory before the pass and the memory after it. */
  predicate Tells(report: Report, m: Memory, m': Memory, site: int, block: seq<Byte>) {
    && Readable(m, site, |block|) && Readable(m', site, |block|)
    && (report.matched <==> HoldsBytes(m, site, block))
    && report.original == Some(ReadBytes(m, site, |block|))
    && report.patched == (if report.matched then Some(ReadBytes(m', site, |block|)) else None)
    && (!report.matched ==> ReadBytes(m', site, |block|) == ReadBytes(m, site, |block|))
  }

  /** Of every pass: each report tells what was found and what is there now, and a guard's also its stub, which is where it was put. */
  lemma ReportTells(m: Memory, rs: seq<Request>, i: nat)
    requires PairwiseApart(rs) && AllApplicable(m, rs) && i < |rs| && !rs[i].Unknown?
    ensures Pass(m, rs).result.Ok? && |Pass(m, rs).result.value| == |rs|
    ensures var report, m' := Pass(m, rs).result.value[i], Pass(m, rs).memory;
            && Tells(report, m, m', rs[i].address, rs[i].bytes)
            && (report.stub.Some? <==> rs[i].Guarded? && report.matched)
            && (report.stub.Some? ==> rs[i].allocation.Some? && HoldsCode(m', rs[i].allocation.value, report.stub.value))
  {
    hide Pass, PairwiseApart, AllApplicable, Readable, ReadBytes, IsImage, StubBytes, HoldsCode, JumpTo, Writes;
    PassImage(m, rs);
    var r, m' := rs[i], Pass(m, rs).memory;
    assert r in rs && Applicable(m, r) by {
      EachApplies(m, rs, r);
    }
    if Matches(m, r) {
      AmongApplicable(m, rs, r);
      MatchedSite(m, rs, m', r);
      if r.Guarded? {
        StubInstalled(m, r);
        CodeAndData(m, rs, r);
        HoldsCodeExtends(m' - Writes(m, r).Keys, Writes(m, r), r.allocation.value, StubBytes(r));
      }
    } else {
      UnmatchedSite(m, rs, m', r);
    }
  }

  lemma EachApplies(m: Memory, rs: seq<Request>, r: Request)
    requires AllApplicable(m, rs) && r in rs
    ensures Applicable(m, r)
  {
    hide Applicable;
  }

  /* ---------- sites that overlap ---------- */

  lemma ComparedBytes()
    ensures var spec, inline := SpecOf(ForceCompare590cf1), KnownInlinePatch(0x59_0CF4);
            && |spec.expected| == 12 && spec.expected[0] == 0x41 && spec.expected[3] == 0x0F
            && inline.Some? && |inline.value.expected| == 6 && inline.value.replacement == [0x90, 0x90, 0x90, 0x90, 0x90, 0x90]
            && inline.value.expected == spec.expected[3..9]
    ensures LookupGuard(0x59_0CF1, 0x59_0DCB) == Some(ForceCompare590cf1)
  {
  }

  lemma SingleRequest(m: Memory, r: Request, q: Request)
    requires Apply(m, r).result.Ok?
    ensures Pass(m, [r, q]).memory == Apply(Apply(m, r).memory, q).memory
  {
    hide Apply;
    var m1 := Apply(m, r).memory;
    assert [r, q][1..] == [q] && [q][1..] == [];
    assert Pass(m1, [q]).memory == Apply(m1, q).memory;
  }

  /**
   The inline patch at 0x590CF4 lies inside the guarded site at 0x590CF1. Where both match, the
   order decides: patched inline first, the guard no longer matches and the site keeps its first
   byte; the other way round it holds the jump. Disjointness cannot be dropped.
   */
  lemma OverlapDependsOnOrder(m: Memory, imageBase: int, answer: Option<U64>)
    requires Applicable(m, JumpRequest(imageBase, 0x59_0CF1, 0x59_0DCB, answer))
    requires Matches(m, JumpRequest(imageBase, 0x59_0CF1, 0x59_0DCB, answer))
    ensures var guard, inline := JumpRequest(imageBase, 0x59_0CF1, 0x59_0DCB, answer), InlineRequest(imageBase, 0x59_0CF4);
            var site := imageBase + 0x59_0CF1;
            && Matches(m, inline)
            && Has(Pass(m, [inline, guard]).memory, site) && Pass(m, [inline, guard]).memory[site] == 0x41
            && Has(Pass(m, [guard, inline]).memory, site) && Pass(m, [guard, inline]).memory[site] == 0x48
  {
    hide SpecOf, KnownInlinePatch, LookupGuard, StubBytes, Pass;
    ComparedBytes();
    var guard, inline := JumpRequest(imageBase, 0x59_0CF1, 0x59_0DCB, answer), InlineRequest(imageBase, 0x59_0CF4);
    InlineInside(m, guard, inline);
    InlineFirst(m, guard, inline);
    GuardFirst(m, guard, inline);
    SingleRequest(m, inline, guard);
    AppliesWrites(m, guard);
    SingleRequest(m, guard, inline);
  }

  lemma InlineInside(m: Memory, guard: Request, inline: Request)
    requires guard.Guarded? && inline.Fixed? && inline.address == guard.address + 3
    requires |guard.bytes| == 12 && inline.bytes == guard.bytes[3..9] && Matches(m, guard)
    ensures Matches(m, inline)
  {
    var site := ReadBytes(m, guard.address, 12);
    forall x | Within(x, inline.address, |inline.bytes|)
      ensures Has(m, x) && m[x] == inline.bytes[x - inline.address]
    {
      assert Has(m, x);
      assert site[x - guard.address] == guard.bytes[x - guard.address];
    }
    ReadsAs(m, inline.address, inline.bytes);
  }

  lemma InlineFirst(m: Memory, guard: Request, inline: Request)
    requires guard.Guarded? && inline.Fixed? && inline.address == guard.address + 3
    requires |guard.bytes| == 12 && guard.bytes[0] == 0x41 && guard.bytes[3] == 0x0F
    requires inline.replacement == Ok([0x90, 0x90, 0x90, 0x90, 0x90, 0x90]) && |inline.bytes| == 6
    requires Matches(m, guard) && Matches(m, inline)
    ensures Apply(m, inline).result.Ok?
    ensures var m' := Apply(Apply(m, inline).memory, guard).memory; Has(m', guard.address) && m'[guard.address] == 0x41
  {
    var w := Block(inline.address, inline.replacement.value);
    var m1 := m + w;
    assert Apply(m, inline).memory == m1;
    forall x | guard.address <= x < guard.address + 12
      ensures Has(m1, x)
    {
      assert Has(m, x);
    }
    assert Has(m1, inline.address);
    assert Within(inline.address, inline.address, 6) && inline.address in w && m1[inline.address] == 0x90;
    assert ReadBytes(m1, guard.address, 12)[3] == 0x90;
    assert ReadBytes(m, guard.address, 12)[0] == 0x41;
    assert Has(m, guard.address) && !Within(guard.address, inline.address, 6);
  }

  lemma GuardFirst(m: Memory, guard: Request, inline: Request)
    requires guard.Guarded? && inline.Fixed? && inline.address == guard.address + 3
    requires inline.replacement.Ok? && |inline.replacement.value| == 6 && |inline.bytes| == 6
    requires Applicable(m, guard) && Matches(m, guard)
    ensures var m' := Apply(Apply(m, guard).memory, inline).memory; Has(m', guard.address) && m'[guard.address] == 0x48
  {
    hide StubBytes, LittleEndian, ReadBytes, Applicable, Apply;
    AppliesWrites(m, guard);
    FirstByteWritten(m, guard);
    var m1, n := Apply(m, guard).memory, guard.address;
    ApplyElsewhere(m1, inline, n);
  }

  lemma FirstByteWritten(m: Memory, guard: Request)
    requires guard.Guarded? && Applicable(m, guard) && Matches(m, guard)
    ensures Has(m, guard.address) && guard.address in Writes(m, guard) && Writes(m, guard)[guard.address] == 0x48
  {
    hide StubBytes, LittleEndian, ReadBytes;
    JumpLength(guard.allocation.value, |guard.bytes|);
    assert Within(guard.address, guard.address, |guard.bytes|);
    assert Has(m, guard.address);
  }

  lemma ApplyElsewhere(m: Memory, r: Request, x: int)
    requires r.Fixed? && Has(m, x) && x < r.address
    ensures Has(Apply(m, r).memory, x) && Apply(m, r).memory[x] == m[x]
  {
    hide ReadBytes, Readable;
  }
}
