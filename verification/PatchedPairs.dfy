/**
 The jump pass, from the pairs of offsets it is given to where the machine goes afterwards. What
 is stated here names neither a request nor a field of one: only the image base, the pairs, the
 bytes at their sites, the addresses the system allocates and the memory before and after.
 */
module PatchedPairs {
  import opened Wrappers
  import opened Words
  import opened ProcessMemory
  import opened Machine
  import opened Decoder
  import opened JumpEncoders
  import opened Programs
  import opened PatchTables
  import opened Agreement
  import opened Stubs
  import opened StubDrafts
  import opened GuardedSites
  import opened GuardTable
  import opened Guards
  import opened PointerGuard
  import opened CompareGuard
  import opened MirrorGuard
  import opened OtherGuards
  import opened ForcedGuards
  import opened Installation
  import opened PatchPasses
  import opened PatchProcess
  import opened PatchedImage
  import opened PatchedSites
  import opened InstalledGuards
  import opened PatchedGuards

  /** What a jump pass is given. */
  datatype JumpPass = JumpPass(imageBase: int, pairs: seq<(int, int)>, answers: seq<Option<U64>>)

  function After(m: Memory, j: JumpPass): Memory
    requires |j.answers| == |j.pairs|
  {
    Pass(m, JumpRequests(j.imageBase, j.pairs, j.answers)).memory
  }

  /** The sites are disjoint and every pair can be carried out. */
  ghost predicate Runs(m: Memory, j: JumpPass) {
    && |j.answers| == |j.pairs|
    && PairwiseApart(JumpRequests(j.imageBase, j.pairs, j.answers))
    && AllApplicable(m, JumpRequests(j.imageBase, j.pairs, j.answers))
  }

  /** Pair `i` of such a pass is the given one and finds `block` at its site. */
  ghost predicate Finds(m: Memory, j: JumpPass, i: nat, source: int, target: int, block: seq<Byte>) {
    && Runs(m, j) && i < |j.pairs| && j.pairs[i] == (source, target)
    && HoldsBytes(m, j.imageBase + source, block)
  }

  /** What lies at the site and in the pages at `pages`: the code of a guard. */
  function CodeAt(m: Memory, site: int, size: nat, pages: U64): Memory {
    map x: U64 | x in m && (Within(x, site, size) || Within(x, pages, STUB_ALLOCATION)) :: m[x]
  }

  /**
   On memory `m`, the machine run into `site` from the state `s` on everything but the guard's code,
   whatever RAX holds, arrives at `target` in state `t`, the code untouched.
   */
  ghost predicate Goes(m: Memory, site: int, size: nat, pages: Option<U64>, s: State, target: int, t: State) {
    && pages.Some? && 0 <= site < 0x1_0000_0000_0000_0000
    && var code := CodeAt(m, site, size, pages.value);
    && Extend(s, code).mem == m
    && forall v: U64 :: Arrives(site, SetReg(s, RAX, v), code, Wrap(target), t)
  }

  /** `s` is on everything in `m` but the guard's code. */
  predicate Beside(s: State, m: Memory, site: int, size: nat, pages: Option<U64>) {
    pages.Some? && s.mem == m - CodeAt(m, site, size, pages.value).Keys
  }

  /* ---------- pairs in the table ---------- */

  lemma LooksUp(b: Builder)
    ensures LookupGuard(SpecOf(b).source, SpecOf(b).target) == Some(b)
  {
  }

  /** The request made of a pair in the table. */
  lemma PairRequest(m: Memory, j: JumpPass, i: nat, b: Builder) returns (rs: seq<Request>, r: Request)
    requires Finds(m, j, i, SpecOf(b).source, SpecOf(b).target, SpecOf(b).expected)
    ensures |j.answers| == |j.pairs| && i < |j.pairs| && rs == JumpRequests(j.imageBase, j.pairs, j.answers)
    ensures PairwiseApart(rs) && AllApplicable(m, rs) && r in rs && r.Guarded? && Matches(m, r)
    ensures r.address == j.imageBase + j.pairs[i].0 && r.bytes == SpecOf(b).expected && r.builder == b
    ensures r.target == j.imageBase + j.pairs[i].1 && r.allocation == j.answers[i]
    ensures UsesResume(b) ==> r.resume == j.imageBase + j.pairs[i].0 + |SpecOf(b).expected|
  {
    hide SpecOf, LookupGuard, PairwiseApart, Readable, ReadBytes, EncodeRelativeJump, StubBytes;
    LooksUp(b);
    if UsesResume(b) {
      ResumesBehindBlock(b);
    }
    rs := JumpRequests(j.imageBase, j.pairs, j.answers);
    r := rs[i];
    assert r in rs;
  }

  lemma WritesIn(m: Memory, r: Request, x: U64)
    requires r.Guarded? && Applicable(m, r) && Matches(m, r)
    ensures x in Writes(m, r) <==> Within(x, r.allocation.value, STUB_ALLOCATION) || Within(x, r.address, |r.bytes|)
  {
    hide StubBytes, JumpTo, ReadBytes;
    JumpLength(r.allocation.value, |r.bytes|);
  }

  /** The guard's code, as found in memory after the pass, is what its request wrote. */
  lemma CodeIsWritten(m: Memory, rs: seq<Request>, r: Request)
    requires PairwiseApart(rs) && AllApplicable(m, rs) && r in rs && r.Guarded? && Matches(m, r)
    ensures Applicable(m, r) && r.allocation.Some?
    ensures CodeAt(Pass(m, rs).memory, r.address, |r.bytes|, r.allocation.value) == Writes(m, r)
  {
    hide Pass, Writes, PairwiseApart, Matches, StubBytes, JumpTo;
    assert Applicable(m, r);
    PassImage(m, rs);
    var code := CodeAt(Pass(m, rs).memory, r.address, |r.bytes|, r.allocation.value);
    hide Applicable;
    forall x: U64
      ensures x in code <==> x in Writes(m, r)
      ensures x in code ==> code[x] == Writes(m, r)[x]
    {
      WritesIn(m, r, x);
    }
  }

  lemma SameStub(b: Builder, target: U64, resume: U64, other: U64)
    ensures UsesResume(b) || StubOf(b, target, resume) == StubOf(b, target, other)
  {
  }

  /**
   For every table entry, pass and state: where the stub built to skip to the pair's target and to
   resume right behind the block leaves for, the machine arrives, run into image base plus source.
   */
  lemma PairRuns(m: Memory, j: JumpPass, i: nat, b: Builder, s: State, n: nat, target: int, t: State)
    requires Finds(m, j, i, SpecOf(b).source, SpecOf(b).target, SpecOf(b).expected)
    requires Beside(s, After(m, j), j.imageBase + j.pairs[i].0, |SpecOf(b).expected|, j.answers[i])
    requires var a := j.answers[i].value;
             var p := StubOf(b, Wrap(j.imageBase + j.pairs[i].1), Wrap(j.imageBase + j.pairs[i].0 + |SpecOf(b).expected|));
             LeftFor(ItemSteps(p, a, AtItem(0, SetReg(s, RAX, a)), n), Wrap(target), t)
    ensures Goes(After(m, j), j.imageBase + j.pairs[i].0, |SpecOf(b).expected|, j.answers[i], s, target, t)
  {
    hide SpecOf, Finds, Pass, Writes, PairwiseApart, AllApplicable, Applicable, Matches, StubOf, ItemSteps, LeftFor, Arrives, JumpRequests,
      CodeAt;
    var rs, r := PairRequest(m, j, i, b);
    CodeIsWritten(m, rs, r);
    SameStub(b, Wrap(r.target), Wrap(r.resume), Wrap(r.address + |r.bytes|));
    PatchedSiteRuns(m, rs, r, s, n, Wrap(target), t, 0);
    forall v: U64
      ensures Arrives(r.address, SetReg(s, RAX, v), Writes(m, r), Wrap(target), t)
    {
      PatchedSiteRuns(m, rs, r, s, n, Wrap(target), t, v);
    }
  }

  ghost predicate SkipsTo(m: Memory, j: JumpPass, i: nat, size: nat, s: State, t: State) {
    && i < |j.pairs| == |j.answers|
    && Goes(After(m, j), j.imageBase + j.pairs[i].0, size, j.answers[i], s, j.imageBase + j.pairs[i].1, t)
  }

  ghost predicate ResumesBehind(m: Memory, j: JumpPass, i: nat, size: nat, s: State, t: State) {
    && i < |j.pairs| == |j.answers|
    && Goes(After(m, j), j.imageBase + j.pairs[i].0, size, j.answers[i], s, j.imageBase + j.pairs[i].0 + size, t)
  }

  /** `s` is a state to run into the site of pair `i` in. */
  predicate Client(m: Memory, j: JumpPass, i: nat, size: nat, s: State) {
    i < |j.pairs| == |j.answers| && Beside(s, After(m, j), j.imageBase + j.pairs[i].0, size, j.answers[i])
  }

  /** A null or sentinel entry skips to the pair's target; any other runs the block and goes on right behind it. */
  lemma Pair59002d(m: Memory, j: JumpPass, i: nat, s: State)
    requires Finds(m, j, i, 0x59_002D, 0x59_00A5, EXPECTED_59002D) && Client(m, j, i, |EXPECTED_59002D|, s)
    ensures var block := ItemSteps(Displaced59002d(), Wrap(j.imageBase + 0x59_002D), AtItem(0, s), 11);
            if Get(s, RBX) == 0 || Get(s, RBX) == Get(s, R12) then SkipsTo(m, j, i, |EXPECTED_59002D|, s, s)
            else block.Left? ==> ResumesBehind(m, j, i, |EXPECTED_59002D|, s, block.s)
  {
    hide PairwiseApart, AllApplicable, JumpRequests, HoldsBytes, After, ItemSteps, LeftFor, Goes, Agree, CodeAt, Wrap, EXPECTED_59002D,
      Stub59002d, Displaced59002d, End;
    var a, site := j.answers[i].value, j.imageBase + 0x59_002D;
    var target, resume := j.imageBase + 0x59_00A5, site + |EXPECTED_59002D|;
    Guards.Guard59002d(a, Wrap(site), s, a, Wrap(target), Wrap(resume), 11);
    var block := ItemSteps(Displaced59002d(), Wrap(site), AtItem(0, s), 11);
    if Get(s, RBX) == 0 || Get(s, RBX) == Get(s, R12) {
      PairRuns(m, j, i, Guard59002d, s, 11, target, s);
    } else if block.Left? {
      PairRuns(m, j, i, Guard59002d, s, 11, resume, block.s);
    }
  }

  /** No master table, or an index past it, skips with both sentinels set. */
  lemma Pair590c58(m: Memory, j: JumpPass, i: nat, s: State)
    requires Finds(m, j, i, 0x59_0C58, 0x59_0C81, EXPECTED_590C58) && Client(m, j, i, |EXPECTED_590C58|, s)
    ensures var block := ItemSteps(Displaced590c58(), Wrap(j.imageBase + 0x59_0C58), AtItem(0, s), 11);
            var table := Quad(s, Get(s, RCX) + 0x30D0);
            if table == Some(0) || (table.Some? && IndexPastTable(s, table.value))
            then SkipsTo(m, j, i, |EXPECTED_590C58|, s, WithSentinels(s, table.value))
            else block.Left? ==> ResumesBehind(m, j, i, |EXPECTED_590C58|, s, block.s)
  {
    hide PairwiseApart, AllApplicable, JumpRequests, HoldsBytes, After, ItemSteps, LeftFor, Goes, Agree, CodeAt, Wrap, EXPECTED_590C58,
      Stub590c58, Displaced590c58, End, Mapped, Load, WithSentinels, IndexPastTable;
    var a, site := j.answers[i].value, j.imageBase + 0x59_0C58;
    var target, resume := j.imageBase + 0x59_0C81, site + |EXPECTED_590C58|;
    Guards.Guard590c58(a, Wrap(site), s, a, Wrap(target), Wrap(resume), 11);
    var block := ItemSteps(Displaced590c58(), Wrap(site), AtItem(0, s), 11);
    var table := Quad(s, Get(s, RCX) + 0x30D0);
    if table == Some(0) || (table.Some? && IndexPastTable(s, table.value)) {
      PairRuns(m, j, i, Guard590c58, s, 11, target, WithSentinels(s, table.value));
    } else if block.Left? {
      PairRuns(m, j, i, Guard590c58, s, 11, resume, block.s);
    }
  }

  /** No master table skips with nothing changed. */
  lemma Pair58fa83(m: Memory, j: JumpPass, i: nat, s: State)
    requires Finds(m, j, i, 0x58_FA83, 0x58_FB29, EXPECTED_58FA83) && Client(m, j, i, |EXPECTED_58FA83|, s)
    ensures var block := ItemSteps(Displaced58fa83(), Wrap(j.imageBase + 0x58_FA83), AtItem(0, s), 9);
            if Quad(s, Get(s, RCX) + 0x30D0) == Some(0) then SkipsTo(m, j, i, |EXPECTED_58FA83|, s, s)
            else block.Left? ==> ResumesBehind(m, j, i, |EXPECTED_58FA83|, s, block.s)
  {
    hide PairwiseApart, AllApplicable, JumpRequests, HoldsBytes, After, ItemSteps, LeftFor, Goes, Agree, CodeAt, Wrap, EXPECTED_58FA83,
      Stub58fa83, Displaced58fa83, End, Quad;
    var a, site := j.answers[i].value, j.imageBase + 0x58_FA83;
    var target, resume := j.imageBase + 0x58_FB29, site + |EXPECTED_58FA83|;
    Guards.Guard58fa83(a, Wrap(site), s, a, Wrap(target), Wrap(resume), 9);
    var block := ItemSteps(Displaced58fa83(), Wrap(site), AtItem(0, s), 9);
    if Quad(s, Get(s, RCX) + 0x30D0) == Some(0) {
      PairRuns(m, j, i, Guard58fa83, s, 9, target, s);
    } else if block.Left? {
      PairRuns(m, j, i, Guard58fa83, s, 9, resume, block.s);
    }
  }

  /** No manager skips, RSI zero. */
  lemma Pair2ab698(m: Memory, j: JumpPass, i: nat, s: State)
    requires Finds(m, j, i, 0x2A_B698, 0x2A_B7F7, EXPECTED_2AB698) && Client(m, j, i, |EXPECTED_2AB698|, s)
    ensures var block := ItemSteps(Displaced2ab698(), Wrap(j.imageBase + 0x2A_B698), AtItem(0, s), 13);
            if Quad(s, Get(s, RDX) + 8) == Some(0) then SkipsTo(m, j, i, |EXPECTED_2AB698|, s, SetReg(s, RSI, 0))
            else block.Left? ==> ResumesBehind(m, j, i, |EXPECTED_2AB698|, s, block.s)
  {
    hide PairwiseApart, AllApplicable, JumpRequests, HoldsBytes, After, ItemSteps, LeftFor, Goes, Agree, CodeAt, Wrap, EXPECTED_2AB698,
      Stub2ab698, Displaced2ab698, End, Quad;
    var a, site := j.answers[i].value, j.imageBase + 0x2A_B698;
    var target, resume := j.imageBase + 0x2A_B7F7, site + |EXPECTED_2AB698|;
    Guards.Guard2ab698(a, Wrap(site), s, a, Wrap(target), Wrap(resume), 13);
    var block := ItemSteps(Displaced2ab698(), Wrap(site), AtItem(0, s), 13);
    if Quad(s, Get(s, RDX) + 8) == Some(0) {
      PairRuns(m, j, i, Guard2ab698, s, 13, target, SetReg(s, RSI, 0));
    } else if block.Left? {
      PairRuns(m, j, i, Guard2ab698, s, 13, resume, block.s);
    }
  }

  /** The machine skips with the metadata word of `t` zeroed, where that is mapped. */
  ghost predicate SkipsZeroed(m: Memory, j: JumpPass, i: nat, size: nat, s: State, t: State) {
    var a := Wrap(Get(t, RCX) + 0x10);
    Mapped(t.mem, a, 4) ==> SkipsTo(m, j, i, size, s, t.(mem := Store(t.mem, a, 4, 0)))
  }

  lemma Refusal(m: Memory, j: JumpPass, i: nat, s: State, t: State)
    requires Finds(m, j, i, 0x36_99B2, 0x36_99F2, EXPECTED_3699B2) && Client(m, j, i, |EXPECTED_3699B2|, s)
    requires var a, target, resume := j.answers[i].value, j.imageBase + 0x36_99F2, j.imageBase + 0x36_99B2 + |EXPECTED_3699B2|;
             Refuses(ItemSteps(Stub3699b2(Wrap(target), Wrap(resume)), a, AtItem(0, SetReg(s, RAX, a)), 27), Wrap(target), t)
    ensures SkipsZeroed(m, j, i, |EXPECTED_3699B2|, s, t)
  {
    hide PairwiseApart, AllApplicable, JumpRequests, HoldsBytes, After, ItemSteps, LeftFor, Goes, Agree, CodeAt, Wrap, EXPECTED_3699B2,
      Stub3699b2, Mapped, Store;
    var a := Wrap(Get(t, RCX) + 0x10);
    if Mapped(t.mem, a, 4) {
      PairRuns(m, j, i, Guard3699b2, s, 27, j.imageBase + 0x36_99F2, t.(mem := Store(t.mem, a, 4, 0)));
    }
  }

  /** An implausible base or metadata pointer skips; two plausible ones run the block. */
  lemma Pair3699b2(m: Memory, j: JumpPass, i: nat, s: State)
    requires Finds(m, j, i, 0x36_99B2, 0x36_99F2, EXPECTED_3699B2) && Client(m, j, i, |EXPECTED_3699B2|, s)
    ensures var block := ItemSteps(Displaced3699b2(), Wrap(j.imageBase + 0x36_99B2), AtItem(0, s), 27);
            var pointer := Quad(s, Get(s, RCX));
            pointer.Some? && Mapped(s.mem, Wrap(Get(s, RCX) + 0x0C), 4) ==>
              var t := Loaded(s, pointer.value);
              if !Plausible(pointer.value) then SkipsZeroed(m, j, i, |EXPECTED_3699B2|, s, t)
              else
                var metadata := Quad(t, pointer.value + 0x18);
                metadata.Some? ==>
                  if !Plausible(metadata.value) then SkipsZeroed(m, j, i, |EXPECTED_3699B2|, s, SetReg(t, RBX, metadata.value))
                  else block.Left? && ResumesBehind(m, j, i, |EXPECTED_3699B2|, s, block.s)
  {
    hide PairwiseApart, AllApplicable, JumpRequests, HoldsBytes, After, ItemSteps, LeftFor, Goes, Agree, CodeAt, Wrap, EXPECTED_3699B2,
      Stub3699b2, Displaced3699b2, End, Mapped, Load, Store, Loaded, Plausible, Refuses, SkipsZeroed;
    var a, site := j.answers[i].value, j.imageBase + 0x36_99B2;
    var target, resume := j.imageBase + 0x36_99F2, site + |EXPECTED_3699B2|;
    PointerGuard.Guard3699b2(a, Wrap(site), s, a, Wrap(target), Wrap(resume), 27);
    var block := ItemSteps(Displaced3699b2(), Wrap(site), AtItem(0, s), 27);
    var pointer := Quad(s, Get(s, RCX));
    if pointer.Some? && Mapped(s.mem, Wrap(Get(s, RCX) + 0x0C), 4) {
      var t := Loaded(s, pointer.value);
      if !Plausible(pointer.value) {
        Refusal(m, j, i, s, t);
      } else {
        var at: int := pointer.value;
        var metadata := Quad(t, at + 0x18);
        if metadata.Some? && !Plausible(metadata.value) {
          Refusal(m, j, i, s, SetReg(t, RBX, metadata.value));
        } else if metadata.Some? {
          PairRuns(m, j, i, Guard3699b2, s, 27, resume, block.s);
        }
      }
    }
  }

  /** Resumption and skip under the guard's own conditions. */
  lemma Pair590de8(m: Memory, j: JumpPass, i: nat, s: State)
    requires Finds(m, j, i, 0x59_0DE8, 0x59_0EC6, EXPECTED_590DE8) && Client(m, j, i, |EXPECTED_590DE8|, s)
    requires Separate(s)
    ensures Resumes(s) ==> ResumesBehind(m, j, i, |EXPECTED_590DE8|, s, Outcome590de8(s))
    ensures !Resumes(s) && Skips(s) ==> SkipsTo(m, j, i, |EXPECTED_590DE8|, s, Outcome590de8(s))
  {
    hide PairwiseApart, AllApplicable, JumpRequests, HoldsBytes, After, ItemSteps, LeftFor, Goes, Agree, CodeAt, Wrap, EXPECTED_590DE8,
      Stub590de8, Outcome590de8, Separate, Guards.Field, Promotes;
    var a, site := j.answers[i].value, j.imageBase + 0x59_0DE8;
    var target, resume := j.imageBase + 0x59_0EC6, site + |EXPECTED_590DE8|;
    CompareGuard.Guard590de8(a, s, a, Wrap(target), Wrap(resume), 25);
    if Resumes(s) {
      PairRuns(m, j, i, Guard590de8, s, 25, resume, Outcome590de8(s));
    } else if Skips(s) {
      PairRuns(m, j, i, Guard590de8, s, 25, target, Outcome590de8(s));
    }
  }

  /** Where those keep the block's way, the machine takes the way out that the block takes, in the block's state. */
  lemma PairKeepsWay590de8(m: Memory, j: JumpPass, i: nat, s: State)
    requires Finds(m, j, i, 0x59_0DE8, 0x59_0EC6, EXPECTED_590DE8) && Client(m, j, i, |EXPECTED_590DE8|, s)
    requires Separate(s) && KeepsWay(s)
    ensures var block := ItemSteps(Displaced590de8(), Wrap(j.imageBase + 0x59_0DE8), AtItem(0, s), 25);
            block.Left? ==>
              if block.rip == Wrap(j.imageBase + 0x59_0E09) then ResumesBehind(m, j, i, |EXPECTED_590DE8|, s, block.s)
              else block.rip == Wrap(j.imageBase + 0x59_0EC6) && SkipsTo(m, j, i, |EXPECTED_590DE8|, s, block.s)
  {
    hide PairwiseApart, AllApplicable, JumpRequests, HoldsBytes, After, ItemSteps, LeftFor, Goes, Agree, CodeAt, Wrap, EXPECTED_590DE8,
      Stub590de8, Displaced590de8, End, KeepsWay, Separate, Failure590de8;
    var a, site := j.answers[i].value, j.imageBase + 0x59_0DE8;
    TableExits590de8(j.imageBase);
    SameWay590de8(a, Wrap(site), s, a, 25);
    BlockGoes(Wrap(site), s, 25);
    Length590de8Bytes();
    var block := ItemSteps(Displaced590de8(), Wrap(site), AtItem(0, s), 25);
    if block.Left? {
      if block.rip == Wrap(j.imageBase + 0x59_0E09) {
        PairRuns(m, j, i, Guard590de8, s, 25, j.imageBase + 0x59_0E09, block.s);
      } else {
        PairRuns(m, j, i, Guard590de8, s, 25, j.imageBase + 0x59_0EC6, block.s);
      }
    }
  }

  lemma Length590de8Bytes()
    ensures |EXPECTED_590DE8| == 33
  {
  }

  /** Outside state 1 the block runs; in state 1 populated buffers skip, the flag in R9, and empty ones go on. */
  lemma Pair5902d5(m: Memory, j: JumpPass, i: nat, s: State)
    requires Finds(m, j, i, 0x59_02D5, 0x59_03BD, EXPECTED_5902D5) && Client(m, j, i, |EXPECTED_5902D5|, s)
    ensures !FastPath(s) ==>
              var block := ItemSteps(Displaced5902d5(), Wrap(j.imageBase + 0x59_02D5), AtItem(0, s), 12);
              block.Left? ==> ResumesBehind(m, j, i, |EXPECTED_5902D5|, s, block.s)
    ensures FastPath(s) && StateFlag(s) == Some(0) && StateVector(s) == Some(0) && Mapped(s.mem, Get(s, R8), 8) ==>
              ResumesBehind(m, j, i, |EXPECTED_5902D5|, s, SetReg(s, R9, 0))
    ensures FastPath(s) && (NonZero(StateFlag(s)) || (StateFlag(s) == Some(0) && NonZero(StateVector(s)))) ==>
              SkipsTo(m, j, i, |EXPECTED_5902D5|, s, SetReg(s, R9, StateFlag(s).value))
  {
    hide PairwiseApart, AllApplicable, JumpRequests, HoldsBytes, After, ItemSteps, LeftFor, Goes, Agree, CodeAt, Wrap, EXPECTED_5902D5,
      Stub5902d5, Displaced5902d5, End, Mapped, StateFlag, StateVector, FastPath, FastPath5902d5;
    var a, site := j.answers[i].value, j.imageBase + 0x59_02D5;
    var target, resume := j.imageBase + 0x59_03BD, site + |EXPECTED_5902D5|;
    OtherGuards.Guard5902d5(a, Wrap(site), s, a, Wrap(target), Wrap(resume), 12);
    var block := ItemSteps(Displaced5902d5(), Wrap(site), AtItem(0, s), 12);
    var flag, vector := StateFlag(s), StateVector(s);
    if !FastPath(s) {
      if block.Left? {
        PairRuns(m, j, i, Guard5902d5, s, 12, resume, block.s);
      }
    } else if flag == Some(0) && vector == Some(0) && Mapped(s.mem, Get(s, R8), 8) {
      PairRuns(m, j, i, Guard5902d5, s, 12, resume, SetReg(s, R9, 0));
    } else if NonZero(flag) || (flag == Some(0) && NonZero(vector)) {
      PairRuns(m, j, i, Guard5902d5, s, 12, target, SetReg(s, R9, flag.value));
    }
  }

  /** On the first iteration the machine always goes on, the source mirrored. */
  lemma Pair59c2a0(m: Memory, j: JumpPass, i: nat, s: State)
    requires Finds(m, j, i, 0x59_C2A0, 0x59_C64F, EXPECTED_59C2A0) && Client(m, j, i, |EXPECTED_59C2A0|, s)
    requires Truncate(W32, Get(s, RDX)) == 0 && Room(s) && Wrap(Get(s, R8) + Get(s, RCX)) == Get(s, RBX)
    ensures ResumesBehind(m, j, i, |EXPECTED_59C2A0|, s, s.(mem := Mirrored(s)))
  {
    hide PairwiseApart, AllApplicable, JumpRequests, HoldsBytes, After, ItemSteps, LeftFor, Goes, Agree, CodeAt, Wrap, EXPECTED_59C2A0,
      Stub59c2a0, Mirrored, Room, Truncate;
    var a, site := j.answers[i].value, j.imageBase + 0x59_C2A0;
    var target, resume := j.imageBase + 0x59_C64F, site + |EXPECTED_59C2A0|;
    FirstIteration(a, s, a, Wrap(target), Wrap(resume), 400);
    PairRuns(m, j, i, MirrorCompare59c2a0, s, 400, resume, s.(mem := Mirrored(s)));
  }

  /** Later the compare decides, as it did in the block. */
  lemma PairLater59c2a0(m: Memory, j: JumpPass, i: nat, s: State)
    requires Finds(m, j, i, 0x59_C2A0, 0x59_C64F, EXPECTED_59C2A0) && Client(m, j, i, |EXPECTED_59C2A0|, s)
    requires Truncate(W32, Get(s, RDX)) != 0
    ensures var block := ItemSteps(Displaced59c2a0(), Wrap(j.imageBase + 0x59_C2A0), AtItem(0, s), 7);
            block.Left? ==>
              if block.rip == Wrap(j.imageBase + 0x59_C2AE) then ResumesBehind(m, j, i, |EXPECTED_59C2A0|, s, block.s)
              else block.rip == Wrap(j.imageBase + 0x59_C64F) && SkipsTo(m, j, i, |EXPECTED_59C2A0|, s, block.s)
  {
    hide PairwiseApart, AllApplicable, JumpRequests, HoldsBytes, After, ItemSteps, LeftFor, Goes, Agree, CodeAt, Wrap, EXPECTED_59C2A0,
      Stub59c2a0, Displaced59c2a0, End, Taken59c2a0, Truncate;
    var a, site := j.answers[i].value, j.imageBase + 0x59_C2A0;
    var target, resume := j.imageBase + 0x59_C64F, site + |EXPECTED_59C2A0|;
    LaterIterations(a, Wrap(site), s, a, Wrap(target), Wrap(resume), 7);
    TableExits59c2a0(j.imageBase);
    Length59c2a0Bytes();
    var block := ItemSteps(Displaced59c2a0(), Wrap(site), AtItem(0, s), 7);
    if block.Left? {
      if block.rip == Wrap(j.imageBase + 0x59_C2AE) {
        PairRuns(m, j, i, MirrorCompare59c2a0, s, 7, resume, block.s);
      } else {
        PairRuns(m, j, i, MirrorCompare59c2a0, s, 7, target, block.s);
      }
    }
  }

  lemma Length59c2a0Bytes()
    ensures |EXPECTED_59C2A0| == 14
  {
  }

  /** The length gate is open. */
  lemma Pair59c1ea(m: Memory, j: JumpPass, i: nat, s: State)
    requires Finds(m, j, i, 0x59_C1EA, 0x59_C21B, EXPECTED_59C1EA) && Client(m, j, i, |EXPECTED_59C1EA|, s)
    requires Mapped(s.mem, Wrap(Get(s, RSP) + 0x38), 8)
    ensures SkipsTo(m, j, i, |EXPECTED_59C1EA|, s, WithLength(s))
  {
    hide PairwiseApart, AllApplicable, JumpRequests, HoldsBytes, After, ItemSteps, LeftFor, Goes, Agree, CodeAt, Wrap, EXPECTED_59C1EA,
      Stub59c1ea, Mapped, WithLength;
    var a, site := j.answers[i].value, j.imageBase + 0x59_C1EA;
    var target, resume := j.imageBase + 0x59_C21B, site + |EXPECTED_59C1EA|;
    ForcedGuards.Guard59c1ea(a, s, a, Wrap(target), 4);
    PairRuns(m, j, i, ForceLength59c1ea, s, 4, target, WithLength(s));
  }

  /** The sentinels are set and the machine goes on; the pair's target is not used. */
  lemma Pair590c72(m: Memory, j: JumpPass, i: nat, s: State)
    requires Finds(m, j, i, 0x59_0C72, 0x59_0DBA, EXPECTED_590C72) && Client(m, j, i, |EXPECTED_590C72|, s)
    ensures ResumesBehind(m, j, i, |EXPECTED_590C72|, s, SetReg(SetReg(s, R8, 0xFFFF_FFFF), R9, 0xFFFF_FFFF))
  {
    hide PairwiseApart, AllApplicable, JumpRequests, HoldsBytes, After, ItemSteps, LeftFor, Goes, Agree, CodeAt, Wrap, EXPECTED_590C72,
      Stub590c72;
    var a, site := j.answers[i].value, j.imageBase + 0x59_0C72;
    var target, resume := j.imageBase + 0x59_0DBA, site + |EXPECTED_590C72|;
    ForcedGuards.Guard590c72(a, s, a, Wrap(resume), 4);
    PairRuns(m, j, i, Sentinel590c72, s, 4, resume, SetReg(SetReg(s, R8, 0xFFFF_FFFF), R9, 0xFFFF_FFFF));
  }

  /** DL alone decides: the lookup behind the block, or the second comparison. */
  lemma Pair590ccb(m: Memory, j: JumpPass, i: nat, s: State)
    requires Finds(m, j, i, 0x59_0CCB, 0x59_0CF1, EXPECTED_590CCB) && Client(m, j, i, |EXPECTED_590CCB|, s)
    ensures var t := SetReg(s, RCX, Truncate(W32, Get(s, RBX)));
            if Truncate(W8, Get(s, RDX)) == 0 then ResumesBehind(m, j, i, |EXPECTED_590CCB|, s, t)
            else Mapped(s.mem, Wrap(Get(s, RDI) + 0x20), 4) ==> SkipsTo(m, j, i, |EXPECTED_590CCB|, s, t)
  {
    hide PairwiseApart, AllApplicable, JumpRequests, HoldsBytes, After, ItemSteps, LeftFor, Goes, Agree, CodeAt, Wrap, EXPECTED_590CCB,
      Stub590ccb, Mapped, Truncate;
    var a, site := j.answers[i].value, j.imageBase + 0x59_0CCB;
    var target, resume := j.imageBase + 0x59_0CF1, site + |EXPECTED_590CCB|;
    OtherGuards.Guard590ccb(a, s, a, Wrap(resume), Wrap(target), 7);
    var t := SetReg(s, RCX, Truncate(W32, Get(s, RBX)));
    if Truncate(W8, Get(s, RDX)) == 0 {
      PairRuns(m, j, i, ForceCompare590ccb, s, 7, resume, t);
    } else if Mapped(s.mem, Wrap(Get(s, RDI) + 0x20), 4) {
      PairRuns(m, j, i, ForceCompare590ccb, s, 7, target, t);
    }
  }

  /** The second comparison is always taken as equal. */
  lemma Pair590cf1(m: Memory, j: JumpPass, i: nat, s: State)
    requires Finds(m, j, i, 0x59_0CF1, 0x59_0DCB, EXPECTED_590CF1) && Client(m, j, i, |EXPECTED_590CF1|, s)
    ensures SkipsTo(m, j, i, |EXPECTED_590CF1|, s, s)
  {
    hide PairwiseApart, AllApplicable, JumpRequests, HoldsBytes, After, ItemSteps, Goes, Agree, CodeAt, Wrap, EXPECTED_590CF1,
      Stub590cf1;
    var a, site := j.answers[i].value, j.imageBase + 0x59_0CF1;
    var target, resume := j.imageBase + 0x59_0DCB, site + |EXPECTED_590CF1|;
    ForcedGuards.Guard590cf1(a, s, a, Wrap(target), 3);
    AgreeScratch(s, Wrap(target), s.zf, s.cf);
    assert SetReg(s, RAX, Wrap(target)) == SetReg(s, RAX, Wrap(target)).(zf := s.zf, cf := s.cf);
    PairRuns(m, j, i, ForceCompare590cf1, s, 3, target, s);
  }

  /** The archive-state guard on the whole of process memory: the slot looked up is that of the allocated address. */
  lemma Pair590ec9(m: Memory, j: JumpPass, i: nat, s: State)
    requires Finds(m, j, i, 0x59_0EC9, 0x59_0EDA, EXPECTED_590EC9) && s.mem == After(m, j)
    ensures 0 <= j.imageBase + 0x59_0EC9 < 0x1_0000_0000_0000_0000 && j.answers[i].Some?
    ensures SlotResult(j.imageBase + 0x59_0EC9, s, Wrap(j.imageBase + 0x59_0EC9 + |EXPECTED_590EC9|), SlotState(s, j.answers[i].value))
  {
    hide PairwiseApart, AllApplicable, JumpRequests, HoldsBytes, Pass, Matches, SlotResult, SlotState, Wrap, EXPECTED_590EC9;
    var rs, r := PairRequest(m, j, i, Guard590ec9);
    PatchedSlot(m, rs, r, s);
  }

  /** The publication guard, likewise: it leaves for the pair's target, having written at most the stub's own first bytes. */
  lemma Pair5927f2(m: Memory, j: JumpPass, i: nat, s: State)
    requires Finds(m, j, i, 0x59_27F2, 0x59_2826, EXPECTED_5927F2) && s.mem == After(m, j)
    ensures 0 <= j.imageBase + 0x59_27F2 < 0x1_0000_0000_0000_0000 && j.answers[i].Some? && Mapped(s.mem, j.answers[i].value, 8)
    ensures var site, target := j.imageBase + 0x59_27F2, Wrap(j.imageBase + 0x59_2826);
            if Unhealthy(s) then Comes(site, s, target, s)
            else if Healthy(s) then Comes(site, s, target, s.(mem := Published(s, j.answers[i].value)))
            else Reaches(Running(site, s), Faulted)
  {
    hide PairwiseApart, AllApplicable, JumpRequests, HoldsBytes, Pass, Matches, Comes, Reaches, Healthy, Unhealthy, Published, Wrap, EXPECTED_5927F2;
    var rs, r := PairRequest(m, j, i, GuardedPublish5927f2);
    PatchedPublication(m, rs, r, s);
  }

  /* ---------- pairs outside the table ---------- */

  predicate Unlisted(source: int, target: int) {
    forall b :: SpecOf(b).source != source || SpecOf(b).target != target
  }

  lemma LooksUpNothing(source: int, target: int)
    requires Unlisted(source, target)
    ensures LookupGuard(source, target) == None
  {
    hide SpecOf;
    var found := LookupGuard(source, target);
  }

  /** Such a pair's request can be carried out if and only if its site is readable and, where it matches, the jump is in reach. */
  lemma UnlistedApplies(m: Memory, imageBase: int, source: int, target: int, answer: Option<U64>)
    requires Unlisted(source, target)
    ensures var site, block := imageBase + source, KnownBlock(source);
            Applicable(m, JumpRequest(imageBase, source, target, answer))
            <==> Readable(m, site, |block|) && (HoldsBytes(m, site, block) ==> FitsSigned32(target - source - 5))
  {
    hide LookupGuard, Unlisted, KnownBlock, Readable, ReadBytes, EncodeRelativeJump;
    LooksUpNothing(source, target);
    RelativeJumpRoundTrip(imageBase + source, imageBase + target, |KnownBlock(source)|, []);
  }

  /** What was encoded, in `size` bytes, is at `a`. */
  predicate HoldsEncoded(m: Memory, a: int, encoded: Result<seq<Byte>>, size: nat) {
    encoded.Ok? && |encoded.value| == size && HoldsBytes(m, a, encoded.value)
  }

  /** The site of such a pair after the pass. */
  lemma PairBytes(m: Memory, j: JumpPass, i: nat, source: int, target: int)
    requires Finds(m, j, i, source, target, KnownBlock(source)) && Unlisted(source, target)
    ensures var site, size := j.imageBase + source, |KnownBlock(source)|;
            HoldsEncoded(After(m, j), site, EncodeRelativeJump(site, j.imageBase + target, size), size)
  {
    hide LookupGuard, Unlisted, KnownBlock, Readable, ReadBytes, EncodeRelativeJump, Pass, IsImage, PairwiseApart, AllApplicable;
    LooksUpNothing(source, target);
    var rs := JumpRequests(j.imageBase, j.pairs, j.answers);
    var r := rs[i];
    assert r in rs;
    AmongApplicable(m, rs, r);
    PassImage(m, rs);
    MatchedSite(m, rs, After(m, j), r);
  }

  lemma JumpBytes(source: int, target: int, size: nat)
    requires size >= 5 && EncodeRelativeJump(source, target, size).Ok?
    ensures EncodeRelativeJump(source, target, 5).Ok? && FitsSigned32(target - source - 5)
    ensures var bytes := EncodeRelativeJump(source, target, size).value;
            && |bytes| == size && bytes[..5] == EncodeRelativeJump(source, target, 5).value
            && forall k :: 5 <= k < size ==> bytes[k] == 0x90
    ensures forall after :: Decode(EncodeRelativeJump(source, target, 5).value + after) == Some(Decoded(Jmp(target - source - 5), 5))
  {
    hide Decode, LittleEndian;
    forall after
      ensures Decode(EncodeRelativeJump(source, target, 5).value + after) == Some(Decoded(Jmp(target - source - 5), 5))
    {
      RelativeJumpRoundTrip(source, target, 5, after);
    }
  }

  lemma JumpsAt(m: Memory, site: U64, target: int, size: nat, s: State)
    requires size >= 5 && EncodeRelativeJump(site, target, size).Ok?
    requires HoldsCode(m, site, EncodeRelativeJump(site, target, size).value) && s.mem == m
    ensures Reaches(Running(site, s), Running(Wrap(target), s))
  {
    hide Decode, EncodeRelativeJump, Fetch, HoldsCode;
    JumpBytes(site, target, size);
    var jump := EncodeRelativeJump(site, target, 5).value;
    RelativeJumpRoundTrip(site, target, 5, []);
    CodeSlice(m, site, EncodeRelativeJump(site, target, size).value, 0, 5);
    FetchFindsCode(m, site, jump, LONGEST_INSTRUCTION);
    var fetched := Fetch(m, site, LONGEST_INSTRUCTION);
    assert fetched == jump + fetched[5..];
    WrapAdd(site + 5, target - site - 5);
    assert ByteStep(Running(site, s)) == Running(Wrap(target), s);
    assert ByteSteps(Running(site, s), 1) == ByteSteps(ByteStep(Running(site, s)), 0);
  }

  /** `size` bytes at `site`: a jump by `displacement`, and nops. */
  predicate HoldsJump(m: Memory, site: int, size: nat, displacement: int) {
    && Readable(m, site, size)
    && var bytes := ReadBytes(m, site, size);
    && Decode(bytes) == Some(Decoded(Jmp(displacement), 5))
    && forall k :: 5 <= k < size ==> bytes[k] == 0x90
  }

  /** The machine, run into `site` in whatever state on `m`, gets to `target` in that state. */
  ghost predicate JumpsTo(m: Memory, site: int, target: U64) {
    && 0 <= site < 0x1_0000_0000_0000_0000
    && forall s: State :: s.mem == m ==> Reaches(Running(site, s), Running(target, s))
  }

  lemma JumpHeld(m: Memory, site: int, target: int, size: nat)
    requires size >= 5 && HoldsEncoded(m, site, EncodeRelativeJump(site, target, size), size)
    ensures HoldsJump(m, site, size, target - site - 5) && JumpsTo(m, site, Wrap(target))
  {
    hide Readable, ReadBytes, EncodeRelativeJump, Reaches, Decode, HoldsCode;
    var bytes := EncodeRelativeJump(site, target, size).value;
    JumpBytes(site, target, size);
    HeldCode(m, site, bytes);
    assert bytes == EncodeRelativeJump(site, target, 5).value + bytes[5..];
    forall s: State | s.mem == m
      ensures Reaches(Running(site, s), Running(Wrap(target), s))
    {
      JumpsAt(m, site, target, size, s);
    }
  }

  /**
   A matched pair outside the table: the bytes left at image base plus source are a jump to image
   base plus target and nops, and the machine, run into them in any state, gets there in that state.
   */
  lemma PairJumps(m: Memory, j: JumpPass, i: nat, source: int, target: int)
    requires Finds(m, j, i, source, target, KnownBlock(source)) && Unlisted(source, target)
    ensures HoldsJump(After(m, j), j.imageBase + source, |KnownBlock(source)|, target - source - 5)
    ensures JumpsTo(After(m, j), j.imageBase + source, Wrap(j.imageBase + target))
  {
    hide KnownBlock, HoldsEncoded, HoldsBytes, EncodeRelativeJump, After, Reaches, HoldsJump, JumpsTo, Unlisted, PairwiseApart, AllApplicable;
    PairBytes(m, j, i, source, target);
    JumpHeld(After(m, j), j.imageBase + source, j.imageBase + target, |KnownBlock(source)|);
  }

  /* ---------- the reports ---------- */

  /** The block looked for at the source of a pair. */
  ghost predicate Seeks(source: int, target: int, block: seq<Byte>) {
    || (Unlisted(source, target) && block == KnownBlock(source))
    || exists b :: SpecOf(b).source == source && SpecOf(b).target == target && SpecOf(b).expected == block
  }

  lemma RequestSeeks(imageBase: int, source: int, target: int, answer: Option<U64>, block: seq<Byte>)
    requires Seeks(source, target, block)
    ensures var r := JumpRequest(imageBase, source, target, answer);
            && !r.Unknown? && r.address == imageBase + source && r.bytes == block
            && (r.Guarded? <==> !Unlisted(source, target)) && (r.Guarded? ==> r.allocation == answer)
  {
    hide SpecOf, LookupGuard, KnownBlock, EncodeRelativeJump;
    if Unlisted(source, target) {
      LooksUpNothing(source, target);
    } else {
      var b :| SpecOf(b).source == source && SpecOf(b).target == target && SpecOf(b).expected == block;
      LooksUp(b);
    }
  }

  /**
   Of every pair, in or out of the table: its report tells what was found at image base plus source
   and what is there now, and of a guard also the stub, which is at the allocated address.
   */
  lemma PairReported(m: Memory, j: JumpPass, i: nat, block: seq<Byte>)
    requires Runs(m, j) && i < |j.pairs| && Seeks(j.pairs[i].0, j.pairs[i].1, block)
    ensures var result := Pass(m, JumpRequests(j.imageBase, j.pairs, j.answers)).result;
            && result.Ok? && |result.value| == |j.pairs|
            && Tells(result.value[i], m, After(m, j), j.imageBase + j.pairs[i].0, block)
            && (result.value[i].stub.Some? <==> result.value[i].matched && !Unlisted(j.pairs[i].0, j.pairs[i].1))
            && (result.value[i].stub.Some? ==>
                  j.answers[i].Some? && HoldsCode(After(m, j), j.answers[i].value, result.value[i].stub.value))
  {
    hide Pass, Tells, Unlisted, JumpRequest, HoldsCode, PairwiseApart, AllApplicable, Seeks;
    RequestSeeks(j.imageBase, j.pairs[i].0, j.pairs[i].1, j.answers[i], block);
    ReportTells(m, JumpRequests(j.imageBase, j.pairs, j.answers), i);
  }
}
