/**
 The patch passes as the launcher runs them, on a process whose memory they change in place. Each
 is proved to do to memory, and to report, what the pass function over its requests says.
 */
module PatchProcess {
  import opened Wrappers
  import opened Words
  import opened ProcessMemory
  import opened Programs
  import opened JumpEncoders
  import opened PatchTables
  import opened StubDrafts
  import opened GuardTable
  import opened PatchPasses

  class Process {
    var memory: Memory

    constructor (m: Memory)
      ensures memory == m
    {
      memory := m;
    }

    method ReadMemory(address: int, size: nat) returns (r: Result<seq<Byte>>)
      ensures r == if Readable(memory, address, size) then Ok(ReadBytes(memory, address, size)) else Err(ReadFailed)
    {
      if Readable(memory, address, size) {
        r := Ok(ReadBytes(memory, address, size));
      } else {
        r := Err(ReadFailed);
      }
    }

    /** Pages are made writable first, so whatever is mapped can be written. */
    method WriteMemory(address: int, data: seq<Byte>) returns (r: Result<nat>)
      modifies this
      ensures r == if Readable(old(memory), address, |data|) then Ok(|data|) else Err(WriteFailed)
      ensures memory == if r.Ok? then old(memory) + Block(address, data) else old(memory)
    {
      if Readable(memory, address, |data|) {
        memory := memory + Block(address, data);
        r := Ok(|data|);
      } else {
        r := Err(WriteFailed);
      }
    }

    /** Zeroed pages at the address the system answers with; an answer that is in use is no allocation. */
    method Allocate(answer: Option<U64>) returns (r: Result<U64>)
      modifies this
      ensures r == if answer.Some? && Unmapped(old(memory), answer.value, STUB_ALLOCATION) then Ok(answer.value) else Err(AllocationFailed)
      ensures memory == if r.Ok? then old(memory) + Block(r.value, seq(STUB_ALLOCATION, _ => 0)) else old(memory)
    {
      if answer.Some? && Unmapped(memory, answer.value, STUB_ALLOCATION) {
        memory := memory + Block(answer.value, seq(STUB_ALLOCATION, _ => 0));
        r := Ok(answer.value);
      } else {
        r := Err(AllocationFailed);
      }
    }
  }

  /** One request of a pass, taken off its front. */
  lemma PassUnfolds(m: Memory, rs: seq<Request>, i: nat, reports: seq<Report>)
    requires i < |rs|
    ensures var first := Apply(m, rs[i]);
            Prepend(reports, Pass(m, rs[i..]))
            == if first.result.Err? then Progress(first.memory, Err(first.result.error))
               else Prepend(reports + [first.result.value], Pass(first.memory, rs[i + 1..]))
  {
    hide Apply;
    assert rs[i..][0] == rs[i] && rs[i..][1..] == rs[i + 1..];
    var first := Apply(m, rs[i]);
    if first.result.Ok? {
      var rest := Pass(first.memory, rs[i + 1..]);
      if rest.result.Ok? {
        assert reports + ([first.result.value] + rest.result.value) == reports + [first.result.value] + rest.result.value;
      }
    }
  }

  lemma PassStarts(m: Memory, rs: seq<Request>)
    ensures Prepend([], Pass(m, rs[0..])) == Pass(m, rs)
  {
    hide Apply;
    assert rs[0..] == rs;
    var all := Pass(m, rs);
    if all.result.Ok? {
      assert [] + all.result.value == all.result.value;
    }
  }

  lemma PassEnds(m: Memory, rs: seq<Request>, reports: seq<Report>)
    ensures Prepend(reports, Pass(m, rs[|rs|..])) == Progress(m, Ok(reports))
  {
    hide Apply;
    assert reports + [] == reports;
  }

  /* ---------- null reads ---------- */

  function NullReadRequest(imageBase: int, offset: int): Request {
    Fixed(imageBase + offset, NULL_READ, Ok(NULL_READ_REPLACEMENT))
  }

  function NullReadRequests(imageBase: int, offsets: seq<int>): (rs: seq<Request>)
    ensures |rs| == |offsets|
  {
    seq(|offsets|, i requires 0 <= i < |offsets| => NullReadRequest(imageBase, offsets[i]))
  }

  method PatchNullReads(process: Process, imageBase: int, offsets: seq<int>) returns (r: Result<seq<Report>>)
    modifies process
    ensures Progress(process.memory, r) == Pass(old(process.memory), NullReadRequests(imageBase, offsets))
  {
    hide Pass, Prepend, Readable, ReadBytes, Block, NULL_READ, NULL_READ_REPLACEMENT;
    NullReadsChangeBytes();
    ghost var rs := NullReadRequests(imageBase, offsets);
    PassStarts(process.memory, rs);
    var reports: seq<Report> := [];
    for i := 0 to |offsets|
      invariant Prepend(reports, Pass(process.memory, rs[i..])) == Pass(old(process.memory), rs)
    {
      PassUnfolds(process.memory, rs, i, reports);
      var address := imageBase + offsets[i];
      var original :- process.ReadMemory(address, |NULL_READ|);
      var matched := original == NULL_READ;
      if matched {
        var _ := process.WriteMemory(address, NULL_READ_REPLACEMENT);
      }
      reports := reports + [Report(matched, Some(original), if matched then Some(NULL_READ_REPLACEMENT) else None, None)];
    }
    PassEnds(process.memory, rs, reports);
    return Ok(reports);
  }

  /* ---------- inline patches ---------- */

  function InlineRequest(imageBase: int, offset: int): Request {
    var known := KnownInlinePatch(offset);
    if known.None? then Unknown else Fixed(imageBase + offset, known.value.expected, Ok(known.value.replacement))
  }

  function InlineRequests(imageBase: int, offsets: seq<int>): (rs: seq<Request>)
    ensures |rs| == |offsets|
  {
    seq(|offsets|, i requires 0 <= i < |offsets| => InlineRequest(imageBase, offsets[i]))
  }

  method PatchInlineOffsets(process: Process, imageBase: int, offsets: seq<int>) returns (r: Result<seq<Report>>)
    modifies process
    ensures Progress(process.memory, r) == Pass(old(process.memory), InlineRequests(imageBase, offsets))
  {
    hide Pass, Prepend, Readable, ReadBytes, Block, KnownInlinePatch;
    ghost var rs := InlineRequests(imageBase, offsets);
    PassStarts(process.memory, rs);
    var reports: seq<Report> := [];
    for i := 0 to |offsets|
      invariant Prepend(reports, Pass(process.memory, rs[i..])) == Pass(old(process.memory), rs)
    {
      PassUnfolds(process.memory, rs, i, reports);
      var known := KnownInlinePatch(offsets[i]);
      if known.None? {
        reports := reports + [Report(false, None, None, None)];
      } else {
        InlinePatchesChangeBytes(offsets[i]);
        var patch := known.value;
        var address := imageBase + offsets[i];
        var original :- process.ReadMemory(address, |patch.expected|);
        var matched := original == patch.expected;
        if matched {
          var _ := process.WriteMemory(address, patch.replacement);
        }
        reports := reports + [Report(matched, Some(original), if matched then Some(patch.replacement) else None, None)];
      }
    }
    PassEnds(process.memory, rs, reports);
    return Ok(reports);
  }

  /* ---------- jump bypasses and guards ---------- */

  /** A pair of offsets from the command line; the guard table is consulted first. */
  function JumpRequest(imageBase: int, source: int, target: int, answer: Option<U64>): Request {
    var guard := LookupGuard(source, target);
    if guard.Some? then
      var spec := SpecOf(guard.value);
      Guarded(imageBase + source, spec.expected, guard.value, imageBase + target, imageBase + spec.resume, answer)
    else
      var block := KnownBlock(source);
      Fixed(imageBase + source, block, EncodeRelativeJump(imageBase + source, imageBase + target, |block|))
  }

  /** `answers[i]` is what the system would answer if pair `i` asked it for memory. */
  function JumpRequests(imageBase: int, pairs: seq<(int, int)>, answers: seq<Option<U64>>): (rs: seq<Request>)
    requires |answers| == |pairs|
    ensures |rs| == |pairs|
  {
    seq(|pairs|, i requires 0 <= i < |pairs| => JumpRequest(imageBase, pairs[i].0, pairs[i].1, answers[i]))
  }

  lemma RelativeJumpLength(source: int, target: int, block: seq<Byte>)
    requires |block| >= 5 && EncodeRelativeJump(source, target, |block|).Ok?
    ensures |EncodeRelativeJump(source, target, |block|).value| == |block|
    ensures EncodeRelativeJump(source, target, |block|).value[0] == 0xE9
  {
    hide LittleEndian;
  }

  /** The unconditional rewrite of a block. */
  method BypassBlock(process: Process, source: int, target: int, block: seq<Byte>) returns (r: Result<Report>)
    requires |block| >= 5
    modifies process
    ensures Progress(process.memory, r)
            == Apply(old(process.memory), Fixed(source, block, EncodeRelativeJump(source, target, |block|)))
  {
    hide Readable, ReadBytes, Block, EncodeRelativeJump;
    var original :- process.ReadMemory(source, |block|);
    var matched := original == block;
    if matched {
      var patched :- EncodeRelativeJump(source, target, |block|);
      RelativeJumpLength(source, target, block);
      var _ := process.WriteMemory(source, patched);
      return Ok(Report(true, Some(original), Some(patched), None));
    }
    return Ok(Report(false, Some(original), None, None));
  }

  lemma StubBytesAssembled(r: Request)
    requires r.Guarded? && WellFormed(StubOf(r.builder, Wrap(r.target), Wrap(r.resume)))
    ensures StubBytes(r) == Assemble(StubOf(r.builder, Wrap(r.target), Wrap(r.resume)))
  {
  }

  lemma SitesHaveRoom(b: Builder)
    ensures |SpecOf(b).expected| >= 12
  {
  }

  /** A matched guard site: allocate, build, write the stub, write the jump. */
  method InstallGuard(process: Process, source: int, builder: Builder, target: int, resume: int, answer: Option<U64>)
    returns (r: Result<Report>)
    modifies process
    ensures Progress(process.memory, r)
            == Apply(old(process.memory), Guarded(source, SpecOf(builder).expected, builder, target, resume, answer))
  {
    hide Readable, ReadBytes, Block, SpecOf, StubBytes, WellFormed, Assemble, StubOf, Unmapped, JumpTo;
    ghost var m, request := process.memory, Guarded(source, SpecOf(builder).expected, builder, target, resume, answer);
    SitesHaveRoom(builder);
    var expected := SpecOf(builder).expected;
    var original :- process.ReadMemory(source, |expected|);
    if original != expected {
      return Ok(Report(false, Some(original), None, None));
    }
    var trampoline :- process.Allocate(answer);
    var stub :- BuildStub(builder, trampoline, target, resume);
    StubBytesAssembled(request);
    StubFits(m, trampoline, stub);
    var _ := process.WriteMemory(trampoline, stub);
    var patched := JumpTo(trampoline, |expected|);
    JumpLength(trampoline, |expected|);
    StillReadable(m, Block(trampoline, seq(STUB_ALLOCATION, _ => 0)), source, |expected|);
    StillReadable(m + Block(trampoline, seq(STUB_ALLOCATION, _ => 0)), Block(trampoline, stub), source, |expected|);
    var _ := process.WriteMemory(source, patched);
    return Ok(Report(true, Some(original), Some(patched), Some(stub)));
  }

  lemma StubFits(m: Memory, a: U64, stub: seq<Byte>)
    requires |stub| <= STUB_ALLOCATION && Unmapped(m, a, STUB_ALLOCATION)
    ensures Readable(m + Block(a, seq(STUB_ALLOCATION, _ => 0)), a, |stub|)
  {
    var pages := Block(a, seq(STUB_ALLOCATION, _ => 0));
    forall x | a <= x < a + |stub|
      ensures Has(m + pages, x)
    {
      assert Within(x, a, STUB_ALLOCATION);
      assert x in pages;
    }
  }

  method PatchJumpBypasses(process: Process, imageBase: int, pairs: seq<(int, int)>, answers: seq<Option<U64>>)
    returns (r: Result<seq<Report>>)
    requires |answers| == |pairs|
    modifies process
    ensures Progress(process.memory, r) == Pass(old(process.memory), JumpRequests(imageBase, pairs, answers))
  {
    hide Pass, Prepend, Apply, KnownBlock, LookupGuard, SpecOf, EncodeRelativeJump;
    ghost var rs := JumpRequests(imageBase, pairs, answers);
    PassStarts(process.memory, rs);
    var reports: seq<Report> := [];
    for i := 0 to |pairs|
      invariant Prepend(reports, Pass(process.memory, rs[i..])) == Pass(old(process.memory), rs)
    {
      PassUnfolds(process.memory, rs, i, reports);
      var (source, target) := pairs[i];
      var guard := LookupGuard(source, target);
      var report: Report;
      if guard.Some? {
        var resume := SpecOf(guard.value).resume;
        report :- InstallGuard(process, imageBase + source, guard.value, imageBase + target, imageBase + resume, answers[i]);
      } else {
        report :- BypassBlock(process, imageBase + source, imageBase + target, KnownBlock(source));
      }
      reports := reports + [report];
    }
    PassEnds(process.memory, rs, reports);
    return Ok(reports);
  }
}
