/**
 The patch passes over process memory, as functions: read a site, compare, and overwrite it when
 it holds the expected bytes, one request after another. Then what a whole pass amounts to: which
 bytes change, that the order of the requests does not matter, and that a second pass finds
 nothing left to do.
 */
module PatchPasses {
  import opened Wrappers
  import opened Words
  import opened ProcessMemory
  import opened Programs
  import opened JumpEncoders
  import opened StubDrafts
  import opened StubBuilders
  import opened GuardTable

  /** The byte at `x` is mapped. */
  predicate Has(m: Memory, x: int) {
    0 <= x < 0x1_0000_0000_0000_0000 && x in m
  }

  predicate Readable(m: Memory, a: int, n: int) {
    forall x :: a <= x < a + n ==> Has(m, x)
  }

  function ReadBytes(m: Memory, a: int, n: nat): (bytes: seq<Byte>)
    requires Readable(m, a, n)
    ensures |bytes| == n
  {
    seq(n, i requires 0 <= i < n => assert Has(m, a + i); m[a + i])
  }

  predicate HoldsBytes(m: Memory, a: int, bytes: seq<Byte>) {
    Readable(m, a, |bytes|) && ReadBytes(m, a, |bytes|) == bytes
  }

  predicate Within(x: int, a: int, n: nat) {
    a <= x < a + n
  }

  /** `bytes` as the memory they occupy at `a`. */
  function Block(a: int, bytes: seq<Byte>): Memory {
    map x: U64 | a <= x < a + |bytes| && Within(x, a, |bytes|) :: bytes[x - a]
  }

  /**
   One request of a pass: an unknown inline offset, fixed replacement bytes (which may fail to be
   encoded), or a guard, whose stub goes into memory that the system allocates for it.
   */
  datatype Request =
    | Unknown
    | Fixed(address: int, bytes: seq<Byte>, replacement: Result<seq<Byte>>)
    | Guarded(address: int, bytes: seq<Byte>, builder: Builder, target: int, resume: int, allocation: Option<U64>)

  datatype Report = Report(matched: bool, original: Option<seq<Byte>>, patched: Option<seq<Byte>>, stub: Option<seq<Byte>>)

  /** Memory after a pass or a part of one, and the reports or the error that ended it. */
  datatype Progress<T> = Progress(memory: Memory, result: Result<T>)

  predicate Matches(m: Memory, r: Request) {
    && !r.Unknown?
    && Readable(m, r.address, |r.bytes|)
    && ReadBytes(m, r.address, |r.bytes|) == r.bytes
  }

  predicate Buildable(r: Request)
    requires r.Guarded?
  {
    && (UsesTarget(r.builder) ==> IsU64(r.target))
    && (UsesResume(r.builder) ==> IsU64(r.resume))
  }

  /** The stub, assembled. */
  function StubBytes(r: Request): (bytes: seq<Byte>)
    requires r.Guarded?
  {
    var p := StubOf(r.builder, Wrap(r.target), Wrap(r.resume));
    if WellFormed(p) then Assemble(p) else []
  }

  /** Fresh pages are zero; the stub is written at their start. */
  function Padded(bytes: seq<Byte>): (padded: seq<Byte>)
    ensures |bytes| <= STUB_ALLOCATION ==> |padded| == STUB_ALLOCATION
  {
    if |bytes| <= STUB_ALLOCATION then bytes + seq(STUB_ALLOCATION - |bytes|, _ => 0) else bytes
  }

  predicate Unmapped(m: Memory, a: U64, n: nat) {
    a + n <= 0x1_0000_0000_0000_0000 && forall x :: a <= x < a + n ==> !Has(m, x)
  }

  /** The request succeeds on this memory: its site can be read and, if it matches, patched. */
  predicate Applicable(m: Memory, r: Request) {
    match r
    case Unknown => true
    case Fixed(address, bytes, replacement) =>
      Readable(m, address, |bytes|) && (Matches(m, r) ==> replacement.Ok? && |replacement.value| == |bytes|)
    case Guarded(address, bytes, _, _, _, allocation) =>
      && Readable(m, address, |bytes|)
      && (Matches(m, r) ==>
            allocation.Some? && Unmapped(m, allocation.value, STUB_ALLOCATION) && Buildable(r) && |StubBytes(r)| <= STUB_ALLOCATION
            && |bytes| >= 12)
  }

  function JumpTo(allocation: U64, size: nat): seq<Byte>
    requires size >= 12
  {
    EncodeAbsoluteJump(allocation, Some(size)).value
  }

  /** What a matching request writes, as memory. */
  function Writes(m: Memory, r: Request): Memory
    requires Applicable(m, r)
  {
    if !Matches(m, r) then map[]
    else match r
      case Fixed(address, _, replacement) => Block(address, replacement.value)
      case Guarded(address, bytes, _, _, _, allocation) =>
        Block(allocation.value, Padded(StubBytes(r))) + Block(address, JumpTo(allocation.value, |bytes|))
  }

  function ReportOf(m: Memory, r: Request): Report
    requires Applicable(m, r)
  {
    match r
    case Unknown => Report(false, None, None, None)
    case Fixed(address, bytes, replacement) =>
      Report(Matches(m, r), Some(ReadBytes(m, address, |bytes|)), if Matches(m, r) then Some(replacement.value) else None, None)
    case Guarded(address, bytes, _, _, _, allocation) =>
      if Matches(m, r) then Report(true, Some(bytes), Some(JumpTo(allocation.value, |bytes|)), Some(StubBytes(r)))
      else Report(false, Some(ReadBytes(m, address, |bytes|)), None, None)
  }

  /**
   One request carried out step by step. A step that fails ends the pass with what has been
   written so far.
   */
  function Apply(m: Memory, r: Request): Progress<Report> {
    if r.Unknown? then Progress(m, Ok(Report(false, None, None, None)))
    else if !Readable(m, r.address, |r.bytes|) then Progress(m, Err(ReadFailed))
    else
      var original := ReadBytes(m, r.address, |r.bytes|);
      if original != r.bytes then Progress(m, Ok(Report(false, Some(original), None, None)))
      else if r.Fixed? then Replace(m, r.address, r.replacement, original)
      else Guard(m, r, original)
  }

  function Replace(m: Memory, address: int, replacement: Result<seq<Byte>>, original: seq<Byte>): Progress<Report> {
    if replacement.Err? then Progress(m, Err(replacement.error))
    else if !Readable(m, address, |replacement.value|) then Progress(m, Err(WriteFailed))
    else Progress(m + Block(address, replacement.value), Ok(Report(true, Some(original), Some(replacement.value), None)))
  }

  /** Allocate, build, write the stub, then write the jump to it over the site. */
  function Guard(m: Memory, r: Request, original: seq<Byte>): Progress<Report>
    requires r.Guarded?
  {
    if r.allocation.None? || !Unmapped(m, r.allocation.value, STUB_ALLOCATION) then Progress(m, Err(AllocationFailed))
    else
      var a := r.allocation.value;
      var pages := m + Block(a, seq(STUB_ALLOCATION, _ => 0));
      if !Buildable(r) then Progress(pages, Err(AddressOverflow))
      else if !Readable(pages, a, |StubBytes(r)|) then Progress(pages, Err(WriteFailed))
      else
        var stubbed := pages + Block(a, StubBytes(r));
        if |r.bytes| < 12 then Progress(stubbed, Err(PatchTooSmall))
        else if !Readable(stubbed, r.address, |r.bytes|) then Progress(stubbed, Err(WriteFailed))
        else
          var jump := JumpTo(a, |r.bytes|);
          Progress(stubbed + Block(r.address, jump), Ok(Report(true, Some(original), Some(jump), Some(StubBytes(r)))))
  }

  /** A whole pass, in order, up to the first error. */
  function Pass(m: Memory, rs: seq<Request>): Progress<seq<Report>>
    decreases |rs|
  {
    hide Apply;
    if rs == [] then Progress(m, Ok([]))
    else
      var first := Apply(m, rs[0]);
      if first.result.Err? then Progress(first.memory, Err(first.result.error))
      else Prepend([first.result.value], Pass(first.memory, rs[1..]))
  }

  function Prepend(reports: seq<Report>, rest: Progress<seq<Report>>): Progress<seq<Report>> {
    if rest.result.Err? then rest else rest.(result := Ok(reports + rest.result.value))
  }

  lemma PaddedIsOverwrite(a: U64, bytes: seq<Byte>)
    requires |bytes| <= STUB_ALLOCATION && a + STUB_ALLOCATION <= 0x1_0000_0000_0000_0000
    ensures Block(a, seq(STUB_ALLOCATION, _ => 0)) + Block(a, bytes) == Block(a, Padded(bytes))
  {
  }

  lemma JumpLength(a: U64, size: nat)
    requires size >= 12
    ensures |JumpTo(a, size)| == size
  {
    hide LittleEndian;
  }

  /** Applying an applicable request adds its writes to memory and reports them. */
  lemma AppliesWrites(m: Memory, r: Request)
    requires Applicable(m, r)
    ensures Apply(m, r) == Progress(m + Writes(m, r), Ok(ReportOf(m, r)))
  {
    hide Block, ReadBytes, Padded, StubBytes, JumpTo, Readable;
    if !Matches(m, r) {
      assert m + map[] == m;
    } else if r.Guarded? {
      var a := r.allocation.value;
      GuardSteps(m, r);
      PaddedIsOverwrite(a, StubBytes(r));
      assert (m + Block(a, seq(STUB_ALLOCATION, _ => 0))) + Block(a, StubBytes(r)) == m + Block(a, Padded(StubBytes(r)));
      var b, c := Block(a, Padded(StubBytes(r))), Block(r.address, JumpTo(a, |r.bytes|));
      assert (m + b) + c == m + (b + c);
    }
  }

  /** The writes of a guard stay inside what it allocated and its site. */
  lemma GuardSteps(m: Memory, r: Request)
    requires Applicable(m, r) && Matches(m, r) && r.Guarded?
    ensures var a := r.allocation.value;
            var pages := m + Block(a, seq(STUB_ALLOCATION, _ => 0));
            && Readable(pages, a, |StubBytes(r)|)
            && Readable(pages + Block(a, StubBytes(r)), r.address, |r.bytes|)
  {
    hide ReadBytes, Padded, StubBytes;
    var a := r.allocation.value;
    var pages := m + Block(a, seq(STUB_ALLOCATION, _ => 0));
    forall x | a <= x < a + |StubBytes(r)|
      ensures Has(pages, x)
    {
      assert x in Block(a, seq(STUB_ALLOCATION, _ => 0));
    }
    forall x | r.address <= x < r.address + |r.bytes|
      ensures Has(pages + Block(a, StubBytes(r)), x)
    {
      assert Has(m, x);
    }
  }

  /* ---------- passes that fail ---------- */

  predicate Harmless(m: Memory, m': Memory, r: Request) {
    && (forall x: U64 :: x in m ==> x in m' && m'[x] == m[x])
    && (forall x: U64 :: x in m' && x !in m ==> InStub(r, x))
  }

  lemma GuardFailureHarmless(m: Memory, r: Request, original: seq<Byte>)
    requires r.Guarded? && |StubBytes(r)| <= STUB_ALLOCATION && Readable(m, r.address, |r.bytes|)
    requires Guard(m, r, original).result.Err?
    ensures Harmless(m, Guard(m, r, original).memory, r)
  {
    hide StubBytes, JumpTo, Readable;
    if r.allocation.Some? && Unmapped(m, r.allocation.value, STUB_ALLOCATION) {
      var a := r.allocation.value;
      var pages := Block(a, seq(STUB_ALLOCATION, _ => 0));
      forall x: U64 | x in pages
        ensures !Has(m, x) && InStub(r, x)
      {
      }
      assert Harmless(m, m + pages, r);
      StillReadable(m, pages, r.address, |r.bytes|);
      StillReadable(m + pages, Block(a, StubBytes(r)), r.address, |r.bytes|);
      assert Harmless(m, m + pages + Block(a, StubBytes(r)), r);
    }
  }

  /** A request that fails has changed no mapped byte; at most the pages allocated for it are new. The stubs fit their pages. */
  lemma FailureHarmless(m: Memory, r: Request)
    requires Apply(m, r).result.Err? && (r.Guarded? ==> |StubBytes(r)| <= STUB_ALLOCATION)
    ensures Harmless(m, Apply(m, r).memory, r)
    ensures !r.Unknown? && (Apply(m, r).result.error == ReadFailed || Readable(m, r.address, |r.bytes|))
  {
    hide ReadBytes, StubBytes, Readable, Guard, Harmless;
    SameIsHarmless(m, r);
    if Readable(m, r.address, |r.bytes|) && r.Guarded? {
      GuardFailureHarmless(m, r, ReadBytes(m, r.address, |r.bytes|));
    }
  }

  lemma SameIsHarmless(m: Memory, r: Request)
    ensures Harmless(m, m, r)
  {
  }

  lemma StillReadable(m: Memory, w: Memory, a: int, n: nat)
    requires Readable(m, a, n)
    ensures Readable(m + w, a, n)
  {
    forall x | a <= x < a + n
      ensures Has(m + w, x)
    {
      assert Has(m, x);
    }
  }

  /** A pass that fails has done what the requests before the failing one do, and what that one left. */
  lemma {:induction false} StopsAt(m: Memory, rs: seq<Request>) returns (k: nat)
    requires Pass(m, rs).result.Err?
    ensures k < |rs| && Pass(m, rs[..k]).result.Ok?
    ensures var failed := Apply(Pass(m, rs[..k]).memory, rs[k]);
            failed.result.Err? && failed.memory == Pass(m, rs).memory && failed.result.error == Pass(m, rs).result.error
    decreases |rs|
  {
    hide Apply;
    if Apply(m, rs[0]).result.Err? {
      k := 0;
    } else {
      k := StopsAt(Apply(m, rs[0]).memory, rs[1..]);
      k := k + 1;
      assert rs[..k][1..] == rs[1..][..k - 1] && rs[..k][0] == rs[0];
    }
  }

  /* ---------- a whole pass over disjoint sites ---------- */

  predicate InSite(r: Request, x: int) {
    !r.Unknown? && Within(x, r.address, |r.bytes|)
  }

  predicate InStub(r: Request, x: int) {
    r.Guarded? && r.allocation.Some? && Within(x, r.allocation.value, STUB_ALLOCATION)
  }

  predicate Covers(r: Request, x: int) {
    InSite(r, x) || InStub(r, x)
  }

  /** The two requests' sites and stubs have no byte in common. */
  ghost predicate ApartFrom(r: Request, q: Request) {
    forall x :: !(Covers(r, x) && Covers(q, x))
  }

  ghost predicate PairwiseApart(rs: seq<Request>) {
    forall i, j :: 0 <= i < j < |rs| ==> ApartFrom(rs[i], rs[j])
  }

  predicate AllApplicable(m: Memory, rs: seq<Request>) {
    forall r :: r in rs ==> Applicable(m, r)
  }

  /** A request writes only where it covers. */
  lemma WritesCovered(m: Memory, r: Request, x: U64)
    requires Applicable(m, r) && x in Writes(m, r)
    ensures Covers(r, x)
    ensures Matches(m, r) && (InSite(r, x) || !Has(m, x))
  {
    hide ReadBytes, StubBytes, LittleEndian, EncodeAbsoluteJump;
    if r.Guarded? {
      JumpLength(r.allocation.value, |r.bytes|);
    }
  }

  /** What a request finds and does is not changed by writes it does not cover. */
  lemma Unaffected(m: Memory, w: Memory, r: Request)
    requires Applicable(m, r) && (forall x: U64 :: x in w ==> !Covers(r, x))
    ensures Matches(m + w, r) == Matches(m, r) && Applicable(m + w, r)
    ensures Writes(m + w, r) == Writes(m, r) && ReportOf(m + w, r) == ReportOf(m, r)
  {
    hide StubBytes, Padded, JumpTo;
    if !r.Unknown? {
      SameSite(m, w, r);
      if Matches(m, r) && r.Guarded? {
        StillUnmapped(m, w, r);
      }
    }
  }

  lemma SameSite(m: Memory, w: Memory, r: Request)
    requires !r.Unknown? && Readable(m, r.address, |r.bytes|) && (forall x: U64 :: x in w ==> !Covers(r, x))
    ensures Readable(m + w, r.address, |r.bytes|)
    ensures ReadBytes(m + w, r.address, |r.bytes|) == ReadBytes(m, r.address, |r.bytes|)
  {
    forall x | r.address <= x < r.address + |r.bytes|
      ensures Has(m + w, x) && Has(m, x) && (m + w)[x] == m[x]
    {
      assert Has(m, x) && InSite(r, x);
    }
  }

  lemma StillUnmapped(m: Memory, w: Memory, r: Request)
    requires r.Guarded? && r.allocation.Some? && Unmapped(m, r.allocation.value, STUB_ALLOCATION)
    requires forall x: U64 :: x in w ==> !Covers(r, x)
    ensures Unmapped(m + w, r.allocation.value, STUB_ALLOCATION)
  {
    forall x | r.allocation.value <= x < r.allocation.value + STUB_ALLOCATION
      ensures !Has(m + w, x)
    {
      assert !Has(m, x) && InStub(r, x);
    }
  }

  /**
   The memory a pass leaves: what the matching requests write, and everything else as it was.
   It mentions the requests by membership only, not by their order.
   */
  ghost predicate IsImage(m: Memory, rs: seq<Request>, m': Memory)
    requires AllApplicable(m, rs)
  {
    && (forall x: U64 :: x in m' <==> x in m || exists r :: r in rs && x in Writes(m, r))
    && (forall r, x: U64 :: r in rs && x in Writes(m, r) ==> m'[x] == Writes(m, r)[x])
    && (forall x: U64 :: x in m && (forall r :: r in rs ==> x !in Writes(m, r)) ==> m'[x] == m[x])
  }

  lemma RestUnaffected(m: Memory, rs: seq<Request>)
    requires rs != [] && PairwiseApart(rs) && AllApplicable(m, rs)
    ensures PairwiseApart(rs[1..]) && AllApplicable(m, rs[1..]) && AllApplicable(m + Writes(m, rs[0]), rs[1..])
    ensures forall r :: r in rs[1..] ==> r in rs && ApartFrom(rs[0], r)
    ensures forall r :: r in rs[1..] ==> Writes(m + Writes(m, rs[0]), r) == Writes(m, r)
    ensures forall r :: r in rs[1..] ==> ReportOf(m + Writes(m, rs[0]), r) == ReportOf(m, r)
  {
    hide Writes, ReportOf, Matches, Covers, Applicable;
    forall r | r in rs[1..]
      ensures r in rs && ApartFrom(rs[0], r) && Applicable(m + Writes(m, rs[0]), r)
      ensures Writes(m + Writes(m, rs[0]), r) == Writes(m, r) && ReportOf(m + Writes(m, rs[0]), r) == ReportOf(m, r)
    {
      var i :| 0 <= i < |rs| - 1 && rs[1..][i] == r;
      assert rs[1 + i] == r;
      forall x: U64 | x in Writes(m, rs[0])
        ensures !Covers(r, x)
      {
        WritesCovered(m, rs[0], x);
      }
      Unaffected(m, Writes(m, rs[0]), r);
    }
  }

  lemma NothingToImage(m: Memory)
    ensures IsImage(m, [], m)
  {
  }

  /**
   A pass over disjoint, applicable sites completes; its reports align one to one with the
   requests and say what each would find in the original memory; and its memory is the image.
   */
  lemma {:induction false} PassImage(m: Memory, rs: seq<Request>)
    requires PairwiseApart(rs) && AllApplicable(m, rs)
    ensures Pass(m, rs).result.Ok? && |Pass(m, rs).result.value| == |rs|
    ensures forall i :: 0 <= i < |rs| ==> Pass(m, rs).result.value[i] == ReportOf(m, rs[i])
    ensures IsImage(m, rs, Pass(m, rs).memory)
    decreases |rs|
  {
    hide Writes, ReportOf, Apply, PairwiseApart, Applicable, ApartFrom, IsImage;
    if rs == [] {
      NothingToImage(m);
    } else {
      RestUnaffected(m, rs);
      var m1 := m + Writes(m, rs[0]);
      AppliesWrites(m, rs[0]);
      PassImage(m1, rs[1..]);
      var rest := Pass(m1, rs[1..]);
      assert Pass(m, rs) == Prepend([ReportOf(m, rs[0])], rest);
      hide Pass;
      forall i | 0 < i < |rs|
        ensures rest.result.value[i - 1] == ReportOf(m, rs[i])
      {
        assert rs[1..][i - 1] == rs[i];
      }
      ImageStep(m, rs, rest.memory);
    }
  }

  lemma DisjointWrites(m: Memory, r: Request, q: Request, x: U64)
    requires Applicable(m, r) && Applicable(m, q) && ApartFrom(r, q) && x in Writes(m, q)
    ensures x !in Writes(m, r)
  {
    hide Writes, Applicable, Covers;
    WritesCovered(m, q, x);
    if x in Writes(m, r) {
      WritesCovered(m, r, x);
    }
  }

  lemma ImageStep(m: Memory, rs: seq<Request>, m': Memory)
    requires rs != [] && PairwiseApart(rs) && AllApplicable(m, rs)
    requires AllApplicable(m + Writes(m, rs[0]), rs[1..]) && IsImage(m + Writes(m, rs[0]), rs[1..], m')
    ensures IsImage(m, rs, m')
  {
    hide Writes, ReportOf, Matches, Covers, Applicable, ApartFrom, PairwiseApart;
    RestUnaffected(m, rs);
    var w := Writes(m, rs[0]);
    assert forall r :: r in rs <==> r == rs[0] || r in rs[1..];
    forall r, x: U64 | r in rs[1..] && x in Writes(m, r)
      ensures x !in w
    {
      DisjointWrites(m, rs[0], r, x);
    }
  }

  /** There is only one image. */
  lemma ImageUnique(m: Memory, rs: seq<Request>, rs': seq<Request>, a: Memory, b: Memory)
    requires AllApplicable(m, rs) && AllApplicable(m, rs') && (forall r :: r in rs <==> r in rs')
    requires IsImage(m, rs, a) && IsImage(m, rs', b)
    ensures a == b
  {
    hide Writes, Applicable;
    assert forall x: U64 :: x in a <==> x in b;
    forall x: U64 | x in a
      ensures a[x] == b[x]
    {
      if exists r :: r in rs && x in Writes(m, r) {
        var r :| r in rs && x in Writes(m, r);
        assert r in rs';
      }
    }
  }

  lemma FoundTwice(rs: seq<Request>, r: Request) returns (i: nat, j: nat)
    requires multiset(rs)[r] >= 2
    ensures i < j < |rs| && rs[i] == rs[j] == r
  {
    assert r in multiset(rs);
    i :| i < |rs| && rs[i] == r;
    assert rs == rs[..i] + [r] + rs[i + 1..];
    if r in rs[..i] {
      var k: nat :| k < i && rs[..i][k] == r;
      i, j := k, i;
    } else {
      assert multiset(rs[..i])[r] == 0;
      assert r in multiset(rs[i + 1..]);
      var k: nat :| k < |rs[i + 1..]| && rs[i + 1..][k] == r;
      j := i + 1 + k;
    }
  }

  /** Rearranging disjoint requests leaves them disjoint. */
  lemma PermutedApart(rs: seq<Request>, rs': seq<Request>)
    requires multiset(rs) == multiset(rs') && PairwiseApart(rs)
    ensures PairwiseApart(rs')
  {
    hide Covers;
    forall i, j | 0 <= i < j < |rs'|
      ensures ApartFrom(rs'[i], rs'[j])
    {
      var r, q := rs'[i], rs'[j];
      if r == q {
        CountedTwice(rs', i, j);
        var k, l := FoundTwice(rs, r);
        assert ApartFrom(rs[k], rs[l]);
      } else {
        assert r in multiset(rs') && q in multiset(rs');
        var k :| 0 <= k < |rs| && rs[k] == r;
        var l :| 0 <= l < |rs| && rs[l] == q;
        if k < l {
          assert ApartFrom(rs[k], rs[l]);
        } else {
          assert ApartFrom(rs[l], rs[k]);
        }
      }
    }
  }

  /** The requests of a pass may be carried out in any order. */
  lemma OrderIndependent(m: Memory, rs: seq<Request>, rs': seq<Request>)
    requires multiset(rs) == multiset(rs')
    requires PairwiseApart(rs) && AllApplicable(m, rs)
    ensures Pass(m, rs).result.Ok? && Pass(m, rs').result.Ok?
    ensures Pass(m, rs).memory == Pass(m, rs').memory
  {
    hide Pass, IsImage, PairwiseApart, Applicable;
    forall r
      ensures r in rs <==> r in rs'
    {
      assert r in rs <==> r in multiset(rs);
      assert r in rs' <==> r in multiset(rs');
    }
    PermutedApart(rs, rs');
    PassImage(m, rs);
    PassImage(m, rs');
    ImageUnique(m, rs, rs', Pass(m, rs).memory, Pass(m, rs').memory);
  }

  /** A mapped byte that a pass changes lies in a site that held the expected bytes. */
  lemma ChangesOnlyMatchedSites(m: Memory, rs: seq<Request>, x: U64)
    requires PairwiseApart(rs) && AllApplicable(m, rs) && x in m
    ensures x in Pass(m, rs).memory
    ensures Pass(m, rs).memory[x] != m[x] ==> exists r :: r in rs && Matches(m, r) && InSite(r, x)
  {
    hide Pass, Writes, PairwiseApart, Applicable, Matches;
    PassImage(m, rs);
    if Pass(m, rs).memory[x] != m[x] {
      var r :| r in rs && x in Writes(m, r);
      WritesCovered(m, r, x);
    }
  }

  /** The replacement is not itself what the request looks for. */
  predicate Changes(m: Memory, r: Request)
    requires Applicable(m, r)
  {
    Matches(m, r) ==>
      match r
      case Fixed(_, bytes, replacement) => replacement.value != bytes
      case Guarded(_, bytes, _, _, _, allocation) => JumpTo(allocation.value, |bytes|) != bytes
  }

  /** Two requests of a disjoint pass that cover the same byte are one. */
  lemma Together(rs: seq<Request>, r: Request, q: Request, x: int)
    requires PairwiseApart(rs) && r in rs && q in rs && Covers(r, x) && Covers(q, x)
    ensures r == q
  {
    hide Covers;
    var i :| 0 <= i < |rs| && rs[i] == r;
    var j :| 0 <= j < |rs| && rs[j] == q;
  }

  /** No other request writes into a site, and a site that does not match is not written. */
  lemma NotWritten(m: Memory, rs: seq<Request>, r: Request, x: U64)
    requires AllApplicable(m, rs) && PairwiseApart(rs) && r in rs && InSite(r, x) && !Matches(m, r)
    ensures forall q :: q in rs ==> x !in Writes(m, q)
  {
    hide Writes, Applicable, Matches, PairwiseApart;
    forall q | q in rs
      ensures x !in Writes(m, q)
    {
      if x in Writes(m, q) {
        WritesCovered(m, q, x);
        Together(rs, r, q, x);
      }
    }
  }

  /** `bytes` are what is at `a`. */
  lemma ReadsAs(m: Memory, a: int, bytes: seq<Byte>)
    requires forall x :: Within(x, a, |bytes|) ==> Has(m, x) && m[x] == bytes[x - a]
    ensures Readable(m, a, |bytes|) && ReadBytes(m, a, |bytes|) == bytes
  {
    forall x | a <= x < a + |bytes|
      ensures Has(m, x)
    {
      assert Within(x, a, |bytes|);
    }
    forall i | 0 <= i < |bytes|
      ensures ReadBytes(m, a, |bytes|)[i] == bytes[i]
    {
      assert Within(a + i, a, |bytes|);
    }
  }

  /** What a matching request leaves in its site. */
  function SiteBytes(r: Request): seq<Byte>
    requires r.Fixed? ==> r.replacement.Ok?
    requires r.Guarded? ==> r.allocation.Some? && |r.bytes| >= 12
    requires !r.Unknown?
  {
    if r.Fixed? then r.replacement.value else JumpTo(r.allocation.value, |r.bytes|)
  }

  lemma SiteWritten(m: Memory, r: Request, x: int)
    requires Applicable(m, r) && Matches(m, r) && InSite(r, x)
    ensures |SiteBytes(r)| == |r.bytes| && Has(m, x) && x in Writes(m, r) && Writes(m, r)[x] == SiteBytes(r)[x - r.address]
  {
    hide ReadBytes, StubBytes, JumpTo, Padded;
    if r.Guarded? {
      JumpLength(r.allocation.value, |r.bytes|);
    }
    assert Has(m, x);
    assert Within(x, r.address, |SiteBytes(r)|);
  }

  lemma SiteLength(m: Memory, r: Request)
    requires Applicable(m, r) && Matches(m, r)
    ensures !r.Unknown? && |SiteBytes(r)| == |r.bytes|
  {
    hide ReadBytes, StubBytes, JumpTo;
    if r.Guarded? {
      JumpLength(r.allocation.value, |r.bytes|);
    }
  }

  lemma ImageHolds(m: Memory, rs: seq<Request>, m': Memory, r: Request, x: int)
    requires AllApplicable(m, rs) && IsImage(m, rs, m') && r in rs && Has(m, x)
    requires Applicable(m, r) && x in Writes(m, r)
    ensures Has(m', x) && m'[x] == Writes(m, r)[x]
  {
    hide Writes, Applicable;
  }

  lemma AmongApplicable(m: Memory, rs: seq<Request>, r: Request)
    requires AllApplicable(m, rs) && r in rs && Matches(m, r)
    ensures Applicable(m, r) && !r.Unknown?
    ensures (r.Fixed? ==> r.replacement.Ok?) && (r.Guarded? ==> r.allocation.Some? && |r.bytes| >= 12)
  {
  }

  lemma SiteByte(m: Memory, rs: seq<Request>, m': Memory, r: Request, x: int)
    requires AllApplicable(m, rs) && IsImage(m, rs, m') && r in rs && Applicable(m, r) && Matches(m, r)
    requires Within(x, r.address, |SiteBytes(r)|)
    ensures Has(m', x) && m'[x] == SiteBytes(r)[x - r.address]
  {
    hide ReadBytes, Writes, Matches, SiteBytes, Readable, IsImage, Applicable;
    SiteLength(m, r);
    SiteWritten(m, r, x);
    ImageHolds(m, rs, m', r, x);
  }

  lemma MatchedSite(m: Memory, rs: seq<Request>, m': Memory, r: Request)
    requires AllApplicable(m, rs) && PairwiseApart(rs) && IsImage(m, rs, m') && r in rs && Matches(m, r)
    ensures |SiteBytes(r)| == |r.bytes| && Readable(m', r.address, |r.bytes|)
    ensures ReadBytes(m', r.address, |r.bytes|) == SiteBytes(r)
  {
    hide ReadBytes, Writes, Matches, SiteBytes, PairwiseApart, Readable, IsImage, Applicable, AllApplicable;
    AmongApplicable(m, rs, r);
    SiteLength(m, r);
    forall x | Within(x, r.address, |SiteBytes(r)|)
      ensures Has(m', x) && m'[x] == SiteBytes(r)[x - r.address]
    {
      SiteByte(m, rs, m', r, x);
    }
    ReadsAs(m', r.address, SiteBytes(r));
  }

  lemma UnmatchedSite(m: Memory, rs: seq<Request>, m': Memory, r: Request)
    requires AllApplicable(m, rs) && PairwiseApart(rs) && IsImage(m, rs, m') && r in rs && !Matches(m, r) && !r.Unknown?
    ensures Readable(m', r.address, |r.bytes|) && Readable(m, r.address, |r.bytes|)
    ensures ReadBytes(m', r.address, |r.bytes|) == ReadBytes(m, r.address, |r.bytes|)
  {
    hide Writes, Matches, PairwiseApart;
    assert Applicable(m, r);
    var site := ReadBytes(m, r.address, |r.bytes|);
    forall x | Within(x, r.address, |site|)
      ensures Has(m', x) && m'[x] == site[x - r.address]
    {
      assert Has(m, x);
      NotWritten(m, rs, r, x);
    }
    ReadsAs(m', r.address, site);
  }

  /** After a pass no site matches any more, so a second pass succeeds, changes nothing and reports no match. */
  lemma SecondPass(m: Memory, rs: seq<Request>)
    requires PairwiseApart(rs) && AllApplicable(m, rs) && (forall r :: r in rs ==> Changes(m, r))
    ensures var m' := Pass(m, rs).memory;
            && Pass(m', rs).memory == m' && Pass(m', rs).result.Ok? && |Pass(m', rs).result.value| == |rs|
            && forall i :: 0 <= i < |rs| ==> !Pass(m', rs).result.value[i].matched
  {
    hide Pass, Writes, ReportOf, PairwiseApart, Readable, ReadBytes, JumpTo, IsImage;
    PassImage(m, rs);
    var m' := Pass(m, rs).memory;
    forall r | r in rs
      ensures !Matches(m', r) && Applicable(m', r)
    {
      assert Applicable(m, r) && Changes(m, r);
      if Matches(m, r) {
        MatchedSite(m, rs, m', r);
      } else if !r.Unknown? {
        UnmatchedSite(m, rs, m', r);
      }
    }
    PassImage(m', rs);
    NothingWritten(m', rs);
    assert IsImage(m', rs, m');
    ImageUnique(m', rs, rs, m', Pass(m', rs).memory);
    forall i | 0 <= i < |rs|
      ensures !Pass(m', rs).result.value[i].matched
    {
      assert rs[i] in rs;
      UnmatchedReport(m', rs[i]);
    }
  }

  lemma UnmatchedReport(m: Memory, r: Request)
    requires Applicable(m, r) && !Matches(m, r)
    ensures !ReportOf(m, r).matched
  {
  }

  lemma NothingWritten(m: Memory, rs: seq<Request>)
    requires AllApplicable(m, rs) && (forall r :: r in rs ==> !Matches(m, r))
    ensures IsImage(m, rs, m)
  {
    hide Applicable, Matches;
    assert forall r :: r in rs ==> Writes(m, r) == map[];
  }
}
