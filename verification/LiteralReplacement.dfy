/**
 Replacing an ASCII literal throughout a process image: the scan works on a snapshot of the image
 while it writes to the process, and amounts to leftmost, non-overlapping replacement.
 */
module LiteralReplacement {
  import opened Wrappers
  import opened Words
  import opened ByteSearch
  import opened ProcessMemory
  import opened PatchPasses
  import opened PatchProcess

  /** Where leftmost, non-overlapping replacement replaces, from `from` on. */
  function Positions(image: seq<Byte>, literal: seq<Byte>, from: nat): seq<nat>
    requires |literal| > 0
    decreases |image| - from
  {
    if from + |literal| > |image| then []
    else if OccursAt(image, literal, from) then [from] + Positions(image, literal, from + |literal|)
    else Positions(image, literal, from + 1)
  }

  /** The suffix of the image from `from` on, replaced. */
  function Replaced(image: seq<Byte>, literal: seq<Byte>, replacement: seq<Byte>, from: nat): (r: seq<Byte>)
    requires |literal| > 0 && |replacement| == |literal| && from <= |image|
    ensures |r| == |image| - from
    decreases |image| - from
  {
    if from + |literal| > |image| then image[from..]
    else if OccursAt(image, literal, from) then replacement + Replaced(image, literal, replacement, from + |literal|)
    else [image[from]] + Replaced(image, literal, replacement, from + 1)
  }

  lemma ScanUnfolds(image: seq<Byte>, literal: seq<Byte>, replacement: seq<Byte>, from: nat)
    requires |literal| > 0 && |replacement| == |literal| && from <= |image|
    ensures from + |literal| > |image| ==>
              Positions(image, literal, from) == [] && Replaced(image, literal, replacement, from) == image[from..]
    ensures from + |literal| <= |image| && OccursAt(image, literal, from) ==>
              && Positions(image, literal, from) == [from] + Positions(image, literal, from + |literal|)
              && Replaced(image, literal, replacement, from) == replacement + Replaced(image, literal, replacement, from + |literal|)
    ensures from + |literal| <= |image| && !OccursAt(image, literal, from) ==>
              && Positions(image, literal, from) == Positions(image, literal, from + 1)
              && Replaced(image, literal, replacement, from) == [image[from]] + Replaced(image, literal, replacement, from + 1)
  {
    hide OccursAt;
  }

  /** Up to the next occurrence nothing is replaced. */
  lemma {:induction false} SkipsTo(image: seq<Byte>, literal: seq<Byte>, replacement: seq<Byte>, from: nat, to: nat)
    requires |literal| > 0 && |replacement| == |literal| && from <= to <= |image|
    requires forall i :: from <= i < to ==> !OccursAt(image, literal, i)
    ensures Replaced(image, literal, replacement, from) == image[from..to] + Replaced(image, literal, replacement, to)
    ensures Positions(image, literal, from) == Positions(image, literal, to)
    decreases |image| - from
  {
    hide OccursAt, Replaced, Positions;
    ScanUnfolds(image, literal, replacement, from);
    if from + |literal| > |image| {
      ScanUnfolds(image, literal, replacement, to);
      assert image[from..] == image[from..to] + image[to..];
    } else if from < to {
      SkipsTo(image, literal, replacement, from + 1, to);
      var tail := Replaced(image, literal, replacement, to);
      Associative([image[from]], image[from + 1..to], tail);
      assert image[from..to] == [image[from]] + image[from + 1..to];
    } else {
      assert image[from..to] == [];
    }
  }

  datatype Occurrence = Occurrence(address: int, matched: bool)

  function Occurrences(imageBase: int, positions: seq<nat>): (occurrences: seq<Occurrence>)
    ensures |occurrences| == |positions|
  {
    seq(|positions|, i requires 0 <= i < |positions| => Occurrence(imageBase + positions[i], true))
  }

  /** Overwriting part of a readable region changes that part of what is read from it. */
  lemma RegionWritten(m: Memory, base: int, n: nat, at: nat, bytes: seq<Byte>)
    requires Readable(m, base, n) && at + |bytes| <= n
    ensures Readable(m + Block(base + at, bytes), base, n)
    ensures ReadBytes(m + Block(base + at, bytes), base, n) == Splice(ReadBytes(m, base, n), at, bytes)
  {
    var m', spliced := m + Block(base + at, bytes), Splice(ReadBytes(m, base, n), at, bytes);
    forall x | Within(x, base, |spliced|)
      ensures Has(m', x) && m'[x] == spliced[x - base]
    {
      assert Has(m, x);
      assert ReadBytes(m, base, n)[x - base] == m[x];
      assert x in Block(base + at, bytes) <==> Within(x, base + at, |bytes|);
    }
    ReadsAs(m', base, spliced);
  }

  lemma PartReadable(m: Memory, base: int, n: nat, at: nat, k: nat)
    requires Readable(m, base, n) && at + k <= n
    ensures Readable(m, base + at, k) && ReadBytes(m, base + at, k) == ReadBytes(m, base, n)[at..at + k]
  {
    forall x | base + at <= x < base + at + k
      ensures Has(m, x)
    {
    }
  }

  /** Every byte outside the region is as it was, and nothing is mapped or unmapped. */
  ghost predicate FramedOutside(m: Memory, m': Memory, base: int, n: nat) {
    m'.Keys == m.Keys && forall x: U64 :: x in m && !Within(x, base, n) ==> m'[x] == m[x]
  }

  lemma FrameWrite(m: Memory, m': Memory, base: int, n: nat, at: nat, bytes: seq<Byte>)
    requires FramedOutside(m, m', base, n) && Readable(m', base, n) && at + |bytes| <= n
    ensures FramedOutside(m, m' + Block(base + at, bytes), base, n)
  {
    forall x: U64 | x in Block(base + at, bytes)
      ensures x in m' && Within(x, base, n)
    {
      assert Has(m', x);
    }
  }

  /** The image's bytes with everything before `cursor` replaced. */
  predicate ReplacedUpTo(image: seq<Byte>, bytes: seq<Byte>, literal: seq<Byte>, replacement: seq<Byte>, cursor: nat)
    requires |literal| > 0 && |replacement| == |literal|
  {
    && cursor <= |image| == |bytes|
    && bytes[cursor..] == image[cursor..]
    && bytes[..cursor] + Replaced(image, literal, replacement, cursor) == Replaced(image, literal, replacement, 0)
  }

  lemma ScanStarts(image: seq<Byte>, literal: seq<Byte>, replacement: seq<Byte>)
    requires |literal| > 0 && |replacement| == |literal|
    ensures ReplacedUpTo(image, image, literal, replacement, 0)
  {
    hide Replaced;
    assert image[..0] + Replaced(image, literal, replacement, 0) == Replaced(image, literal, replacement, 0);
  }

  lemma ScanEnds(image: seq<Byte>, bytes: seq<Byte>, literal: seq<Byte>, replacement: seq<Byte>, cursor: nat)
    requires |literal| > 0 && |replacement| == |literal| && ReplacedUpTo(image, bytes, literal, replacement, cursor)
    requires forall i :: cursor <= i ==> !OccursAt(image, literal, i)
    ensures bytes == Replaced(image, literal, replacement, 0) && Positions(image, literal, cursor) == []
  {
    hide OccursAt;
    SkipsTo(image, literal, replacement, cursor, |image|);
    assert bytes == bytes[..cursor] + bytes[cursor..];
    assert image[cursor..|image|] == image[cursor..];
  }

  lemma Pieces<T>(bytes: seq<T>, image: seq<T>, cursor: nat, at: nat, n: nat)
    requires cursor <= at && at + n <= |image| == |bytes| && bytes[cursor..] == image[cursor..]
    ensures bytes[cursor..at] == image[cursor..at] && bytes[at..at + n] == image[at..at + n] && bytes[at + n..] == image[at + n..]
  {
    assert forall i :: cursor <= i < |bytes| ==> bytes[i] == bytes[cursor..][i - cursor] == image[cursor..][i - cursor] == image[i];
  }

  lemma SpliceHead<T>(bytes: seq<T>, cursor: nat, at: nat, code: seq<T>)
    requires cursor <= at && at + |code| <= |bytes|
    ensures Splice(bytes, at, code)[..at + |code|] == bytes[..cursor] + (bytes[cursor..at] + code)
    ensures Splice(bytes, at, code)[at + |code|..] == bytes[at + |code|..]
  {
  }

  /** One round: the occurrence is still in place, and overwriting it moves the cursor behind it. */
  lemma ScanStep(image: seq<Byte>, bytes: seq<Byte>, literal: seq<Byte>, replacement: seq<Byte>, cursor: nat, at: nat)
    requires |literal| > 0 && |replacement| == |literal| && ReplacedUpTo(image, bytes, literal, replacement, cursor)
    requires cursor <= at && OccursAt(image, literal, at) && (forall i :: cursor <= i < at ==> !OccursAt(image, literal, i))
    ensures at + |literal| <= |bytes| && bytes[at..at + |literal|] == literal
    ensures Positions(image, literal, cursor) == [at] + Positions(image, literal, at + |literal|)
    ensures ReplacedUpTo(image, Splice(bytes, at, replacement), literal, replacement, at + |literal|)
  {
    assert at + |literal| <= |image| && image[at..at + |literal|] == literal;
    SkipsTo(image, literal, replacement, cursor, at);
    var rest := Replaced(image, literal, replacement, at + |literal|);
    assert Replaced(image, literal, replacement, at) == replacement + rest;
    hide Replaced, OccursAt, Positions;
    Pieces(bytes, image, cursor, at, |literal|);
    SpliceHead(bytes, cursor, at, replacement);
    Associative(image[cursor..at], replacement, rest);
    Associative(bytes[..cursor], image[cursor..at] + replacement, rest);
    hide Splice;
  }

  /** Why two empty literals are excluded: the scan stays where it is exactly on an empty literal. */
  lemma EmptyNeverEnds(image: seq<Byte>, literal: seq<Byte>, cursor: nat)
    requires cursor <= |image|
    ensures Find(image, literal, cursor) == Some(cursor) && cursor + |literal| == cursor <==> literal == []
  {
    assert literal == [] ==> image[cursor..cursor + |literal|] == literal;
  }

  /**
   Literals of different lengths are refused. Otherwise the scan terminates, the image ends up
   replaced leftmost-first, every reported occurrence was still there when it was reached, and
   no byte outside the image changes. Only two empty literals on a readable image are excluded:
   the scan would never end.
   */
  method ReplaceLiteral(process: Process, imageBase: int, imageSize: nat, literal: seq<Byte>, replacement: seq<Byte>)
    returns (r: Result<seq<Occurrence>>)
    requires literal != [] || replacement != [] || !Readable(process.memory, imageBase, imageSize)
    modifies process
    ensures r.Ok? <==> |literal| == |replacement| && Readable(old(process.memory), imageBase, imageSize)
    ensures r.Err? ==> process.memory == old(process.memory)
    ensures r.Ok? ==>
              var image := ReadBytes(old(process.memory), imageBase, imageSize);
              && |r.value| == |Positions(image, literal, 0)|
              && (forall k :: 0 <= k < |r.value| ==> r.value[k].matched && r.value[k].address == imageBase + Positions(image, literal, 0)[k])
              && Readable(process.memory, imageBase, imageSize)
              && ReadBytes(process.memory, imageBase, imageSize) == Replaced(image, literal, replacement, 0)
              && FramedOutside(old(process.memory), process.memory, imageBase, imageSize)
  {
    hide Readable, ReadBytes, Block, OccursAt, Replaced, Positions, ReplacedUpTo, FramedOutside, Splice, Find;
    if |literal| != |replacement| {
      return Err(LengthMismatch);
    }
    var image :- process.ReadMemory(imageBase, imageSize);
    var occurrences: seq<Occurrence> := [];
    var cursor := 0;
    ghost var positions: seq<nat> := [];
    ScanStarts(image, literal, replacement);
    FrameStarts(process.memory, imageBase, imageSize);
    assert [] + Positions(image, literal, 0) == Positions(image, literal, 0);
    var found := Find(image, literal, cursor);
    while found.Some?
      invariant cursor <= |image| == imageSize && found == Find(image, literal, cursor)
      invariant occurrences == Occurrences(imageBase, positions)
      invariant positions + Positions(image, literal, cursor) == Positions(image, literal, 0)
      invariant Readable(process.memory, imageBase, imageSize)
      invariant ReplacedUpTo(image, ReadBytes(process.memory, imageBase, imageSize), literal, replacement, cursor)
      invariant FramedOutside(old(process.memory), process.memory, imageBase, imageSize)
      decreases |image| - cursor
    {
      var at := found.value;
      ScanStep(image, ReadBytes(process.memory, imageBase, imageSize), literal, replacement, cursor, at);
      var address := imageBase + at;
      PartReadable(process.memory, imageBase, imageSize, at, |literal|);
      var current := process.ReadMemory(address, |literal|);
      var matched := current.value == literal;
      RegionWritten(process.memory, imageBase, imageSize, at, replacement);
      FrameWrite(old(process.memory), process.memory, imageBase, imageSize, at, replacement);
      Associative(positions, [at], Positions(image, literal, at + |literal|));
      if matched {
        var _ := process.WriteMemory(address, replacement);
      }
      occurrences := occurrences + [Occurrence(address, matched)];
      positions := positions + [at];
      cursor := at + |literal|;
      found := Find(image, literal, cursor);
    }
    ScanEnds(image, ReadBytes(process.memory, imageBase, imageSize), literal, replacement, cursor);
    return Ok(occurrences);
  }

  lemma FrameStarts(m: Memory, base: int, n: nat)
    ensures FramedOutside(m, m, base, n)
  {
  }

  /* ---------- what leftmost, non-overlapping replacement is ---------- */

  /** Occurrences from `from` on, in order and without overlap. */
  predicate OrderedOccurrences(image: seq<Byte>, literal: seq<Byte>, from: nat, ps: seq<nat>) {
    && (forall k :: 0 <= k < |ps| ==> from <= ps[k] && OccursAt(image, literal, ps[k]))
    && (forall j, k :: 0 <= j < k < |ps| ==> ps[j] + |literal| <= ps[k])
  }

  /** Every replaced position holds the literal, and they are in order without overlap. */
  lemma {:induction false} PositionsOccur(image: seq<Byte>, literal: seq<Byte>, from: nat)
    requires |literal| > 0
    ensures OrderedOccurrences(image, literal, from, Positions(image, literal, from))
    decreases |image| - from
  {
    hide OccursAt;
    if from + |literal| <= |image| {
      PositionsOccur(image, literal, if OccursAt(image, literal, from) then from + |literal| else from + 1);
    }
  }

  /** Any other occurrence starts inside a replaced one: nothing further left was passed over. */
  lemma {:induction false} PositionsComplete(image: seq<Byte>, literal: seq<Byte>, from: nat, i: nat)
    requires |literal| > 0 && from <= i && OccursAt(image, literal, i)
    ensures exists k :: 0 <= k < |Positions(image, literal, from)| && Positions(image, literal, from)[k] <= i < Positions(image, literal, from)[k] + |literal|
    decreases |image| - from
  {
    var next := if OccursAt(image, literal, from) then from + |literal| else from + 1;
    var ps := Positions(image, literal, from);
    assert from + |literal| <= |image|;
    if OccursAt(image, literal, from) && i < from + |literal| {
      assert ps[0] == from;
    } else {
      PositionsComplete(image, literal, next, i);
      var rest := Positions(image, literal, next);
      var k :| 0 <= k < |rest| && rest[k] <= i < rest[k] + |literal|;
      assert ps[if OccursAt(image, literal, from) then k + 1 else k] == rest[k];
    }
  }

  /** `b` is byte `x` of the image, taken from the replacement inside a replaced position. */
  predicate ByteReplaced(image: seq<Byte>, replacement: seq<Byte>, ps: seq<nat>, x: nat, b: Byte)
    requires x < |image|
  {
    && (forall k :: 0 <= k < |ps| && ps[k] <= x < ps[k] + |replacement| ==> b == replacement[x - ps[k]])
    && ((forall k :: 0 <= k < |ps| ==> !(ps[k] <= x < ps[k] + |replacement|)) ==> b == image[x])
  }

  lemma NoPositionCovers(image: seq<Byte>, replacement: seq<Byte>, ps: seq<nat>, x: nat)
    requires x < |image| && forall k :: 0 <= k < |ps| ==> x < ps[k]
    ensures ByteReplaced(image, replacement, ps, x, image[x])
  {
  }

  lemma OneMorePosition(image: seq<Byte>, replacement: seq<Byte>, from: nat, ps: seq<nat>, x: nat, b: Byte)
    requires x < |image|
    requires if x < from + |replacement| then from <= x && b == replacement[x - from] && forall k :: 0 <= k < |ps| ==> x < ps[k]
             else ByteReplaced(image, replacement, ps, x, b)
    ensures ByteReplaced(image, replacement, [from] + ps, x, b)
  {
    var all := [from] + ps;
    assert all[0] == from;
    forall k | 0 <= k < |all| && all[k] <= x < all[k] + |replacement|
      ensures b == replacement[x - all[k]]
    {
      assert k > 0 ==> all[k] == ps[k - 1];
    }
    if forall k :: 0 <= k < |all| ==> !(all[k] <= x < all[k] + |replacement|) {
      assert forall k :: 0 <= k < |ps| ==> ps[k] == all[k + 1];
    }
  }

  /** Every byte of the result comes from the replacement inside a replaced position and from the image elsewhere. */
  lemma {:induction false} ReplacedByte(image: seq<Byte>, literal: seq<Byte>, replacement: seq<Byte>, from: nat, x: nat)
    requires |literal| > 0 && |replacement| == |literal| && from <= x < |image|
    ensures ByteReplaced(image, replacement, Positions(image, literal, from), x, Replaced(image, literal, replacement, from)[x - from])
    decreases |image| - from
  {
    hide OccursAt, ByteReplaced, Replaced, Positions;
    ScanUnfolds(image, literal, replacement, from);
    if from + |literal| > |image| {
      NoPositionCovers(image, replacement, Positions(image, literal, from), x);
    } else if OccursAt(image, literal, from) {
      var b := Replaced(image, literal, replacement, from)[x - from];
      if x >= from + |literal| {
        ReplacedByte(image, literal, replacement, from + |literal|, x);
      } else {
        PositionsOccur(image, literal, from + |literal|);
      }
      OneMorePosition(image, replacement, from, Positions(image, literal, from + |literal|), x, b);
    } else if x > from {
      ReplacedByte(image, literal, replacement, from + 1, x);
    } else {
      PositionsOccur(image, literal, from + 1);
      NoPositionCovers(image, replacement, Positions(image, literal, from), x);
    }
  }
}
