/**
 The exhaustive scan for references to a structure offset: every place where the offset's four
 bytes occur, and every instruction decoding that starts at most ten bytes before such a place,
 covers it and carries the offset as an operand. The disassembler is left open.
 */
module FieldScan {
  import opened Wrappers
  import opened Words
  import opened ByteSearch

  datatype Section = Section(virtualAddress: int, data: seq<Byte>)

  /** What the disassembler says about the bytes at an index of a section. */
  datatype Decoding = Decoding(size: nat, displacements: seq<int>, immediates: seq<int>)

  type Disassembler = (Section, nat) -> Option<Decoding>

  datatype Match = Match(address: int, section: nat, start: nat, decoding: Decoding)

  datatype Query = Query(decode: Disassembler, offset: int, includeImmediates: bool)

  predicate Carries(q: Query, d: Decoding) {
    q.offset in d.displacements || (q.includeImmediates && q.offset in d.immediates)
  }

  const REACH: nat := 10

  /** A decoding starting at `start` covers the occurrence at `hit` and carries the offset. */
  predicate Eligible(q: Query, s: Section, hit: nat, start: nat) {
    && hit - REACH <= start <= hit
    && var d := q.decode(s, start);
       d.Some? && hit < start + d.value.size && Carries(q, d.value)
  }

  /** Longer instructions are preferred, and among equally long ones the earlier. */
  predicate Prefers(size: nat, start: nat, size': nat, start': nat) {
    size > size' || (size == size' && start <= start')
  }

  /** The decoding the scan settles on for an occurrence. */
  ghost predicate IsBest(q: Query, s: Section, hit: nat, start: nat) {
    && Eligible(q, s, hit, start)
    && forall other :: Eligible(q, s, hit, other) ==>
         Prefers(q.decode(s, start).value.size, start, q.decode(s, other).value.size, other)
  }

  function AddressOf(s: Section, index: nat): int {
    s.virtualAddress + index
  }

  function MatchAt(q: Query, sections: seq<Section>, i: nat, start: nat): Match
    requires i < |sections| && q.decode(sections[i], start).Some?
  {
    Match(AddressOf(sections[i], start), i, start, q.decode(sections[i], start).value)
  }

  /** `max` by size, then by earlier start. */
  function Largest(ms: seq<Match>): (m: Match)
    requires ms != []
    ensures m in ms && forall n :: n in ms ==> Prefers(m.decoding.size, m.start, n.decoding.size, n.start)
  {
    if |ms| == 1 then ms[0]
    else
      var rest := Largest(ms[1..]);
      if Prefers(ms[0].decoding.size, ms[0].start, rest.decoding.size, rest.start) then ms[0] else rest
  }

  /** The candidate an occurrence contributes, if any decoding is eligible. */
  ghost predicate Contributes(q: Query, sections: seq<Section>, i: nat, hit: nat, m: Match) {
    && i < |sections| && m.section == i
    && IsBest(q, sections[i], hit, m.start)
    && m == MatchAt(q, sections, i, m.start)
  }

  ghost predicate HasEligible(q: Query, s: Section, hit: nat) {
    exists start :: Eligible(q, s, hit, start)
  }

  /** The eligible decodings of one occurrence, in order of their start. */
  method Candidates(q: Query, sections: seq<Section>, i: nat, hit: nat) returns (best: Option<Match>)
    requires i < |sections|
    ensures best.Some? <==> HasEligible(q, sections[i], hit)
    ensures best.Some? ==> Contributes(q, sections, i, hit, best.value)
  {
    var section := sections[i];
    var candidates: seq<Match> := [];
    var floor: nat := if hit < REACH then 0 else hit - REACH;
    for start := floor to hit + 1
      invariant forall m :: m in candidates ==>
                  Eligible(q, section, hit, m.start) && m == MatchAt(q, sections, i, m.start)
      invariant forall other :: floor <= other < start && Eligible(q, section, hit, other) ==> MatchAt(q, sections, i, other) in candidates
    {
      var decoding := q.decode(section, start);
      if decoding.None? {
        continue;
      }
      if !(start <= hit < start + decoding.value.size) {
        continue;
      }
      if !Carries(q, decoding.value) {
        continue;
      }
      candidates := candidates + [Match(AddressOf(section, start), i, start, decoding.value)];
    }
    if candidates == [] {
      return None;
    }
    best := Some(Largest(candidates));
    assert Eligible(q, section, hit, best.value.start);
  }

  /** Some occurrence settles on the match. */
  ghost predicate SettledOn(q: Query, sections: seq<Section>, needle: seq<Byte>, m: Match) {
    && m.section < |sections|
    && exists hit: nat :: OccursAt(sections[m.section].data, needle, hit) && Contributes(q, sections, m.section, hit, m)
  }

  /** Every recorded match is what some occurrence contributes, keyed by its address. */
  ghost predicate OnlyContributions(q: Query, sections: seq<Section>, needle: seq<Byte>, found: map<int, Match>) {
    forall a :: a in found ==> found[a].address == a && SettledOn(q, sections, needle, found[a])
  }

  /** Every occurrence before `cursor` in section `i` that has an eligible decoding has its contribution recorded. */
  ghost predicate Recorded(q: Query, sections: seq<Section>, needle: seq<Byte>, found: map<int, Match>, i: nat, cursor: nat)
    requires i < |sections|
  {
    forall hit :: 0 <= hit < cursor && OccursAt(sections[i].data, needle, hit) && HasEligible(q, sections[i], hit) ==>
      exists a :: a in found && Contributes(q, sections, i, hit, found[a])
  }

  /** No address belongs to two sections. */
  ghost predicate DisjointSections(sections: seq<Section>) {
    forall i, j, x: nat, y: nat :: 0 <= i < |sections| && 0 <= j < |sections| && i != j && x < |sections[i].data| && y < |sections[j].data|
      ==> AddressOf(sections[i], x) != AddressOf(sections[j], y)
  }

  /** With disjoint sections an address identifies a contribution, so recording one loses none. */
  lemma RecordingKeeps(q: Query, sections: seq<Section>, needle: seq<Byte>, found: map<int, Match>, m: Match, hit: nat, i: nat, cursor: nat)
    requires DisjointSections(sections) && OnlyContributions(q, sections, needle, found)
    requires m.section < |sections| && OccursAt(sections[m.section].data, needle, hit) && Contributes(q, sections, m.section, hit, m)
    requires i < |sections| && Recorded(q, sections, needle, found, i, cursor) && needle != []
    ensures Recorded(q, sections, needle, found[m.address := m], i, cursor)
  {
    hide IsBest, OccursAt;
    var found' := found[m.address := m];
    forall h | 0 <= h < cursor && OccursAt(sections[i].data, needle, h) && HasEligible(q, sections[i], h)
      ensures exists a :: a in found' && Contributes(q, sections, i, h, found'[a])
    {
      var a :| a in found && Contributes(q, sections, i, h, found[a]);
      if a == m.address {
        SameContribution(q, sections, needle, found[a], h, m, hit);
      }
      assert a in found' && Contributes(q, sections, i, h, found'[a]);
    }
  }

  lemma SameContribution(q: Query, sections: seq<Section>, needle: seq<Byte>, m: Match, h: nat, n: Match, k: nat)
    requires DisjointSections(sections) && m.address == n.address && needle != []
    requires Contributes(q, sections, m.section, h, m) && OccursAt(sections[m.section].data, needle, h)
    requires Contributes(q, sections, n.section, k, n) && OccursAt(sections[n.section].data, needle, k)
    ensures m == n
  {
    assert m.start < |sections[m.section].data| && n.start < |sections[n.section].data|;
    assert AddressOf(sections[m.section], m.start) == AddressOf(sections[n.section], n.start);
  }

  /* ---------- the dictionary of matches ---------- */

  /** A dictionary: its entries, and its keys in the order they were first added. */
  datatype Dictionary = Dictionary(entries: map<int, Match>, order: seq<int>)

  ghost predicate Valid(d: Dictionary) {
    && (forall a :: a in d.order <==> a in d.entries)
    && (forall i, j :: 0 <= i < j < |d.order| ==> d.order[i] != d.order[j])
  }

  function Put(d: Dictionary, m: Match): (r: Dictionary)
    ensures Valid(d) ==> Valid(r)
    ensures r.entries == d.entries[m.address := m]
  {
    Dictionary(d.entries[m.address := m], if m.address in d.entries then d.order else d.order + [m.address])
  }

  predicate NonDecreasing(s: seq<int>) {
    forall i, j :: 0 <= i < j < |s| ==> s[i] <= s[j]
  }

  function Insert(s: seq<int>, x: int): (r: seq<int>)
    requires NonDecreasing(s)
    ensures NonDecreasing(r) && multiset(r) == multiset(s) + multiset{x}
  {
    if s == [] || x <= s[0] then [x] + s
    else
      var rest := Insert(s[1..], x);
      SmallestFirst(s, x, rest);
      [s[0]] + rest
  }

  lemma SmallestFirst(s: seq<int>, x: int, rest: seq<int>)
    requires s != [] && s[0] < x && NonDecreasing(s) && NonDecreasing(rest) && multiset(rest) == multiset(s[1..]) + multiset{x}
    ensures NonDecreasing([s[0]] + rest) && multiset([s[0]] + rest) == multiset(s) + multiset{x}
  {
    assert s == [s[0]] + s[1..];
    forall k | 0 <= k < |rest|
      ensures s[0] <= rest[k]
    {
      assert rest[k] in multiset(rest);
      assert rest[k] in multiset(s[1..]) || rest[k] == x;
    }
  }

  /** `sorted` of a list of integers. */
  function Sorted(s: seq<int>): (r: seq<int>)
    ensures NonDecreasing(r) && multiset(r) == multiset(s)
  {
    if s == [] then []
    else
      assert s == [s[0]] + s[1..];
      Insert(Sorted(s[1..]), s[0])
  }

  predicate StrictlyIncreasing(s: seq<int>) {
    forall i, j :: 0 <= i < j < |s| ==> s[i] < s[j]
  }

  lemma {:induction false} CountedOnce(s: seq<int>, x: int)
    requires forall i, j :: 0 <= i < j < |s| ==> s[i] != s[j]
    ensures multiset(s)[x] <= 1
    decreases |s|
  {
    if s != [] {
      var rest := s[1..];
      assert s == [s[0]] + rest;
      assert forall k :: 0 <= k < |rest| ==> rest[k] == s[k + 1];
      CountedOnce(rest, x);
      if x == s[0] {
        assert x !in multiset(rest);
      }
    }
  }

  /** The keys of a dictionary come out of sorting all there, once each, strictly increasing. */
  lemma SortedKeys(d: Dictionary)
    requires Valid(d)
    ensures StrictlyIncreasing(Sorted(d.order)) && (forall a :: a in Sorted(d.order) <==> a in d.entries)
  {
    var r := Sorted(d.order);
    forall i, j | 0 <= i < j < |r|
      ensures r[i] < r[j]
    {
      CountedOnce(d.order, r[i]);
      if r[i] == r[j] {
        CountedTwice(r, i, j);
      }
    }
    forall a
      ensures a in r <==> a in d.order
    {
      assert a in r <==> a in multiset(r);
      assert a in d.order <==> a in multiset(d.order);
    }
  }

  /** The four little-endian bytes of the offset, when it fits. */
  function Needle(offset: int): Result<seq<Byte>> {
    if 0 <= offset < 0x1_0000_0000 then Ok(LittleEndian(offset, 4)) else Err(AddressOverflow)
  }

  /** The four bytes at `hit` are the offset, least significant first. */
  predicate HoldsOffset(data: seq<Byte>, offset: int, hit: nat) {
    hit + 4 <= |data| && FromLittleEndian(data[hit..hit + 4]) == offset
  }

  /** Searching for the needle finds just these places. */
  lemma OccursWhereHeld(data: seq<Byte>, offset: int, hit: nat)
    requires Needle(offset).Ok?
    ensures |Needle(offset).value| == 4
    ensures OccursAt(data, Needle(offset).value, hit) <==> HoldsOffset(data, offset, hit)
  {
    Pow256Values();
    LittleEndianRoundTrip(offset, 4);
    if hit + 4 <= |data| && FromLittleEndian(data[hit..hit + 4]) == offset {
      FromLittleEndianInverts(data[hit..hit + 4]);
    }
  }

  ghost predicate Sound(q: Query, sections: seq<Section>, matches: seq<Match>) {
    forall k :: 0 <= k < |matches| ==>
      && matches[k].section < |sections|
      && exists hit :: HoldsOffset(sections[matches[k].section].data, q.offset, hit)
                       && Contributes(q, sections, matches[k].section, hit, matches[k])
  }

  ghost predicate Complete(q: Query, sections: seq<Section>, matches: seq<Match>) {
    forall i, hit :: 0 <= i < |sections| && HoldsOffset(sections[i].data, q.offset, hit) && HasEligible(q, sections[i], hit) ==>
      exists k :: 0 <= k < |matches| && Contributes(q, sections, i, hit, matches[k])
  }

  predicate InAddressOrder(matches: seq<Match>) {
    forall j, k :: 0 <= j < k < |matches| ==> matches[j].address < matches[k].address
  }

  lemma Inside(data: seq<Byte>, needle: seq<Byte>, hit: nat)
    requires needle != [] && OccursAt(data, needle, hit)
    ensures hit < |data|
  {
  }

  lemma RecordsBest(q: Query, sections: seq<Section>, needle: seq<Byte>, earlier: map<int, Match>, i: nat, hit: nat, best: Match, searchFrom: nat)
    requires i < |sections| && needle != [] && OnlyContributions(q, sections, needle, earlier)
    requires OccursAt(sections[i].data, needle, hit) && Contributes(q, sections, i, hit, best)
    requires DisjointSections(sections) ==> Recorded(q, sections, needle, earlier, i, searchFrom)
    requires forall h :: searchFrom <= h < hit ==> !OccursAt(sections[i].data, needle, h)
    ensures var found := earlier[best.address := best];
            && OnlyContributions(q, sections, needle, found)
            && (DisjointSections(sections) ==>
                  && Recorded(q, sections, needle, found, i, hit + 1)
                  && forall j :: 0 <= j < |sections| && Recorded(q, sections, needle, earlier, j, |sections[j].data|) ==>
                       Recorded(q, sections, needle, found, j, |sections[j].data|))
  {
    hide OccursAt, HasEligible, DisjointSections, IsBest;
    var found := earlier[best.address := best];
    assert best.address in found && found[best.address] == best;
    if DisjointSections(sections) {
      RecordingKeeps(q, sections, needle, earlier, best, hit, i, searchFrom);
      forall j | 0 <= j < |sections| && Recorded(q, sections, needle, earlier, j, |sections[j].data|)
        ensures Recorded(q, sections, needle, found, j, |sections[j].data|)
      {
        RecordingKeeps(q, sections, needle, earlier, best, hit, j, |sections[j].data|);
      }
    }
  }

  /** All occurrences of the needle in one section, overlapping ones included. */
  method ScanSection(q: Query, sections: seq<Section>, i: nat, needle: seq<Byte>, before: Dictionary) returns (found: Dictionary)
    requires i < |sections| && needle != [] && Valid(before) && OnlyContributions(q, sections, needle, before.entries)
    ensures Valid(found) && OnlyContributions(q, sections, needle, found.entries)
    ensures DisjointSections(sections) ==>
              && Recorded(q, sections, needle, found.entries, i, |sections[i].data|)
              && forall j :: 0 <= j < |sections| && Recorded(q, sections, needle, before.entries, j, |sections[j].data|) ==>
                   Recorded(q, sections, needle, found.entries, j, |sections[j].data|)
  {
    hide OccursAt, Contributes, HasEligible, DisjointSections, Find, Valid, Put;
    found := before;
    var searchFrom := 0;
    var hit := Find(sections[i].data, needle, searchFrom);
    while hit.Some?
      invariant searchFrom <= |sections[i].data| + 1 && hit == Find(sections[i].data, needle, searchFrom)
      invariant Valid(found) && OnlyContributions(q, sections, needle, found.entries)
      invariant DisjointSections(sections) ==> Recorded(q, sections, needle, found.entries, i, searchFrom)
      invariant DisjointSections(sections) ==>
                  forall j :: 0 <= j < |sections| && Recorded(q, sections, needle, before.entries, j, |sections[j].data|) ==>
                    Recorded(q, sections, needle, found.entries, j, |sections[j].data|)
      decreases |sections[i].data| + 1 - searchFrom
    {
      Inside(sections[i].data, needle, hit.value);
      var best := Candidates(q, sections, i, hit.value);
      if best.Some? {
        RecordsBest(q, sections, needle, found.entries, i, hit.value, best.value, searchFrom);
        found := Put(found, best.value);
      }
      searchFrom := hit.value + 1;
      hit := Find(sections[i].data, needle, searchFrom);
    }
  }

  lemma NothingFound(q: Query, sections: seq<Section>, needle: seq<Byte>)
    ensures OnlyContributions(q, sections, needle, map[])
  {
  }

  lemma AllSound(q: Query, sections: seq<Section>, needle: seq<Byte>, found: map<int, Match>, addresses: seq<int>, matches: seq<Match>)
    requires Needle(q.offset) == Ok(needle) && |matches| == |addresses| && OnlyContributions(q, sections, needle, found) && StrictlyIncreasing(addresses)
    requires forall j :: 0 <= j < |addresses| ==> addresses[j] in found && matches[j] == found[addresses[j]]
    ensures Sound(q, sections, matches) && InAddressOrder(matches)
  {
    hide Contributes, OccursAt, HoldsOffset;
    forall k | 0 <= k < |matches|
      ensures matches[k].address == addresses[k] && matches[k].section < |sections|
      ensures exists hit: nat :: HoldsOffset(sections[matches[k].section].data, q.offset, hit)
                                 && Contributes(q, sections, matches[k].section, hit, matches[k])
    {
      assert addresses[k] in found;
      var m := matches[k];
      assert SettledOn(q, sections, needle, m);
      var hit: nat :| OccursAt(sections[m.section].data, needle, hit) && Contributes(q, sections, m.section, hit, m);
      OccursWhereHeld(sections[m.section].data, q.offset, hit);
    }
  }

  lemma AllReported(q: Query, sections: seq<Section>, needle: seq<Byte>, found: map<int, Match>, addresses: seq<int>, matches: seq<Match>)
    requires Needle(q.offset) == Ok(needle) && |matches| == |addresses| && (forall a :: a in addresses <==> a in found)
    requires forall j :: 0 <= j < |addresses| ==> addresses[j] in found && matches[j] == found[addresses[j]]
    requires forall j :: 0 <= j < |sections| ==> Recorded(q, sections, needle, found, j, |sections[j].data|)
    ensures Complete(q, sections, matches)
  {
    hide Contributes, HasEligible, OccursAt, HoldsOffset;
    forall i, hit | 0 <= i < |sections| && HoldsOffset(sections[i].data, q.offset, hit) && HasEligible(q, sections[i], hit)
      ensures exists k :: 0 <= k < |matches| && Contributes(q, sections, i, hit, matches[k])
    {
      OccursWhereHeld(sections[i].data, q.offset, hit);
      Inside(sections[i].data, needle, hit);
      assert Recorded(q, sections, needle, found, i, |sections[i].data|);
      var a :| a in found && Contributes(q, sections, i, hit, found[a]);
      assert a in addresses;
      var k :| 0 <= k < |addresses| && addresses[k] == a;
      assert Contributes(q, sections, i, hit, matches[k]);
    }
  }

  /**
   The scan. Reported instructions are exactly those that some occurrence settles on, in strictly
   increasing order of address; with disjoint sections no occurrence is missed.
   */
  method ScanFieldRefs(q: Query, sections: seq<Section>) returns (r: Result<seq<Match>>)
    ensures r.Ok? <==> 0 <= q.offset < 0x1_0000_0000
    ensures r.Err? ==> r.error == AddressOverflow
    ensures r.Ok? ==>
              && Sound(q, sections, r.value)
              && InAddressOrder(r.value)
              && (DisjointSections(sections) ==> Complete(q, sections, r.value))
  {
    hide OccursAt, Contributes, HasEligible, DisjointSections, Recorded, Sorted, OnlyContributions, Sound, Complete, InAddressOrder;
    var needle :- Needle(q.offset);
    var found := Dictionary(map[], []);
    NothingFound(q, sections, needle);
    for i := 0 to |sections|
      invariant Valid(found) && OnlyContributions(q, sections, needle, found.entries)
      invariant DisjointSections(sections) ==> forall j :: 0 <= j < i ==> Recorded(q, sections, needle, found.entries, j, |sections[j].data|)
    {
      found := ScanSection(q, sections, i, needle, found);
    }
    var matches: seq<Match> := [];
    var addresses := Sorted(found.order);
    SortedKeys(found);
    for k := 0 to |addresses|
      invariant |matches| == k
      invariant forall j :: 0 <= j < k ==> addresses[j] in found.entries && matches[j] == found.entries[addresses[j]]
    {
      assert addresses[k] in addresses;
      matches := matches + [found.entries[addresses[k]]];
    }
    AllSound(q, sections, needle, found.entries, addresses, matches);
    if DisjointSections(sections) {
      AllReported(q, sections, needle, found.entries, addresses, matches);
    }
    return Ok(matches);
  }

  /** The decoding at `start` covers the occurrence at `hit`, no more than ten bytes on, and carries the offset as an operand. */
  predicate Covering(q: Query, section: Section, hit: nat, start: nat, d: Decoding) {
    && hit - 10 <= start <= hit < start + d.size && q.decode(section, start) == Some(d)
    && (q.offset in d.displacements || (q.includeImmediates && q.offset in d.immediates))
  }

  /**
   Soundness spelled out: every reported instruction is one that covers the four bytes of the
   offset and carries it, at its own address, and no other such instruction is longer or as long
   and earlier.
   */
  lemma ReportedCarries(q: Query, sections: seq<Section>, matches: seq<Match>, k: nat)
    requires Sound(q, sections, matches) && k < |matches|
    ensures matches[k].section < |sections|
    ensures var m, section := matches[k], sections[matches[k].section];
            && m.address == section.virtualAddress + m.start
            && exists hit: nat ::
                 && HoldsOffset(section.data, q.offset, hit) && Covering(q, section, hit, m.start, m.decoding)
                 && forall other, d :: Covering(q, section, hit, other, d) ==>
                      d.size < m.decoding.size || (d.size == m.decoding.size && m.start <= other)
  {
    hide HoldsOffset;
    var m, section := matches[k], sections[matches[k].section];
    var hit: nat :| HoldsOffset(section.data, q.offset, hit) && Contributes(q, sections, m.section, hit, m);
    assert Covering(q, section, hit, m.start, m.decoding);
    forall other, d | Covering(q, section, hit, other, d)
      ensures d.size < m.decoding.size || (d.size == m.decoding.size && m.start <= other)
    {
      assert Eligible(q, section, hit, other);
    }
  }

  /** Completeness spelled out: whatever covers an occurrence and carries the offset, a reported instruction does too, and is no worse. */
  lemma OccurrenceCovered(q: Query, sections: seq<Section>, matches: seq<Match>, i: nat, hit: nat, start: nat, d: Decoding)
    requires Complete(q, sections, matches) && i < |sections|
    requires HoldsOffset(sections[i].data, q.offset, hit) && Covering(q, sections[i], hit, start, d)
    ensures exists k :: 0 <= k < |matches| && matches[k].section == i
                        && Covering(q, sections[i], hit, matches[k].start, matches[k].decoding)
                        && (d.size < matches[k].decoding.size || (d.size == matches[k].decoding.size && matches[k].start <= start))
  {
    hide HoldsOffset;
    assert Eligible(q, sections[i], hit, start);
    assert HasEligible(q, sections[i], hit);
    var k :| 0 <= k < |matches| && Contributes(q, sections, i, hit, matches[k]);
    assert Covering(q, sections[i], hit, matches[k].start, matches[k].decoding);
  }
}
