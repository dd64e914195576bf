/**
 Recovering a packet registrar from a dump of calls: the opcodes from 0 up that were seen with a
 known size, provided their packet addresses are evenly spaced and no two calls disagree.
 */
module Registrar {
  import opened Wrappers

  /** A line of the dump: not a call, or a call whose opcode and size may be unknown (`?`). Texts are lower-cased. */
  datatype Line = Other | CallRef(callSite: string, packet: string, opcode: Option<int>, size: Option<int>)

  datatype Sample = Sample(opcode: int, size: int, packet: string, callSite: string)

  datatype Candidate = Candidate(contiguous: nat, stride: int, callRefs: nat, samples: seq<Sample>)

  predicate Known(l: Line) {
    l.CallRef? && l.opcode.Some? && l.size.Some?
  }

  function SampleOf(l: Line): Sample
    requires Known(l)
  {
    Sample(l.opcode.value, l.size.value, l.packet, l.callSite)
  }

  predicate SameTarget(a: Sample, b: Sample) {
    a.packet == b.packet && a.size == b.size
  }

  type Recovered = map<int, Sample>

  /** The samples after `n` lines; none once two calls disagree about an opcode. */
  function Collected(lines: seq<Line>, n: nat): Option<Recovered>
    requires n <= |lines|
  {
    if n == 0 then Some(map[])
    else
      var prior, l := Collected(lines, n - 1), lines[n - 1];
      if prior.None? || !Known(l) then prior
      else
        var sample := SampleOf(l);
        if sample.opcode in prior.value && !SameTarget(prior.value[sample.opcode], sample) then None
        else Some(prior.value[sample.opcode := sample])
  }

  function CallRefs(lines: seq<Line>): nat {
    if lines == [] then 0 else CallRefs(lines[..|lines| - 1]) + (if lines[|lines| - 1].CallRef? then 1 else 0)
  }

  /** 0, …, k - 1. */
  function FirstNats(k: nat): (s: set<int>)
    ensures |s| == k && forall i :: i in s <==> 0 <= i < k
  {
    if k == 0 then {} else FirstNats(k - 1) + {k - 1}
  }

  lemma PrefixFits(r: Recovered, k: nat)
    requires forall i :: 0 <= i < k ==> i in r
    ensures k <= |r.Keys|
  {
    var s := FirstNats(k);
    assert s * r.Keys == s;
    assert |r.Keys - s| == |r.Keys| - |r.Keys * s|;
    assert r.Keys * s == s * r.Keys;
  }

  /** The length of the unbroken run of opcodes from 0. */
  function Contiguous(r: Recovered, k: nat): (n: nat)
    requires forall i :: 0 <= i < k ==> i in r
    ensures n >= k && (forall i :: 0 <= i < n ==> i in r) && n !in r
    decreases |r.Keys| - k
  {
    PrefixFits(r, k);
    if k !in r then k
    else
      PrefixFits(r, k + 1);
      Contiguous(r, k + 1)
  }

  function SamplesOf(r: Recovered, n: nat): (samples: seq<Sample>)
    requires forall i :: 0 <= i < n ==> i in r
    ensures |samples| == n
  {
    seq(n, i requires 0 <= i < n => r[i])
  }

  /** `int(packet, 16)`. */
  type Addressing = string -> int

  function StrideOf(address: Addressing, samples: seq<Sample>): int {
    if |samples| >= 2 then address(samples[1].packet) - address(samples[0].packet) else 0
  }

  predicate EvenlySpaced(address: Addressing, samples: seq<Sample>) {
    forall i :: 2 <= i < |samples| ==>
      address(samples[i].packet) - address(samples[i - 1].packet) == StrideOf(address, samples)
  }

  function Synthesized(address: Addressing, lines: seq<Line>): Option<Candidate> {
    var recovered := Collected(lines, |lines|);
    if recovered.None? then None
    else
      var n := Contiguous(recovered.value, 0);
      var samples := SamplesOf(recovered.value, n);
      if n == 0 || !EvenlySpaced(address, samples) then None
      else Some(Candidate(n, StrideOf(address, samples), CallRefs(lines), samples))
  }

  method SynthesizeCandidate(address: Addressing, lines: seq<Line>) returns (r: Option<Candidate>)
    ensures r == Synthesized(address, lines)
  {
    var recovered: Recovered := map[];
    var callRefs := 0;
    for i := 0 to |lines|
      invariant Collected(lines, i) == Some(recovered)
      invariant callRefs == CallRefs(lines[..i])
    {
      assert lines[..i + 1][..i] == lines[..i];
      var l := lines[i];
      if !l.CallRef? {
        continue;
      }
      callRefs := callRefs + 1;
      if l.opcode.None? || l.size.None? {
        continue;
      }
      var sample := SampleOf(l);
      if sample.opcode in recovered && !SameTarget(recovered[sample.opcode], sample) {
        ConflictStays(lines, i + 1, |lines|);
        return None;
      }
      recovered := recovered[sample.opcode := sample];
    }
    assert lines[..|lines|] == lines;
    var contiguous := 0;
    PrefixFits(recovered, 0);
    while contiguous in recovered
      invariant forall i :: 0 <= i < contiguous ==> i in recovered
      invariant Contiguous(recovered, contiguous) == Contiguous(recovered, 0)
      decreases |recovered.Keys| - contiguous
    {
      PrefixFits(recovered, contiguous + 1);
      contiguous := contiguous + 1;
    }
    if contiguous == 0 {
      return None;
    }
    var samples := SamplesOf(recovered, contiguous);
    var stride := 0;
    if |samples| >= 2 {
      stride := address(samples[1].packet) - address(samples[0].packet);
      for index := 2 to |samples|
        invariant forall i :: 2 <= i < index ==> address(samples[i].packet) - address(samples[i - 1].packet) == stride
      {
        var nextStride := address(samples[index].packet) - address(samples[index - 1].packet);
        if nextStride != stride {
          return None;
        }
      }
    }
    return Some(Candidate(contiguous, stride, callRefs, samples));
  }

  lemma {:induction false} ConflictStays(lines: seq<Line>, m: nat, n: nat)
    requires m <= n <= |lines| && Collected(lines, m).None?
    ensures Collected(lines, n).None?
    decreases n
  {
    if m < n {
      ConflictStays(lines, m, n - 1);
    }
  }

  /* ---------- what is recovered, by membership ---------- */

  /** No two calls with known opcode and size disagree about an opcode. */
  ghost predicate Consistent(lines: seq<Line>) {
    forall a, b :: a in lines && b in lines && Known(a) && Known(b) && a.opcode == b.opcode ==> a.packet == b.packet && a.size == b.size
  }

  /** The recovered samples are those of the lines seen, whichever of equal ones. */
  ghost predicate Reflects(r: Recovered, lines: seq<Line>) {
    && (forall op :: op in r ==> exists l :: l in lines && Known(l) && SampleOf(l) == r[op] && r[op].opcode == op)
    && (forall l :: l in lines && Known(l) ==> l.opcode.value in r && SameTarget(r[l.opcode.value], SampleOf(l)))
  }

  lemma {:induction false} CollectedReflects(lines: seq<Line>, n: nat)
    requires n <= |lines|
    ensures Collected(lines, n).Some? <==> Consistent(lines[..n])
    ensures Collected(lines, n).Some? ==> Reflects(Collected(lines, n).value, lines[..n])
    decreases n
  {
    if n > 0 {
      CollectedReflects(lines, n - 1);
      assert lines[..n] == lines[..n - 1] + [lines[n - 1]];
      CollectStep(lines[..n - 1], lines[n - 1], Collected(lines, n - 1), Collected(lines, n));
    }
  }

  lemma CollectStep(lines: seq<Line>, l: Line, prior: Option<Recovered>, next: Option<Recovered>)
    requires prior.Some? <==> Consistent(lines)
    requires prior.Some? ==> Reflects(prior.value, lines)
    requires next == if prior.None? || !Known(l) then prior
                     else if SampleOf(l).opcode in prior.value && !SameTarget(prior.value[SampleOf(l).opcode], SampleOf(l)) then None
                     else Some(prior.value[SampleOf(l).opcode := SampleOf(l)])
    ensures next.Some? <==> Consistent(lines + [l])
    ensures next.Some? ==> Reflects(next.value, lines + [l])
  {
    var all := lines + [l];
    assert forall a :: a in all <==> a in lines || a == l;
    if prior.Some? && Known(l) && next.Some? {
      var r, op := next.value, l.opcode.value;
      assert l in all && SampleOf(l) == r[op];
      forall o | o in r
        ensures exists k :: k in all && Known(k) && SampleOf(k) == r[o] && r[o].opcode == o
      {
        if o != op {
          var k :| k in lines && Known(k) && SampleOf(k) == prior.value[o] && prior.value[o].opcode == o;
          assert k in all;
        }
      }
    }
  }

  lemma {:induction false} Progression(address: Addressing, samples: seq<Sample>, i: nat)
    requires EvenlySpaced(address, samples) && i < |samples|
    ensures address(samples[i].packet) == address(samples[0].packet) + i * StrideOf(address, samples)
    decreases i
  {
    if i > 0 {
      Progression(address, samples, i - 1);
      var stride := StrideOf(address, samples);
      assert address(samples[i].packet) - address(samples[i - 1].packet) == stride;
      hide StrideOf, EvenlySpaced;
      assert i * stride == (i - 1) * stride + stride;
    }
  }

  /** Some call has this opcode, with a known size. */
  ghost predicate HasOpcode(lines: seq<Line>, opcode: int) {
    exists l :: l in lines && Known(l) && l.opcode.value == opcode
  }

  lemma RecoveredOpcodes(r: Recovered, lines: seq<Line>, opcode: int)
    requires Reflects(r, lines)
    ensures opcode in r <==> HasOpcode(lines, opcode)
  {
  }

  predicate CallFor(l: Line, opcode: int) {
    l.CallRef? && l.opcode == Some(opcode) && l.size.Some?
  }

  predicate LastCallAt(sample: Sample, lines: seq<Line>, opcode: int, k: int) {
    && 0 <= k < |lines| && lines[k] == CallRef(sample.callSite, sample.packet, Some(opcode), Some(sample.size))
    && forall j :: k < j < |lines| ==> !CallFor(lines[j], opcode)
  }

  /** A recovered sample is its opcode's last call with a known size. */
  ghost predicate FromLastCall(sample: Sample, lines: seq<Line>, opcode: int) {
    sample.opcode == opcode && exists k :: LastCallAt(sample, lines, opcode, k)
  }

  lemma {:induction false} CollectedLast(lines: seq<Line>, n: nat, opcode: int)
    requires n <= |lines| && Collected(lines, n).Some? && opcode in Collected(lines, n).value
    ensures FromLastCall(Collected(lines, n).value[opcode], lines[..n], opcode)
    decreases n
  {
    if n > 0 {
      var l, prior := lines[n - 1], Collected(lines, n - 1);
      var sample := Collected(lines, n).value[opcode];
      if Known(l) && l.opcode == Some(opcode) {
        assert LastCallAt(sample, lines[..n], opcode, n - 1);
      } else {
        CollectedLast(lines, n - 1, opcode);
        var k :| LastCallAt(sample, lines[..n - 1], opcode, k);
        assert forall j :: 0 <= j < n - 1 ==> lines[..n][j] == lines[..n - 1][j];
        assert LastCallAt(sample, lines[..n], opcode, k);
      }
    }
  }

  /** Calls are counted whether or not their opcode and size are known. */
  lemma {:induction false} CallRefsCount(lines: seq<Line>)
    ensures CallRefs(lines) == |set k | 0 <= k < |lines| && lines[k].CallRef?|
    decreases |lines|
  {
    if lines != [] {
      var n := |lines| - 1;
      CallRefsCount(lines[..n]);
      var before, all := set k | 0 <= k < n && lines[..n][k].CallRef?, set k | 0 <= k < |lines| && lines[k].CallRef?;
      assert all == if lines[n].CallRef? then before + {n} else before;
    }
  }

  /**
   A returned candidate has for opcode `i`, as sample `i`, its last call with a known size, at
   `packet[0] + i * stride`; its run of opcodes from 0 cannot be extended; and it counts all calls.
   */
  lemma CandidateIsProgression(address: Addressing, lines: seq<Line>, i: nat)
    requires Synthesized(address, lines).Some? && i < Synthesized(address, lines).value.contiguous
    ensures var c := Synthesized(address, lines).value;
            && |c.samples| == c.contiguous
            && FromLastCall(c.samples[i], lines, i)
            && address(c.samples[i].packet) == address(c.samples[0].packet) + i * c.stride
            && (c.contiguous == 1 ==> c.stride == 0)
            && !HasOpcode(lines, c.contiguous)
            && c.callRefs == |set k | 0 <= k < |lines| && lines[k].CallRef?|
  {
    CollectedReflects(lines, |lines|);
    CallRefsCount(lines);
    assert lines[..|lines|] == lines;
    assert Synthesized(address, lines).value.contiguous == 1 ==> Synthesized(address, lines).value.stride == 0;
    hide Contiguous, Consistent, EvenlySpaced, StrideOf, FromLastCall;
    var c := Synthesized(address, lines).value;
    var r := Collected(lines, |lines|).value;
    hide Collected;
    RecoveredOpcodes(r, lines, c.contiguous);
    assert c.samples[i] == r[i];
    CollectedLast(lines, |lines|, i);
    Progression(address, c.samples, i);
  }

  /** Calls with consecutive opcodes of the run from 0 lie `stride` apart. */
  ghost predicate SpacedBy(address: Addressing, lines: seq<Line>, stride: int) {
    forall a, b :: a in lines && b in lines && Known(a) && Known(b) && InRun(lines, a, b) ==>
      address(b.packet) - address(a.packet) == stride
  }

  ghost predicate InRun(lines: seq<Line>, a: Line, b: Line)
    requires Known(a) && Known(b)
  {
    && 0 <= a.opcode.value && b.opcode.value == a.opcode.value + 1
    && forall i :: 0 <= i <= b.opcode.value ==> HasOpcode(lines, i)
  }

  /**
   A candidate is returned if and only if no two calls disagree, opcode 0 was seen with a known
   size, and the run of opcodes from 0 is evenly spaced.
   */
  lemma ReturnedExactly(address: Addressing, lines: seq<Line>)
    ensures Synthesized(address, lines).Some?
            <==> Consistent(lines) && HasOpcode(lines, 0) && exists stride :: SpacedBy(address, lines, stride)
  {
    CollectedReflects(lines, |lines|);
    assert lines[..|lines|] == lines;
    hide Collected, Consistent, EvenlySpaced, StrideOf, SpacedBy, Contiguous, Reflects, HasOpcode;
    if Consistent(lines) {
      var r := Collected(lines, |lines|).value;
      var n := Contiguous(r, 0);
      RecoveredOpcodes(r, lines, 0);
      RecoveredOpcodes(r, lines, n);
      var samples := SamplesOf(r, n);
      if EvenlySpaced(address, samples) {
        SpacingSeen(address, lines, r, n);
      }
      if stride: int :| SpacedBy(address, lines, stride) {
        SpacingKept(address, lines, r, n, stride);
      }
    }
  }

  lemma SpacingSeen(address: Addressing, lines: seq<Line>, r: Recovered, n: nat)
    requires Reflects(r, lines) && n !in r && forall i :: 0 <= i < n ==> i in r
    requires EvenlySpaced(address, SamplesOf(r, n))
    ensures SpacedBy(address, lines, StrideOf(address, SamplesOf(r, n)))
  {
    var samples := SamplesOf(r, n);
    forall a, b | a in lines && b in lines && Known(a) && Known(b) && InRun(lines, a, b)
      ensures address(b.packet) - address(a.packet) == StrideOf(address, samples)
    {
      var k := a.opcode.value;
      RecoveredOpcodes(r, lines, n);
      assert k + 1 < n;
      assert samples[k].packet == a.packet && samples[k + 1].packet == b.packet;
    }
  }

  lemma SpacingKept(address: Addressing, lines: seq<Line>, r: Recovered, n: nat, stride: int)
    requires Reflects(r, lines) && n !in r && forall i :: 0 <= i < n ==> i in r
    requires SpacedBy(address, lines, stride)
    ensures EvenlySpaced(address, SamplesOf(r, n))
  {
    var samples := SamplesOf(r, n);
    forall k: nat | k + 1 < n
      ensures address(samples[k + 1].packet) - address(samples[k].packet) == stride
    {
      assert k in r && k + 1 in r;
      var a :| a in lines && Known(a) && SampleOf(a) == r[k] && r[k].opcode == k;
      var b :| b in lines && Known(b) && SampleOf(b) == r[k + 1] && r[k + 1].opcode == k + 1;
      forall i | 0 <= i <= k + 1
        ensures HasOpcode(lines, i)
      {
        RecoveredOpcodes(r, lines, i);
      }
      assert InRun(lines, a, b);
    }
    assert n >= 2 ==> StrideOf(address, samples) == stride by {
      if n >= 2 {
        assert address(samples[0 + 1].packet) - address(samples[0].packet) == stride;
      }
    }
    forall i | 2 <= i < n
      ensures address(samples[i].packet) - address(samples[i - 1].packet) == stride
    {
      var k: nat := i - 1;
      assert address(samples[k + 1].packet) - address(samples[k].packet) == stride;
    }
  }

  /* ---------- independence of the order of the lines ---------- */

  lemma {:induction false} CallRefsAdd(a: seq<Line>, b: seq<Line>)
    ensures CallRefs(a + b) == CallRefs(a) + CallRefs(b)
    decreases |b|
  {
    if b == [] {
      assert a + b == a;
    } else {
      var n := |b| - 1;
      assert (a + b)[..|a| + n] == a + b[..n] && (a + b)[|a| + n] == b[n];
      CallRefsAdd(a, b[..n]);
    }
  }

  lemma {:induction false} CallRefsPermuted(a: seq<Line>, b: seq<Line>)
    requires multiset(a) == multiset(b)
    ensures CallRefs(a) == CallRefs(b)
    decreases |a|
  {
    if a == [] {
      assert |multiset(b)| == 0;
    } else {
      var x := a[0];
      assert x in multiset(b);
      assert x in b;
      var k: nat :| k < |b| && b[k] == x;
      var c := b[..k] + b[k + 1..];
      assert a == [x] + a[1..];
      assert b == b[..k] + [x] + b[k + 1..];
      assert multiset(a[1..]) == multiset(a) - multiset{x} == multiset(b) - multiset{x} == multiset(c);
      CallRefsPermuted(a[1..], c);
      CallRefsAdd([x], a[1..]);
      CallRefsAdd(b[..k] + [x], b[k + 1..]);
      CallRefsAdd(b[..k], [x]);
      CallRefsAdd(b[..k], b[k + 1..]);
    }
  }

  /** A candidate without its call sites. */
  function Anonymous(c: Candidate): Candidate {
    c.(samples := seq(|c.samples|, i requires 0 <= i < |c.samples| => c.samples[i].(callSite := "")))
  }

  function AnonymousResult(r: Option<Candidate>): Option<Candidate> {
    if r.None? then None else Some(Anonymous(r.value))
  }

  lemma SameRecovered(r: Recovered, s: Recovered, lines: seq<Line>, lines': seq<Line>)
    requires Reflects(r, lines) && Reflects(s, lines') && (forall l :: l in lines <==> l in lines')
    ensures forall op :: op in r <==> op in s
    ensures forall op :: op in r && op in s ==> r[op].opcode == s[op].opcode && SameTarget(r[op], s[op])
  {
    forall op | op in r
      ensures op in s && r[op].opcode == s[op].opcode && SameTarget(r[op], s[op])
    {
      var l :| l in lines && Known(l) && SampleOf(l) == r[op] && r[op].opcode == op;
      assert l in lines';
    }
    forall op | op in s
      ensures op in r
    {
      var l :| l in lines' && Known(l) && SampleOf(l) == s[op] && s[op].opcode == op;
      assert l in lines;
    }
  }

  lemma SameLength(r: Recovered, s: Recovered)
    requires forall op :: op in r <==> op in s
    ensures Contiguous(r, 0) == Contiguous(s, 0)
  {
    var m, n := Contiguous(r, 0), Contiguous(s, 0);
    assert m !in r && n !in s;
    hide Contiguous;
  }

  lemma SameSpacing(address: Addressing, a: seq<Sample>, b: seq<Sample>, callRefs: nat)
    requires |a| == |b|
    requires forall i :: 0 <= i < |a| ==> a[i].opcode == b[i].opcode && SameTarget(a[i], b[i])
    ensures StrideOf(address, a) == StrideOf(address, b)
    ensures EvenlySpaced(address, a) <==> EvenlySpaced(address, b)
    ensures Anonymous(Candidate(|a|, StrideOf(address, a), callRefs, a)) == Anonymous(Candidate(|b|, StrideOf(address, b), callRefs, b))
  {
    assert forall i :: 0 <= i < |a| ==> a[i].(callSite := "") == b[i].(callSite := "");
    var x, y := Candidate(|a|, StrideOf(address, a), callRefs, a), Candidate(|b|, StrideOf(address, b), callRefs, b);
    assert Anonymous(x).samples == Anonymous(y).samples;
  }

  lemma SameRun(address: Addressing, r: Recovered, s: Recovered, lines: seq<Line>, lines': seq<Line>)
    requires Collected(lines, |lines|) == Some(r) && Collected(lines', |lines'|) == Some(s) && CallRefs(lines) == CallRefs(lines')
    requires forall op :: op in r <==> op in s
    requires forall op :: op in r && op in s ==> r[op].opcode == s[op].opcode && SameTarget(r[op], s[op])
    ensures AnonymousResult(Synthesized(address, lines)) == AnonymousResult(Synthesized(address, lines'))
  {
    hide Collected, EvenlySpaced, StrideOf, Anonymous, Contiguous;
    SameLength(r, s);
    var n := Contiguous(r, 0);
    SameSpacing(address, SamplesOf(r, n), SamplesOf(s, n), CallRefs(lines));
  }

  /** The result, call sites aside, does not depend on the order of the dump's lines. */
  lemma OrderDoesNotMatter(address: Addressing, lines: seq<Line>, lines': seq<Line>)
    requires multiset(lines) == multiset(lines')
    ensures AnonymousResult(Synthesized(address, lines)) == AnonymousResult(Synthesized(address, lines'))
  {
    forall l
      ensures l in lines <==> l in lines'
    {
      assert l in lines <==> l in multiset(lines);
      assert l in lines' <==> l in multiset(lines');
    }
    CollectedReflects(lines, |lines|);
    CollectedReflects(lines', |lines'|);
    assert lines[..|lines|] == lines && lines'[..|lines'|] == lines';
    CallRefsPermuted(lines, lines');
    hide Collected;
    assert Consistent(lines) <==> Consistent(lines');
    if Consistent(lines) {
      var r, s := Collected(lines, |lines|).value, Collected(lines', |lines'|).value;
      SameRecovered(r, s, lines, lines');
      SameRun(address, r, s, lines, lines');
    }
  }
}
