/**
 Relocatable stub programs: instructions and conditional branches to labels, how they are laid
 out as bytes, and two machines that run them. `ItemStep` runs the program item by item over
 data memory only; `ByteStep` fetches and decodes bytes from memory that also holds the code.
 The second refines the first, for every program.
 */
module Programs {
  import opened Wrappers
  import opened Words
  import opened ProcessMemory
  import opened Machine
  import opened Decoder
  import opened InstructionEncoding

  /** An instruction and its form, or a near conditional branch to the start of an item. */
  datatype Item = Ins(instr: Instr, form: Form) | Branch(cond: Condition, target: nat)

  type Program = seq<Item>

  const BRANCH_LENGTH: nat := 6

  predicate EncodableItem(i: Item) {
    i.Ins? ==> Encodable(i.instr, i.form)
  }

  function ItemLength(i: Item): nat {
    if i.Ins? then |Encode(i.instr, i.form)| else BRANCH_LENGTH
  }

  predicate EncodableProgram(p: Program) {
    forall k: nat :: k < |p| ==> EncodableItem(p[k])
  }

  /** Offset of item `k` from the start of the laid-out program. */
  function Offset(p: Program, k: nat): (o: nat)
    requires k <= |p|
  {
    if k == 0 then 0 else Offset(p, k - 1) + ItemLength(p[k - 1])
  }

  function CodeLength(p: Program): nat {
    Offset(p, |p|)
  }

  lemma {:induction false} OffsetMonotonic(p: Program, j: nat, k: nat)
    requires j <= k <= |p|
    ensures Offset(p, j) <= Offset(p, k)
    decreases k
  {
    hide Decode, ItemLength;
    if j < k {
      OffsetMonotonic(p, j, k - 1);
    }
  }

  lemma {:induction false} OffsetBound(p: Program, k: nat)
    requires EncodableProgram(p) && k <= |p|
    ensures Offset(p, k) <= LONGEST_INSTRUCTION * k
  {
    hide Encode, Encodable;
    if k > 0 {
      OffsetBound(p, k - 1);
      if p[k - 1].Ins? {
        EncodeLength(p[k - 1].instr, p[k - 1].form);
      }
    }
  }

  lemma CodeLengthBound(p: Program)
    ensures EncodableProgram(p) ==> CodeLength(p) <= LONGEST_INSTRUCTION * |p|
  {
    if EncodableProgram(p) {
      OffsetBound(p, |p|);
    }
  }

  predicate BranchesInside(p: Program) {
    forall k: nat :: k < |p| && p[k].Branch? ==> p[k].target <= |p|
  }

  /** Encodable, with every branch inside and of a length that 32-bit displacements span. */
  predicate WellFormed(p: Program) {
    && EncodableProgram(p)
    && CodeLength(p) < 0x8000_0000
    && BranchesInside(p)
  }

  /** The displacement of the branch at item `k`: from the item after it to its target. */
  function Displacement(p: Program, k: nat): int
    requires k < |p| && p[k].Branch? && p[k].target <= |p|
  {
    Offset(p, p[k].target) - Offset(p, k + 1)
  }

  function InstrOf(p: Program, k: nat): Instr
    requires k < |p| && (p[k].Branch? ==> p[k].target <= |p|)
  {
    if p[k].Ins? then p[k].instr else Jcc(p[k].cond, Displacement(p, k))
  }

  function ItemBytes(p: Program, k: nat): (bytes: seq<Byte>)
    requires k < |p| && (p[k].Branch? ==> p[k].target <= |p|)
    ensures |bytes| == ItemLength(p[k])
  {
    if p[k].Ins? then Encode(p[k].instr, p[k].form) else OpcodeOf(p[k].cond) + LittleEndian(Displacement(p, k), 4)
  }

  /** The first `k` items as bytes. */
  function Layout(p: Program, k: nat): (bytes: seq<Byte>)
    requires WellFormed(p) && k <= |p|
    ensures |bytes| == Offset(p, k)
  {
    if k == 0 then [] else Layout(p, k - 1) + ItemBytes(p, k - 1)
  }

  function Assemble(p: Program): (bytes: seq<Byte>)
    requires WellFormed(p)
    ensures |bytes| == CodeLength(p)
  {
    Layout(p, |p|)
  }

  lemma DisplacementFits(p: Program, k: nat)
    requires WellFormed(p) && k < |p| && p[k].Branch?
    ensures p[k].target <= |p| && FitsSigned32(Displacement(p, k))
  {
    hide Decode, ItemLength;
    OffsetMonotonic(p, p[k].target, |p|);
    OffsetMonotonic(p, k + 1, |p|);
  }

  /** Every laid-out item decodes to its instruction, whatever bytes follow. */
  lemma ItemDecodes(p: Program, k: nat, after: seq<Byte>)
    requires WellFormed(p) && k < |p|
    ensures Decode(ItemBytes(p, k) + after) == Some(Decoded(InstrOf(p, k), ItemLength(p[k])))
  {
    hide Decode, LittleEndian, Encode, Encodable;
    if p[k].Ins? {
      EncodeDecodes(p[k].instr, p[k].form, after);
    } else {
      DisplacementFits(p, k);
      JccDecodes(p[k].cond, Displacement(p, k), after);
    }
  }

  lemma {:induction false} LayoutPrefix(p: Program, j: nat, k: nat)
    requires WellFormed(p) && j <= k <= |p|
    ensures Layout(p, j) <= Layout(p, k)
    decreases k
  {
    hide WellFormed, ItemBytes, ItemLength;
    if j < k {
      LayoutPrefix(p, j, k - 1);
    }
  }

  /** Where item `k`'s bytes are in the assembled code. */
  lemma ItemAt(p: Program, k: nat)
    requires WellFormed(p) && k < |p|
    ensures Offset(p, k) + ItemLength(p[k]) <= CodeLength(p)
    ensures Assemble(p)[Offset(p, k)..Offset(p, k) + ItemLength(p[k])] == ItemBytes(p, k)
  {
    hide EncodableProgram, ItemBytes, ItemLength;
    var whole, head, o := Assemble(p), Layout(p, k + 1), Offset(p, k);
    LayoutPrefix(p, k + 1, |p|);
    OffsetMonotonic(p, k + 1, |p|);
    assert head == Layout(p, k) + ItemBytes(p, k);
    assert whole[..|head|] == head;
    assert whole[o..|head|] == head[o..];
  }

  /**
   Disassembling assembled code at any item finds that item's instruction; for a branch, the
   decoded displacement leads from the following instruction to the start of the target item.
   */
  lemma AssembledCodeDecodes(p: Program, k: nat)
    requires WellFormed(p) && k < |p|
    ensures Offset(p, k) <= |Assemble(p)|
    ensures var d := Decode(Assemble(p)[Offset(p, k)..]);
            && d == Some(Decoded(InstrOf(p, k), ItemLength(p[k])))
            && (p[k].Branch? ==>
                  && d.value.instr.Jcc? && d.value.instr.cond == p[k].cond
                  && p[k].target <= |p|
                  && Offset(p, k) + d.value.length + d.value.instr.rel == Offset(p, p[k].target))
  {
    hide Decode, WellFormed, ItemBytes, ItemLength;
    ItemFits(p, k);
    ItemAt(p, k);
    var rest := Assemble(p)[Offset(p, k) + ItemLength(p[k])..];
    assert Assemble(p)[Offset(p, k)..] == ItemBytes(p, k) + rest;
    ItemDecodes(p, k, rest);
    if p[k].Branch? {
      DisplacementFits(p, k);
    }
  }

  /* ---------- the item machine: data memory only ---------- */

  /** Control is at an item, has left for an address outside the program, or faulted. */
  datatype Control = AtItem(k: nat, s: State) | Left(rip: U64, s: State) | Fault

  function ItemStep(p: Program, base: U64, c: Control): Control {
    if !c.AtItem? then c
    else if c.k >= |p| then Left(Wrap(base + CodeLength(p)), c.s)
    else match p[c.k]
      case Branch(cond, target) => AtItem(if Holds(cond, c.s) then target else c.k + 1, c.s)
      case Ins(instr, _) =>
        var next := Wrap(base + Offset(p, c.k + 1));
        match Exec(instr, next, c.s)
        case Faulted => Fault
        case Running(rip, s) =>
          if instr.JmpTo? || instr.Jmp? || (instr.Jcc? && Holds(instr.cond, c.s)) then Left(rip, s)
          else AtItem(c.k + 1, s)
  }

  function ItemSteps(p: Program, base: U64, c: Control, n: nat): Control
    decreases n, base
  {
    if n == 0 then c else ItemSteps(p, base, ItemStep(p, base, c), n - 1)
  }

  /* ---------- the byte machine: code and data in one memory ---------- */

  /** The bytes from `a`, at most `n` and up to the first unmapped address. */
  function Fetch(m: Memory, a: U64, n: nat): (bytes: seq<Byte>)
    decreases n
  {
    if n == 0 || a !in m then [] else [m[a]] + Fetch(m, Wrap(a + 1), n - 1)
  }

  const LONGEST_INSTRUCTION: nat := 15

  function ByteStep(o: Outcome): Outcome {
    if o.Faulted? then Faulted
    else
      var d := Decode(Fetch(o.s.mem, o.rip, LONGEST_INSTRUCTION));
      if d.None? then Faulted else Exec(d.value.instr, Wrap(o.rip + d.value.length), o.s)
  }

  function ByteSteps(o: Outcome, n: nat): Outcome
    decreases n
  {
    if n == 0 then o else ByteSteps(ByteStep(o), n - 1)
  }

  /** Running the machine from `o` brings it to `o'`. */
  ghost predicate Reaches(o: Outcome, o': Outcome) {
    exists n: nat :: ByteSteps(o, n) == o'
  }

  lemma {:induction false} ByteStepsCompose(o: Outcome, m: nat, n: nat)
    ensures ByteSteps(ByteSteps(o, m), n) == ByteSteps(o, m + n)
    decreases m
  {
    hide Decode, Exec, ItemLength;
    if m > 0 {
      ByteStepsCompose(ByteStep(o), m - 1, n);
    }
  }

  lemma ReachesTransitive(a: Outcome, b: Outcome, c: Outcome)
    requires Reaches(a, b) && Reaches(b, c)
    ensures Reaches(a, c)
  {
    hide Decode, Exec, ItemLength;
    var m: nat :| ByteSteps(a, m) == b;
    var n: nat :| ByteSteps(b, n) == c;
    ByteStepsCompose(a, m, n);
  }

  predicate ByteAt(m: Memory, a: int, b: Byte) {
    Wrap(a) in m && m[Wrap(a)] == b
  }

  ghost predicate HoldsCode(m: Memory, a: U64, bytes: seq<Byte>) {
    forall i: nat :: i < |bytes| ==> ByteAt(m, a + i, bytes[i])
  }

  lemma {:induction false} FetchFindsCode(m: Memory, a: U64, bytes: seq<Byte>, n: nat)
    requires HoldsCode(m, a, bytes) && |bytes| <= n
    ensures bytes <= Fetch(m, a, n)
    decreases n
  {
    if bytes != [] {
      assert ByteAt(m, a + 0, bytes[0]);
      CodeSlice(m, a, bytes, 1, |bytes|);
      FetchFindsCode(m, Wrap(a + 1), bytes[1..], n - 1);
    }
  }

  lemma CodeSlice(m: Memory, a: U64, bytes: seq<Byte>, from: nat, to: nat)
    requires HoldsCode(m, a, bytes) && from <= to <= |bytes|
    ensures HoldsCode(m, Wrap(a + from), bytes[from..to])
  {
    forall i: nat | i < to - from
      ensures ByteAt(m, Wrap(a + from) + i, bytes[from..to][i])
    {
      assert ByteAt(m, a + (from + i), bytes[from + i]);
      WrapAdd(a + from, i);
    }
  }

  lemma ItemFits(p: Program, k: nat)
    requires WellFormed(p) && k < |p|
    ensures ItemLength(p[k]) <= LONGEST_INSTRUCTION
    ensures p[k].Branch? ==> p[k].target <= |p|
  {
    hide Encode, Encodable;
    if p[k].Ins? {
      EncodeLength(p[k].instr, p[k].form);
    }
  }

  /** The bytes of item `k` are where the laid-out program has them. */
  ghost predicate Intact(p: Program, base: U64, k: nat, m: Memory)
    requires k < |p| && (p[k].Branch? ==> p[k].target <= |p|)
  {
    HoldsCode(m, Wrap(base + Offset(p, k)), ItemBytes(p, k))
  }

  /** With its bytes in place, one byte-level step executes the item at its address. */
  lemma ByteStepAtItem(p: Program, base: U64, k: nat, s: State)
    requires WellFormed(p) && k < |p| && (p[k].Branch? ==> p[k].target <= |p|) && Intact(p, base, k, s.mem)
    ensures ByteStep(Running(Wrap(base + Offset(p, k)), s))
            == Exec(InstrOf(p, k), Wrap(base + Offset(p, k + 1)), s)
  {
    hide Decode, Exec, WellFormed, ItemBytes, ItemLength, InstrOf, Wrap, HoldsCode, Fetch;
    var rip, length := Wrap(base + Offset(p, k)), ItemLength(p[k]);
    ItemFits(p, k);
    FetchFindsCode(s.mem, rip, ItemBytes(p, k), LONGEST_INSTRUCTION);
    var fetched := Fetch(s.mem, rip, LONGEST_INSTRUCTION);
    assert fetched == ItemBytes(p, k) + fetched[length..];
    ItemDecodes(p, k, fetched[length..]);
    WrapAdd(base + Offset(p, k), length);
  }

  /** A program in memory has all its items in place. */
  lemma HeldItem(p: Program, base: U64, k: nat, m: Memory)
    requires WellFormed(p) && k < |p| && HoldsCode(m, base, Assemble(p))
    ensures p[k].Branch? ==> p[k].target <= |p|
    ensures Intact(p, base, k, m)
  {
    hide WellFormed, ItemBytes, ItemLength, Wrap, HoldsCode;
    ItemFits(p, k);
    ItemAt(p, k);
    CodeSlice(m, base, Assemble(p), Offset(p, k), Offset(p, k) + ItemLength(p[k]));
  }

  /** The byte-level configuration an item-level one stands for. */
  function Concrete(p: Program, base: U64, c: Control, code: Memory): Outcome
    requires c.AtItem? ==> c.k <= |p|
  {
    match c
    case AtItem(k, s) => Running(Wrap(base + Offset(p, k)), Extend(s, code))
    case Left(rip, s) => Running(rip, Extend(s, code))
    case Fault => Faulted
  }

  lemma HoldsCodeExtends(m: Memory, code: Memory, a: U64, bytes: seq<Byte>)
    requires HoldsCode(code, a, bytes)
    ensures HoldsCode(m + code, a, bytes)
  {
    forall i: nat | i < |bytes|
      ensures ByteAt(m + code, a + i, bytes[i])
    {
      assert ByteAt(code, a + i, bytes[i]);
    }
  }

  lemma ExecBranch(cond: Condition, rel: int, next: U64, s: State)
    ensures Exec(Jcc(cond, rel), next, s) == Running(if Holds(cond, s) then Wrap(next + rel) else next, s)
  {
  }

  lemma BranchTarget(p: Program, base: U64, k: nat)
    requires WellFormed(p) && k < |p| && p[k].Branch?
    ensures p[k].target <= |p|
    ensures Wrap(Wrap(base + Offset(p, k + 1)) + Displacement(p, k)) == Wrap(base + Offset(p, p[k].target))
  {
    hide Wrap, WellFormed, Offset, ItemLength;
    ItemFits(p, k);
    WrapAdd(base + Offset(p, k + 1), Displacement(p, k));
  }

  lemma ItemStepRefines(p: Program, base: U64, k: nat, s: State, code: Memory)
    requires WellFormed(p) && k < |p| && s.mem.Keys !! code.Keys && HoldsCode(code, base, Assemble(p))
    requires !ItemStep(p, base, AtItem(k, s)).Fault?
    ensures var c := ItemStep(p, base, AtItem(k, s));
            && (c.AtItem? ==> c.k <= |p|)
            && c.s.mem.Keys == s.mem.Keys
            && ByteStep(Concrete(p, base, AtItem(k, s), code)) == Concrete(p, base, c, code)
  {
    hide Decode, Exec, WellFormed, ItemBytes, ItemLength, Wrap, HoldsCode, Fetch, ByteStep;
    HoldsCodeExtends(s.mem, code, base, Assemble(p));
    HeldItem(p, base, k, s.mem + code);
    hide Intact;
    ByteStepAtItem(p, base, k, Extend(s, code));
    var next := Wrap(base + Offset(p, k + 1));
    if p[k].Branch? {
      BranchTarget(p, base, k);
      ExecBranch(p[k].cond, Displacement(p, k), next, Extend(s, code));
    } else {
      ExecExtends(p[k].instr, next, s, code);
      if ItemStep(p, base, AtItem(k, s)).AtItem? {
        ExecAdvances(p[k].instr, next, s);
      }
    }
  }

  /** Only a jump changes where control goes next. */
  lemma ExecAdvances(i: Instr, next: U64, s: State)
    requires Exec(i, next, s).Running?
    requires !(i.JmpTo? || i.Jmp? || (i.Jcc? && Holds(i.cond, s)))
    ensures Exec(i, next, s).rip == next
  {
  }

  lemma StepRefines(p: Program, base: U64, k: nat, s: State, code: Memory)
    requires WellFormed(p) && k <= |p| && s.mem.Keys !! code.Keys && HoldsCode(code, base, Assemble(p))
    requires !ItemStep(p, base, AtItem(k, s)).Fault?
    ensures var c := ItemStep(p, base, AtItem(k, s));
            && (c.AtItem? ==> c.k <= |p|)
            && c.s.mem.Keys == s.mem.Keys
            && Reaches(Concrete(p, base, AtItem(k, s), code), Concrete(p, base, c, code))
  {
    hide Exec, WellFormed, ItemLength, Wrap, HoldsCode, ByteStep;
    var o := Concrete(p, base, AtItem(k, s), code);
    if k == |p| {
      assert ByteSteps(o, 0) == o;
    } else {
      ItemStepRefines(p, base, k, s, code);
      assert ByteSteps(o, 1) == ByteSteps(ByteStep(o), 0);
    }
  }

  /**
   Refinement, for every program, address, data and code memory: if the item machine leaves the
   program, the byte machine, decoding the assembled bytes, reaches the same address with the
   same registers, flags and data, and with its code untouched.
   */
  lemma {:induction false} Refinement(p: Program, base: U64, k: nat, s: State, code: Memory, n: nat)
    requires WellFormed(p) && k <= |p| && s.mem.Keys !! code.Keys && HoldsCode(code, base, Assemble(p))
    requires ItemSteps(p, base, AtItem(k, s), n).Left?
    ensures var end := ItemSteps(p, base, AtItem(k, s), n);
            && Reaches(Concrete(p, base, AtItem(k, s), code), Running(end.rip, Extend(end.s, code)))
            && end.s.mem.Keys == s.mem.Keys
    decreases n
  {
    hide Exec, ItemStep, WellFormed, Assemble, HoldsCode, ByteStep, ByteSteps, Reaches, Wrap, Offset, Extend;
    var c, end := ItemStep(p, base, AtItem(k, s)), ItemSteps(p, base, AtItem(k, s), n);
    assert n > 0 && end == ItemSteps(p, base, c, n - 1);
    if !c.AtItem? {
      StaysPut(p, base, c, n - 1);
    }
    StepRefines(p, base, k, s, code);
    if c.AtItem? {
      Refinement(p, base, c.k, c.s, code, n - 1);
      ReachesTransitive(Concrete(p, base, AtItem(k, s), code), Concrete(p, base, c, code),
        Concrete(p, base, end, code));
    }
  }

  lemma {:induction false} StaysPut(p: Program, base: U64, c: Control, n: nat)
    requires !c.AtItem?
    ensures ItemSteps(p, base, c, n) == c
    decreases n
  {
    hide Decode, Exec, ItemLength;
    if n > 0 {
      StaysPut(p, base, c, n - 1);
    }
  }

  lemma {:induction false} ItemStepsCompose(p: Program, base: U64, c: Control, m: nat, n: nat)
    ensures ItemSteps(p, base, ItemSteps(p, base, c, m), n) == ItemSteps(p, base, c, m + n)
    decreases m
  {
    hide Decode, Exec, ItemLength;
    if m > 0 {
      ItemStepsCompose(p, base, ItemStep(p, base, c), m - 1, n);
    }
  }
}
