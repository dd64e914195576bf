/**
 The byte array of a stub under construction: instructions have been appended, conditional jumps
 are six-byte placeholders until they are overwritten, once their target is known.
 */
module StubDrafts {
  import opened Wrappers
  import opened Words
  import opened Machine
  import opened InstructionEncoding
  import opened JumpEncoders
  import opened Programs

  function Placeholder(c: Condition): seq<Byte> {
    match c
    case B => [0x0F, 0x82, 0, 0, 0, 0]
    case AE => [0x0F, 0x83, 0, 0, 0, 0]
    case E => [0x0F, 0x84, 0, 0, 0, 0]
    case NE => [0x0F, 0x85, 0, 0, 0, 0]
  }

  /** Item `k` as it stands in the buffer: branches outside `patched` are still placeholders. */
  function DraftItem(p: Program, k: nat, patched: set<nat>): (bytes: seq<Byte>)
    requires WellFormed(p) && k < |p|
    ensures |bytes| == ItemLength(p[k])
  {
    if p[k].Branch? && k !in patched then Placeholder(p[k].cond) else ItemBytes(p, k)
  }

  function Draft(p: Program, k: nat, patched: set<nat>): (bytes: seq<Byte>)
    requires WellFormed(p) && k <= |p|
    ensures |bytes| == Offset(p, k)
  {
    if k == 0 then [] else Draft(p, k - 1, patched) + DraftItem(p, k - 1, patched)
  }

  /** Patching a branch that is still to come changes nothing yet. */
  lemma {:induction false} DraftIgnoresLater(p: Program, k: nat, patched: set<nat>, j: nat)
    requires WellFormed(p) && k <= j && k <= |p|
    ensures Draft(p, k, patched + {j}) == Draft(p, k, patched)
  {
    hide WellFormed;
    if k > 0 {
      DraftIgnoresLater(p, k - 1, patched, j);
    }
  }

  /** Overwriting a branch's six bytes with its encoding patches exactly that branch. */
  lemma {:induction false} PatchDraft(p: Program, k: nat, patched: set<nat>, j: nat)
    requires WellFormed(p) && j < k <= |p| && p[j].Branch?
    ensures Offset(p, j) + BRANCH_LENGTH <= Offset(p, k)
    ensures |ItemBytes(p, j)| == BRANCH_LENGTH
    ensures Draft(p, k, patched + {j}) == Splice(Draft(p, k, patched), Offset(p, j), ItemBytes(p, j))
    decreases k
  {
    hide EncodableProgram, ItemBytes, Splice, Encode;
    var last := DraftItem(p, k - 1, patched);
    if j == k - 1 {
      DraftIgnoresLater(p, j, patched, j);
      SpliceTail(Draft(p, j, patched), last, ItemBytes(p, j));
    } else {
      PatchDraft(p, k - 1, patched, j);
      SpliceWithin(Draft(p, k - 1, patched), last, Offset(p, j), ItemBytes(p, j));
      assert DraftItem(p, k - 1, patched + {j}) == last;
    }
  }

  lemma {:induction false} DraftComplete(p: Program, k: nat, patched: set<nat>)
    requires WellFormed(p) && k <= |p|
    requires forall j: nat :: j < k && p[j].Branch? ==> j in patched
    ensures Draft(p, k, patched) == Layout(p, k)
  {
    hide WellFormed, ItemBytes;
    if k > 0 {
      DraftComplete(p, k - 1, patched);
    }
  }

  /** Every branch of the listing is at one of these items. */
  predicate BranchesAt(p: Program, places: set<nat>) {
    forall k: nat :: k < |p| && p[k].Branch? ==> k in places
  }

  /** Once every branch is patched the draft is the assembled program. */
  lemma Finished(p: Program, places: set<nat>, patched: set<nat>)
    requires WellFormed(p) && BranchesAt(p, places) && places <= patched
    ensures Draft(p, |p|, patched) == Assemble(p)
  {
    hide WellFormed, Draft;
    DraftComplete(p, |p|, patched);
  }

  /** `_allocate_process_memory(handle, 256)`: the room a stub has. */
  const STUB_ALLOCATION: nat := 256

  lemma Empty(p: Program)
    requires WellFormed(p)
    ensures Draft(p, 0, {}) == [] && Offset(p, 0) == 0
  {
  }

  lemma DraftLength(p: Program, k: nat)
    requires WellFormed(p) && k <= |p|
    ensures |Draft(p, k, {})| == Offset(p, k)
  {
  }

  /** Appending an instruction's bytes to the draft of the items before it. */
  lemma Appended(p: Program, k: nat)
    requires WellFormed(p) && k < |p| && p[k].Ins?
    ensures Draft(p, k + 1, {}) == Draft(p, k, {}) + Encode(p[k].instr, p[k].form)
    ensures |Draft(p, k, {})| == Offset(p, k)
  {
    hide Encode, WellFormed;
  }

  /** Appending a placeholder. */
  lemma Reserved(p: Program, k: nat)
    requires WellFormed(p) && k < |p| && p[k].Branch?
    ensures Draft(p, k + 1, {}) == Draft(p, k, {}) + Placeholder(p[k].cond)
    ensures |Draft(p, k, {})| == Offset(p, k)
  {
    hide Encode, WellFormed, Placeholder;
  }

  /** Appending an absolute jump: the load of RAX and the jump through it. */
  lemma ExitAppended(p: Program, k: nat, target: U64)
    requires WellFormed(p) && k + 1 < |p|
    requires p[k] == Ins(Mov(W64, R(RAX), Imm(target)), Std) && p[k + 1] == Ins(JmpTo(R(RAX)), Std)
    ensures EncodeAbsoluteJump(target, None).Ok?
    ensures Draft(p, k + 2, {}) == Draft(p, k, {}) + EncodeAbsoluteJump(target, None).value
    ensures |Draft(p, k, {})| == Offset(p, k)
  {
    hide Encode, WellFormed, LittleEndian, Draft;
    MovRaxBytes(target);
    JmpRaxBytes();
    Appended(p, k);
    Appended(p, k + 1);
    Associative(Draft(p, k, {}), [0x48, 0xB8] + LittleEndian(target, 8), [0xFF, 0xE0]);
  }

  /** Overwriting the placeholder of item `j` with the jump encoded from absolute addresses. */
  lemma Patched(p: Program, patched: set<nat>, j: nat, trampoline: int)
    requires WellFormed(p) && j < |p| && p[j].Branch?
    ensures p[j].target <= |p|
    ensures EncodeConditionalJump(OpcodeOf(p[j].cond), trampoline + Offset(p, j), trampoline + Offset(p, p[j].target))
            == Ok(ItemBytes(p, j))
    ensures |ItemBytes(p, j)| == BRANCH_LENGTH && Offset(p, j) + BRANCH_LENGTH <= |Draft(p, |p|, patched)|
    ensures Draft(p, |p|, patched + {j}) == Splice(Draft(p, |p|, patched), Offset(p, j), ItemBytes(p, j))
  {
    hide WellFormed, ItemBytes, Draft, Splice, Encode;
    BranchEncoding(p, j, trampoline);
    PatchDraft(p, |p|, patched, j);
  }

  /** `stub[offset:offset + 6] = …`: overwrites one placeholder, given where it and its target are. */
  method FillIn(stub: seq<Byte>, offset: nat, opcode: seq<Byte>, trampoline: int, target: int,
                ghost p: Program, ghost patched: set<nat>, ghost j: nat)
    returns (filled: seq<Byte>)
    requires WellFormed(p) && j < |p| && p[j].Branch? && p[j].target <= |p|
    requires opcode == OpcodeOf(p[j].cond) && offset == Offset(p, j) && target == trampoline + Offset(p, p[j].target)
    requires stub == Draft(p, |p|, patched)
    ensures filled == Draft(p, |p|, patched + {j})
  {
    hide WellFormed, ItemBytes, Draft, Splice, Encode, EncodeConditionalJump, OpcodeOf;
    Patched(p, patched, j, trampoline);
    var jump := EncodeConditionalJump(opcode, trampoline + offset, target);
    filled := Splice(stub, offset, jump.value);
  }

  lemma BranchLength(p: Program, k: nat)
    requires k < |p| && p[k].Branch?
    ensures Offset(p, k + 1) == Offset(p, k) + BRANCH_LENGTH
  {
    hide Encode;
  }

  /**
   The encoded displacement, computed from absolute addresses, is the branch's own: it does not
   depend on where the trampoline is.
   */
  lemma BranchEncoding(p: Program, k: nat, trampoline: int)
    requires WellFormed(p) && k < |p| && p[k].Branch?
    ensures p[k].target <= |p|
    ensures EncodeConditionalJump(OpcodeOf(p[k].cond), trampoline + Offset(p, k), trampoline + Offset(p, p[k].target))
            == Ok(ItemBytes(p, k))
  {
    hide LittleEndian, WellFormed, ItemLength, Offset;
    DisplacementFits(p, k);
    BranchLength(p, k);
  }
}
