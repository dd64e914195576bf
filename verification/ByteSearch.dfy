/** `bytes.find`: the first occurrence of a byte string at or after a position. */
module ByteSearch {
  import opened Wrappers
  import opened Words

  predicate OccursAt(bytes: seq<Byte>, needle: seq<Byte>, i: nat) {
    i + |needle| <= |bytes| && bytes[i..i + |needle|] == needle
  }

  /** `bytes.find(needle, cursor)`: the first occurrence at or after `cursor`. */
  function Find(bytes: seq<Byte>, needle: seq<Byte>, cursor: nat): (found: Option<nat>)
    ensures found.Some? ==> cursor <= found.value && OccursAt(bytes, needle, found.value)
    ensures found.Some? ==> forall i :: cursor <= i < found.value ==> !OccursAt(bytes, needle, i)
    ensures found.None? ==> forall i :: cursor <= i ==> !OccursAt(bytes, needle, i)
    decreases |bytes| - cursor
  {
    if cursor + |needle| > |bytes| then None
    else if OccursAt(bytes, needle, cursor) then Some(cursor)
    else Find(bytes, needle, cursor + 1)
  }
}
