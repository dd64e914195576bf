/**
 The patch tables of the launcher: which bytes each pass expects at an offset and what replaces
 them.
 */
module PatchTables {
  import opened Wrappers
  import opened Words

  const NULL_READ: seq<Byte> := [0x44, 0x8B, 0x04, 0x25, 0x00, 0x00, 0x00, 0x00]
  const NULL_READ_REPLACEMENT: seq<Byte> := [0x45, 0x33, 0xC0, 0x90, 0x90, 0x90, 0x90, 0x90]
  const DEFAULT_NULL_READ_BLOCK: seq<Byte> := [0x44, 0x8B, 0x04, 0x25, 0x00, 0x00, 0x00, 0x00, 0x48, 0x8B, 0xCE]

  datatype InlinePatch = InlinePatch(expected: seq<Byte>, replacement: seq<Byte>)

  /** `KNOWN_INLINE_PATCHES`. */
  function KnownInlinePatch(offset: int): Option<InlinePatch> {
    if offset == 0x590001 then
      Some(InlinePatch([0x8B, 0x09], [0x33, 0xC9]))
    else if offset == 0x590321 then
      Some(InlinePatch([0x8B, 0x09], [0x33, 0xC9]))
    else if offset == 0x5916C3 then
      Some(InlinePatch([0x8B, 0x09], [0x33, 0xC9]))
    else if offset == 0x5916F0 then
      Some(InlinePatch([0x48, 0x8B, 0x53, 0x10], [0x48, 0x31, 0xD2, 0x90]))
    else if offset == 0x591712 then
      Some(InlinePatch([0x4C, 0x8B, 0x43, 0x10], [0x4D, 0x31, 0xC0, 0x90]))
    else if offset == 0x591719 then
      Some(InlinePatch([0x48, 0x8B, 0x53, 0x18], [0x48, 0x31, 0xD2, 0x90]))
    else if offset == 0x5919E3 then
      Some(InlinePatch([0x8B, 0x09], [0x33, 0xC9]))
    else if offset == 0x591A10 then
      Some(InlinePatch([0x48, 0x8B, 0x53, 0x10], [0x48, 0x31, 0xD2, 0x90]))
    else if offset == 0x591A32 then
      Some(InlinePatch([0x4C, 0x8B, 0x43, 0x10], [0x4D, 0x31, 0xC0, 0x90]))
    else if offset == 0x591A39 then
      Some(InlinePatch([0x48, 0x8B, 0x53, 0x18], [0x48, 0x31, 0xD2, 0x90]))
    else if offset == 0x590CF4 then
      Some(InlinePatch([0x0F, 0x84, 0xD1, 0x00, 0x00, 0x00], [0x90, 0x90, 0x90, 0x90, 0x90, 0x90]))
    else if offset == 0x594A41 then
      Some(InlinePatch([0x80, 0x7E, 0x24, 0x00], [0x31, 0xC0, 0x90, 0x90]))
    else if offset == 0x594D61 then
      Some(InlinePatch([0x80, 0x7E, 0x24, 0x00], [0x31, 0xC0, 0x90, 0x90]))
    else if offset == 0x5966FB then
      Some(InlinePatch([0x41, 0xBE, 0x00, 0x08, 0x42, 0x05], [0x41, 0xBE, 0x00, 0x08, 0x62, 0x05]))
    else if offset == 0x596649 then
      Some(InlinePatch([0x74, 0x3A], [0x74, 0x2B]))
    else if offset == 0x59687F then
      Some(InlinePatch([0xC6, 0x43, 0x28, 0x01], [0xC6, 0x43, 0x29, 0x01]))
    else if offset == 0x5955A2 then
      Some(InlinePatch([0x74, 0x0B], [0x90, 0x90]))
    else if offset == 0x5953E4 then
      Some(InlinePatch([0x0F, 0x84, 0xB2, 0x00, 0x00, 0x00], [0x90, 0x90, 0x90, 0x90, 0x90, 0x90]))
    else if offset == 0x5967E5 then
      Some(InlinePatch([0x0F, 0x85, 0x4D, 0xFD, 0xFF, 0xFF], [0x90, 0x90, 0x90, 0x90, 0x90, 0x90]))
    else if offset == 0x597DB1 then
      Some(InlinePatch([0xC6, 0x45, 0x20, 0x01], [0xC6, 0x45, 0x21, 0x01]))
    else None
  }

  function Block59002D(): (block: seq<Byte>)
    ensures |block| >= 5 && block[0] != 0xE9
  {
    var head: seq<Byte> := [0x48, 0x8B, 0x53, 0x10, 0x48, 0x8D, 0x4C, 0x24];
    head +
    [0x40, 0x4C, 0x89, 0x64, 0x24, 0x48, 0x4C, 0x89, 0x64, 0x24, 0x50, 0x4C, 0x89, 0x64, 0x24, 0x58, 0xE8, 0x56, 0x98, 0xA9] +
    [0xFF, 0x48, 0x8B, 0x74, 0x24, 0x50, 0x4C, 0x8B, 0x43, 0x10, 0x48, 0x8B, 0xCE, 0x48, 0x8B, 0x53, 0x18, 0xE8, 0x31, 0x9C] +
    [0x22, 0x00, 0x48, 0x8B, 0x5C, 0x24, 0x48, 0x4C, 0x8B, 0xA4, 0x24, 0x90, 0x00, 0x00, 0x00, 0x48, 0x85, 0xDB, 0x74, 0x2A] +
    [0x48, 0x85, 0xF6, 0x74, 0x21, 0x48, 0x8B, 0x4F, 0x38, 0x48, 0x8B, 0xD6, 0x48, 0x8B, 0x47, 0x28, 0x48, 0x2B, 0xC1, 0x48] +
    [0x3B, 0xC3, 0x48, 0x0F, 0x42, 0xD8, 0x48, 0x03, 0x4F, 0x30, 0x4C, 0x8B, 0xC3, 0xE8, 0xF9, 0x9B, 0x22, 0x00, 0x48, 0x01] +
    [0x5F, 0x38, 0x48, 0x8D, 0x4C, 0x24, 0x40, 0xE8, 0x0B, 0xDC, 0xA9, 0xFF]
  }

  function Block59034D(): (block: seq<Byte>)
    ensures |block| >= 5 && block[0] != 0xE9
  {
    var head: seq<Byte> := [0x31, 0x00, 0x00, 0xEB, 0x18, 0x48, 0x3B, 0x8A];
    head +
    [0x90, 0x32, 0x00, 0x00, 0x73, 0x0C, 0x48, 0x8B, 0x82, 0x98, 0x32, 0x00, 0x00, 0x8B, 0x04, 0x88, 0xEB, 0x03, 0x41, 0x8B] +
    [0xC0, 0x44, 0x3B, 0xD0, 0x75, 0x57, 0x45, 0x84, 0xC9, 0x74, 0x09, 0x44, 0x8B, 0x8A, 0x30, 0x77, 0x00, 0x00, 0xEB, 0x19] +
    [0x48, 0x3B, 0x8A, 0xD8, 0x77, 0x00, 0x00, 0x73, 0x0D, 0x48, 0x8B, 0x82, 0xE0, 0x77, 0x00, 0x00, 0x44, 0x8B, 0x0C, 0x88] +
    [0xEB, 0x03, 0x45, 0x8B, 0xC8, 0x45, 0x84, 0xDB, 0x74, 0x09, 0x44, 0x8B, 0x82, 0x18, 0x32, 0x00, 0x00, 0xEB, 0x14, 0x48] +
    [0x3B, 0x8A, 0xC0, 0x32, 0x00, 0x00, 0x73, 0x0B, 0x48, 0x8B, 0x82, 0xC8, 0x32, 0x00, 0x00, 0x44, 0x8B, 0x04, 0x88, 0x45] +
    [0x3B, 0xC8, 0x75, 0x09, 0x48, 0x8D, 0x05, 0x5C, 0x10, 0x6B, 0x00, 0xEB, 0x3B]
  }

  function Block594A88(): (block: seq<Byte>)
    ensures |block| >= 5 && block[0] != 0xE9
  {
    var head: seq<Byte> := [0x48, 0x3B, 0xAE, 0x98, 0x00, 0x00, 0x00, 0x73];
    head +
    [0x10]
  }

  function Block594AA6(): (block: seq<Byte>)
    ensures |block| >= 5 && block[0] != 0xE9
  {
    var head: seq<Byte> := [0x48, 0x3B, 0xAE, 0xC8, 0x00, 0x00, 0x00, 0x73];
    head +
    [0x0B]
  }

  function Block59C64F(): (block: seq<Byte>)
    ensures |block| >= 5 && block[0] != 0xE9
  {
    var head: seq<Byte> := [0x4D, 0x85, 0xFF, 0x74, 0x08, 0x49, 0x8B, 0xCF];
    head +
    [0xE8, 0xA4, 0xA6, 0x20, 0x00]
  }

  function Block59707D(): (block: seq<Byte>)
    ensures |block| >= 5 && block[0] != 0xE9
  {
    var head: seq<Byte> := [0x75, 0x08, 0xB0, 0x01, 0x48, 0x83, 0xC4, 0x70];
    head +
    [0x5B, 0xC3]
  }

  function Block7A3BC2(): (block: seq<Byte>)
    ensures |block| >= 5 && block[0] != 0xE9
  {
    var head: seq<Byte> := [0x49, 0x8B, 0x7E, 0x78, 0x49, 0x3B, 0xBE, 0x80];
    head +
    [0x00, 0x00, 0x00, 0x73, 0x30]
  }

  function Block72AD28(): (block: seq<Byte>)
    ensures |block| >= 5 && block[0] != 0xE9
  {
    var head: seq<Byte> := [0x80, 0x7B, 0x08, 0x00, 0x74, 0x18, 0x48, 0x8B];
    head +
    [0x0D, 0xDB, 0x1B, 0x52, 0x00, 0x48, 0x85, 0xC9, 0x74, 0x0C, 0x48, 0x8B, 0xD3, 0xE8, 0x7E, 0x13, 0x00, 0x00, 0xC6, 0x43] +
    [0x08, 0x00]
  }

  function Block72B3A8(): (block: seq<Byte>)
    ensures |block| >= 5 && block[0] != 0xE9
  {
    var head: seq<Byte> := [0x80, 0x7B, 0x08, 0x00, 0x74, 0x18, 0x48, 0x8B];
    head +
    [0x0D, 0x2B, 0x45, 0x58, 0x00, 0x48, 0x85, 0xC9, 0x74, 0x0C, 0x48, 0x8B, 0xD3, 0xE8, 0x3E, 0x14, 0x00, 0x00, 0xC6, 0x43] +
    [0x08, 0x00]
  }

  /** `KNOWN_JUMP_BYPASS_BLOCKS`, with its default: each has room for a five-byte jump and does not start with one. */
  function KnownBlock(offset: int): (block: seq<Byte>)
    ensures |block| >= 5 && block[0] != 0xE9
  {
    if offset == 0x59002D then Block59002D()
    else if offset == 0x59034D then Block59034D()
    else if offset == 0x594A91 then [0x48, 0x8B, 0x86, 0xA0, 0x00, 0x00, 0x00]
    else if offset == 0x594AAF then [0x48, 0x8B, 0x86, 0xD0, 0x00, 0x00, 0x00]
    else if offset == 0x594A88 then Block594A88()
    else if offset == 0x594AA6 then Block594AA6()
    else if offset == 0x59C64F then Block59C64F()
    else if offset == 0x59707D then Block59707D()
    else if offset == 0x7A3BC2 then Block7A3BC2()
    else if offset == 0x72AD28 then Block72AD28()
    else if offset == 0x72B3A8 then Block72B3A8()
    else DEFAULT_NULL_READ_BLOCK
  }

  /** No inline patch changes a length, and none leaves the bytes it looks for. */
  lemma InlinePatchesChangeBytes(offset: int)
    requires KnownInlinePatch(offset).Some?
    ensures var p := KnownInlinePatch(offset).value; |p.expected| == |p.replacement| && p.expected != p.replacement
  {
  }

  lemma NullReadsChangeBytes()
    ensures |NULL_READ| == |NULL_READ_REPLACEMENT| && NULL_READ != NULL_READ_REPLACEMENT
  {
    assert NULL_READ[0] != NULL_READ_REPLACEMENT[0];
  }
}
