/** The jump encoders of the patch engine, and the proof that the decoder inverts them. */
module JumpEncoders {
  import opened Wrappers
  import opened Words
  import opened Machine
  import opened Decoder
  import opened InstructionEncoding

  function Nops(n: int): (bytes: seq<Byte>)
    ensures |bytes| == if n < 0 then 0 else n
  {
    if n <= 0 then [] else seq(n, _ => 0x90)
  }

  function EncodeRelativeJump(source: int, target: int, patchSize: int): Result<seq<Byte>> {
    var displacement := target - (source + 5);
    if !FitsSigned32(displacement) then Err(DisplacementOutOfRange)
    else Ok([0xE9] + LittleEndian(displacement, 4) + Nops(patchSize - 5))
  }

  function EncodeAbsoluteJump(target: int, patchSize: Option<int>): Result<seq<Byte>> {
    if !(0 <= target < 0x1_0000_0000_0000_0000) then Err(AddressOverflow)
    else
      var encoded := [0x48, 0xB8] + LittleEndian(target, 8) + [0xFF, 0xE0];
      if patchSize.None? then Ok(encoded)
      else if patchSize.value < |encoded| then Err(PatchTooSmall)
      else Ok(encoded + Nops(patchSize.value - |encoded|))
  }

  function EncodeConditionalJump(opcode: seq<Byte>, source: int, target: int): Result<seq<Byte>> {
    var displacement := target - (source + |opcode| + 4);
    if !FitsSigned32(displacement) then Err(DisplacementOutOfRange)
    else Ok(opcode + LittleEndian(displacement, 4))
  }

  /**
   A relative jump is encoded exactly when the displacement is a signed 32-bit number, and then
   decodes to a jump from `source` to `target`, whatever padding and code follow it.
   */
  lemma RelativeJumpRoundTrip(source: int, target: int, patchSize: int, after: seq<Byte>)
    ensures EncodeRelativeJump(source, target, patchSize).Ok? <==> FitsSigned32(target - source - 5)
    ensures EncodeRelativeJump(source, target, patchSize).Ok? ==>
              var bytes := EncodeRelativeJump(source, target, patchSize).value;
              && |bytes| == (if patchSize < 5 then 5 else patchSize)
              && exists rel :: Decode(bytes + after) == Some(Decoded(Jmp(rel), 5)) && source + 5 + rel == target
  {
    if FitsSigned32(target - source - 5) {
      hide LittleEndian, SignedField, Decode;
      var d := target - (source + 5);
      var bytes := EncodeRelativeJump(source, target, patchSize).value;
      var tail := Nops(patchSize - 5) + after;
      SignedOfLittleEndian([0xE9], d, tail);
      PlainOpcode(RexOf(W32, false, false, false), 0xE9, LittleEndian(d, 4) + tail);
      assert RexBytes(RexOf(W32, false, false, false)) + [0xE9] == [0xE9];
      Associative([0xE9], LittleEndian(d, 4), tail);
      Associative([0xE9] + LittleEndian(d, 4), Nops(patchSize - 5), after);
      assert Decode(bytes + after) == Some(Decoded(Jmp(d), 5));
    }
  }

  /** The same for a conditional jump with a near (`0F 8x`) opcode. */
  lemma ConditionalJumpRoundTrip(c: Condition, source: int, target: int, after: seq<Byte>)
    ensures EncodeConditionalJump(OpcodeOf(c), source, target).Ok? <==> FitsSigned32(target - source - 6)
    ensures EncodeConditionalJump(OpcodeOf(c), source, target).Ok? ==>
              var bytes := EncodeConditionalJump(OpcodeOf(c), source, target).value;
              |bytes| == 6 && Decode(bytes + after) == Some(Decoded(Jcc(c, target - source - 6), 6))
  {
    if FitsSigned32(target - source - 6) {
      hide LittleEndian, Decode;
      var d := target - (source + 6);
      var bytes := EncodeConditionalJump(OpcodeOf(c), source, target).value;
      JccDecodes(c, d, after);
      assert bytes + after == OpcodeOf(c) + LittleEndian(d, 4) + after;
    }
  }

  /**
   An absolute jump is `mov rax, target` and then `jmp rax`. It is encoded exactly when the
   target is an unsigned 64-bit number and the patch has room for its twelve bytes.
   */
  lemma AbsoluteJumpRoundTrip(target: int, patchSize: Option<int>, after: seq<Byte>)
    ensures EncodeAbsoluteJump(target, patchSize).Ok?
            <==> 0 <= target < 0x1_0000_0000_0000_0000 && (patchSize.Some? ==> 12 <= patchSize.value)
    ensures EncodeAbsoluteJump(target, patchSize).Ok? ==>
              var bytes := EncodeAbsoluteJump(target, patchSize).value;
              && |bytes| == (if patchSize.Some? then patchSize.value else 12)
              && Decode(bytes + after) == Some(Decoded(Mov(W64, R(RAX), Imm(target)), 10))
              && Decode(bytes[10..] + after) == Some(Decoded(JmpTo(R(RAX)), 2))
  {
    hide Decode, LittleEndian, Encode;
    if EncodeAbsoluteJump(target, patchSize).Ok? {
      var bytes := EncodeAbsoluteJump(target, patchSize).value;
      var tail := bytes[12..];
      MovRaxBytes(target);
      JmpRaxBytes();
      EncodeDecodes(Mov(W64, R(RAX), Imm(target)), Std, [0xFF, 0xE0] + tail + after);
      assert bytes + after == [0x48, 0xB8] + LittleEndian(target, 8) + ([0xFF, 0xE0] + tail + after);
      assert bytes[10..] + after == [0xFF, 0xE0] + (tail + after);
      EncodeDecodes(JmpTo(R(RAX)), Std, tail + after);
    }
  }
}
