/**
 * Laws that relate the binary encoder to the binary decoder: every compiled
 * program decodes back to itself, and a stream decodes only if it is made of
 * whole records.
 */
module Codec {
  import opened Base
  import opened Instructions
  import opened Compiler
  import opened Lexer

  /** Decoding consumes exactly the record of one instruction. */
  lemma DecodeRecord(i: Instruction, rest: seq<u8>)
    ensures Decode(EncodeInstruction(i) + rest) == Prefixed([i], Decode(rest))
  {
    var bytes := EncodeInstruction(i) + rest;
    OpcodeTablesAgree(i);
    EncodeInstructionShape(i);
    if RequiresValue(i) {
      var v := GetValue(i);
      assert bytes[1] == ToU8(i) && bytes[4..] == rest;
      assert FromBeBytes(bytes[2], bytes[3]) == v.word;
      FromU8Inverse(i, ModeByte(v));
    } else {
      assert bytes[1] == ToU8(i) && bytes[2..] == rest;
      FromU8Inverse(i, 0x00);
    }
  }

  /** `lex_bin(compile(p)) == p`: the decoder inverts the encoder. */
  lemma {:induction false} DecodeEncode(p: seq<Instruction>)
    ensures Decode(Encode(p)) == Ok(p)
  {
    if p != [] {
      DecodeEncode(p[1..]);
      DecodeRecord(p[0], Encode(p[1..]));
      assert [p[0]] + p[1..] == p;
    }
  }

  /** A stream that decodes is exactly as long as the encoding of what it decodes to, so
      it is made of whole records and has an even length. */
  lemma {:induction false} DecodedLength(bytes: seq<u8>)
    requires Decode(bytes).Ok?
    ensures |bytes| == |Encode(Decode(bytes).value)|
    ensures |bytes| % 2 == 0
    decreases |bytes|
  {
    if bytes != [] {
      var p := Decode(bytes).value;
      var size := if U8RequiresValue(bytes[1]) then 4 else 2;
      var rest := bytes[size..];
      assert Decode(rest).Ok? && p == [p[0]] + Decode(rest).value;
      DecodedLength(rest);
      RecordLength(bytes, p[0]);
      assert p[1..] == Decode(rest).value;
      assert Encode(p) == EncodeInstruction(p[0]) + Encode(p[1..]);
    }
  }

  /** The first record of a stream is as long as the encoding of what it decodes to. */
  lemma RecordLength(bytes: seq<u8>, i: Instruction)
    requires |bytes| >= 2 && (U8RequiresValue(bytes[1]) ==> |bytes| >= 4)
    requires FromU8(bytes[0], bytes[1], if U8RequiresValue(bytes[1]) then Some(FromBeBytes(bytes[2], bytes[3])) else None) == Ok(i)
    ensures |EncodeInstruction(i)| == if U8RequiresValue(bytes[1]) then 4 else 2
  {
    OpcodeTablesAgree(i);
    EncodeInstructionShape(i);
  }

  /** The empty stream is the empty program; a stream may not stop inside a record; an
      operand is read big-endian. */
  lemma DecodeBoundaries(bytes: seq<u8>)
    ensures bytes == [] ==> Decode(bytes) == Ok([])
    ensures |bytes| == 1 ==> Decode(bytes) == Err(TruncatedStream)
    ensures 2 <= |bytes| < 4 && U8RequiresValue(bytes[1]) ==> Decode(bytes) == Err(TruncatedStream)
    ensures |bytes| >= 4 && U8RequiresValue(bytes[1]) && Decode(bytes).Ok? ==>
      && FromBeBytes(bytes[2], bytes[3]) == bytes[2] as int * 0x100 + bytes[3] as int
      && Decode(bytes).value[0] == FromU8(bytes[0], bytes[1], Some(FromBeBytes(bytes[2], bytes[3]))).value
  {
  }

  /** The compiler followed by the binary front end gives the program back. */
  method CompileAndLoad(p: seq<Instruction>) returns (r: Result<seq<Instruction>, CodecError>)
    ensures r == Ok(p)
  {
    var bytes := Compile(p);
    r := LexBin(bytes);
    DecodeEncode(p);
  }

  /** As written, `lex_bin` decodes the lone byte 0x07 as OUT, reading the opcode from the
      untouched second byte of its buffer; the corrected decoder rejects it. */
  lemma LoneByteAsWritten()
    ensures DecodeAsWritten([0x07], (0x00, 0x00)) == Ok([Output])
    ensures Decode([0x07]) == Err(TruncatedStream)
  {
    var bytes: seq<u8> := [0x07];
    assert FromU8(0x07, 0x00, None) == Ok(Output);
    assert DecodeAsWritten([], (0x07, 0x00)) == Ok([]);
    assert [Output] + [] == [Output];
  }

  /** After a whole program, a trailing byte is still decoded by the code as written:
      with `[0x00, 0x05, 0x00, 0x00]` (SEA 0x0000) before it, the stale byte is 0x00. */
  lemma TrailingByteAsWritten()
    ensures DecodeAsWritten([0x00, 0x05, 0x00, 0x00, 0x07], (0x00, 0x00)) == Ok([SetAddress(Literal(0)), Output])
    ensures Decode([0x00, 0x05, 0x00, 0x00, 0x07]) == Err(TruncatedStream)
  {
    var bytes: seq<u8> := [0x00, 0x05, 0x00, 0x00, 0x07];
    assert bytes[2..] == [0x00, 0x00, 0x07];
    assert bytes[2..][2..] == [0x07];
    assert bytes[4..] == [0x07];
    assert FromU8(0x00, 0x05, Some(FromBeBytes(0x00, 0x00))) == Ok(SetAddress(Literal(0)));
    LoneByteAsWritten();
    assert DecodeAsWritten([0x07], (0x00, 0x00)) == Ok([Output]);
    assert [SetAddress(Literal(0))] + [Output] == [SetAddress(Literal(0)), Output];
  }

  /** Wherever the corrected decoder succeeds, the code as written gives the same program,
      whatever the buffer held before. */
  lemma {:induction false} AsWrittenAgrees(bytes: seq<u8>, buffer: (u8, u8))
    requires Decode(bytes).Ok?
    ensures DecodeAsWritten(bytes, buffer) == Decode(bytes)
    decreases |bytes|
  {
    if bytes != [] {
      var header := (bytes[0], bytes[1]);
      if U8RequiresValue(bytes[1]) {
        assert bytes[2..][2..] == bytes[4..];
        AsWrittenAgrees(bytes[4..], (bytes[2], bytes[3]));
      } else {
        AsWrittenAgrees(bytes[2..], header);
      }
    }
  }
}
