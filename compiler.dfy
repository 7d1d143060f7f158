/**
 * The binary encoder: each instruction becomes a record `[mode, opcode]`,
 * followed by the operand in big-endian order when the instruction carries one.
 */
module Compiler {
  import opened Base
  import opened Instructions

  /** The mode byte of a value-carrying record: 0x00 for a Literal, 0x10 for an Address. */
  function ModeByte(v: Value): (mode: u8)
    ensures mode > 0x00 <==> v.Address?
  {
    match v
    case Literal(_) => 0x00
    case Address(_) => 0x10
  }

  /** The two operand bytes `(v >> 8) as u8` and `v as u8`, high byte first. */
  function ValueBytes(v: Value): (bytes: seq<u8>)
    ensures |bytes| == 2 && bytes[0] as int * 0x100 + bytes[1] as int == v.word
  {
    [v.word / 0x100, v.word % 0x100]
  }

  /** The record an instruction is encoded as. */
  function EncodeInstruction(i: Instruction): (e: seq<u8>)
    ensures |e| == (if RequiresValue(i) then 4 else 2)
  {
    if RequiresValue(i) then [ModeByte(GetValue(i)), ToU8(i)] + ValueBytes(GetValue(i))
    else [0x00, ToU8(i)]
  }

  /** The byte stream of a whole program: its records in program order. */
  function Encode(p: seq<Instruction>): (bytes: seq<u8>)
    ensures |bytes| % 2 == 0 && 2 * |p| <= |bytes| <= 4 * |p|
  {
    if p == [] then [] else EncodeInstruction(p[0]) + Encode(p[1..])
  }

  /** The number of instructions of `p` that carry an operand. */
  function CountValued(p: seq<Instruction>): (n: nat)
    ensures n <= |p|
  {
    if p == [] then 0 else (if RequiresValue(p[0]) then 1 else 0) + CountValued(p[1..])
  }

  /** `push_instruction_with_value`: appends the mode byte and the opcode byte. */
  method PushInstructionWithValue(compiled: seq<u8>, instruction: Instruction) returns (r: seq<u8>)
    requires RequiresValue(instruction)
    ensures r == compiled + [ModeByte(GetValue(instruction)), ToU8(instruction)]
  {
    var value := GetValue(instruction);
    r := compiled + [match value case Literal(_) => 0x00 case Address(_) => 0x10];
    r := r + [ToU8(instruction)];
  }

  /** `push_value`: appends the operand, high byte first. */
  method PushValue(compiled: seq<u8>, value: Value) returns (r: seq<u8>)
    ensures r == compiled + ValueBytes(value)
  {
    r := compiled + [value.word / 0x100];
    r := r + [value.word % 0x100];
  }

  /** `compile`: appends one record per instruction; it cannot fail. */
  method Compile(instructions: seq<Instruction>) returns (compiled: seq<u8>)
    ensures compiled == Encode(instructions)
  {
    compiled := [];
    for k := 0 to |instructions|
      invariant compiled == Encode(instructions[..k])
    {
      var instruction := instructions[k];
      if RequiresValue(instruction) {
        compiled := PushInstructionWithValue(compiled, instruction);
        compiled := PushValue(compiled, GetValue(instruction));
      } else {
        compiled := compiled + [0x00];
        compiled := compiled + [ToU8(instruction)];
      }
      EncodeAppend(instructions[..k], [instruction]);
      assert instructions[..k + 1] == instructions[..k] + [instruction];
    }
    assert instructions[..|instructions|] == instructions;
  }

  // ---------------------------------------------------------------------------
  // Laws of the encoder

  /** A value-less instruction is the two bytes `[0x00, opcode]`; a value-carrying
      one is four bytes `[mode, opcode, hi, lo]` with `hi * 256 + lo` its operand. */
  lemma EncodeInstructionShape(i: Instruction)
    ensures !RequiresValue(i) ==> EncodeInstruction(i) == [0x00, ToU8(i)]
    ensures RequiresValue(i) ==>
      var e := EncodeInstruction(i);
      && |e| == 4 && e[1] == ToU8(i)
      && (e[0] == 0x00 <==> GetValue(i).Literal?)
      && (e[0] == 0x10 <==> GetValue(i).Address?)
      && e[2] as int * 0x100 + e[3] as int == GetValue(i).word
  {
  }

  /** Encoding is compositional: the stream of `p + q` is that of `p` then that of `q`. */
  lemma {:induction false} EncodeAppend(p: seq<Instruction>, q: seq<Instruction>)
    ensures Encode(p + q) == Encode(p) + Encode(q)
  {
    if p == [] {
      assert p + q == q;
    } else {
      assert (p + q)[1..] == p[1..] + q;
      EncodeAppend(p[1..], q);
    }
  }

  /** The stream has 2 bytes per value-less and 4 bytes per value-carrying instruction. */
  lemma {:induction false} EncodeLength(p: seq<Instruction>)
    ensures |Encode(p)| == 2 * (|p| - CountValued(p)) + 4 * CountValued(p)
  {
    if p != [] {
      EncodeLength(p[1..]);
    }
  }
}
