/**
 * The JASM instruction set: operands, the 21 instruction variants, the opcode
 * table in both directions, the mnemonic table and operand resolution.
 */
module Instructions {
  import opened Base

  /** An operand: a constant, or a memory index dereferenced at execution time. */
  datatype Value = Literal(word: u16) | Address(word: u16)

  datatype Instruction =
    | Output | CharacterOutput | CharacterInput | Dump | Return
    | SetAddress(operand: Value) | SetValue(operand: Value)
    | Add(operand: Value) | Subtract(operand: Value)
    | Multiply(operand: Value) | Divide(operand: Value)
    | Label(operand: Value) | Compare(operand: Value)
    | GreaterThan(operand: Value) | LessThan(operand: Value)
    | GreaterThanEqual(operand: Value) | LessThanEqual(operand: Value)
    | BranchIfNotEqual(operand: Value) | BranchIfEqual(operand: Value)
    | Jump(operand: Value) | Exit(operand: Value)

  /** Failures of the text lexer (the Rust code reports them through `anyhow` or panics). */
  datatype LexError =
    | UnknownMnemonic(token: string)
    | MissingOperand(mnemonic: string)
    | UnknownNumberFormat(token: string)
    | InvalidNumber(digits: string)
    | NoTokens

  /** Failures of the binary decoder. */
  datatype CodecError =
    | UnknownOpcode(opcode: u8)
    | MissingValue(opcode: u8)
    | TruncatedStream

  /** Whether an opcode byte is followed by a two-byte operand in the binary format. */
  function U8RequiresValue(opcode: u8): (r: bool)
    ensures r <==> opcode > 0x04
  {
    match opcode
    case 0x00 => false
    case 0x01 => false
    case 0x02 => false
    case 0x03 => false
    case 0x04 => false
    case _ => true
  }

  /** Whether an instruction carries an operand. */
  function RequiresValue(i: Instruction): (r: bool)
    ensures r <==> U8RequiresValue(ToU8(i))
  {
    match i
    case Output => false
    case CharacterOutput => false
    case CharacterInput => false
    case Dump => false
    case Return => false
    case _ => true
  }

  /** The operand of a value-carrying instruction (the Rust code panics on the others). */
  function GetValue(i: Instruction): (v: Value)
    requires RequiresValue(i)
    ensures FromU8(if v.Address? then 0x10 else 0x00, ToU8(i), Some(v.word)) == Ok(i)
  {
    i.operand
  }

  /** The opcode byte of an instruction. */
  function ToU8(i: Instruction): (opcode: u8)
    ensures opcode <= 0x14
  {
    match i
    case Output => 0x00
    case CharacterOutput => 0x01
    case CharacterInput => 0x02
    case Dump => 0x03
    case Return => 0x04
    case SetAddress(_) => 0x05
    case SetValue(_) => 0x06
    case Add(_) => 0x07
    case Subtract(_) => 0x08
    case Multiply(_) => 0x09
    case Divide(_) => 0x0A
    case Label(_) => 0x0B
    case Compare(_) => 0x0C
    case GreaterThan(_) => 0x0D
    case LessThan(_) => 0x0E
    case GreaterThanEqual(_) => 0x0F
    case LessThanEqual(_) => 0x10
    case BranchIfNotEqual(_) => 0x11
    case BranchIfEqual(_) => 0x12
    case Jump(_) => 0x13
    case Exit(_) => 0x14
  }

  /**
   * Decodes a record header `[mode, opcode]` and an optional raw operand into an
   * instruction. A nonzero mode byte makes the operand an Address.
   */
  function FromU8(mode: u8, opcode: u8, raw: Option<u16>): (r: Result<Instruction, CodecError>)
    ensures r.Ok? ==> ToU8(r.value) == opcode
  {
    var value: Option<Value> :=
      if raw.Some? then Some(if mode > 0x00 then Address(raw.value) else Literal(raw.value)) else None;
    match opcode
    case 0x00 => Ok(Output)
    case 0x01 => Ok(CharacterOutput)
    case 0x02 => Ok(CharacterInput)
    case 0x03 => Ok(Dump)
    case 0x04 => Ok(Return)
    case 0x05 => if value.None? then Err(MissingValue(opcode)) else Ok(SetAddress(value.value))
    case 0x06 => if value.None? then Err(MissingValue(opcode)) else Ok(SetValue(value.value))
    case 0x07 => if value.None? then Err(MissingValue(opcode)) else Ok(Add(value.value))
    case 0x08 => if value.None? then Err(MissingValue(opcode)) else Ok(Subtract(value.value))
    case 0x09 => if value.None? then Err(MissingValue(opcode)) else Ok(Multiply(value.value))
    case 0x0A => if value.None? then Err(MissingValue(opcode)) else Ok(Divide(value.value))
    case 0x0B => if value.None? then Err(MissingValue(opcode)) else Ok(Label(value.value))
    case 0x0C => if value.None? then Err(MissingValue(opcode)) else Ok(Compare(value.value))
    case 0x0D => if value.None? then Err(MissingValue(opcode)) else Ok(GreaterThan(value.value))
    case 0x0E => if value.None? then Err(MissingValue(opcode)) else Ok(LessThan(value.value))
    case 0x0F => if value.None? then Err(MissingValue(opcode)) else Ok(GreaterThanEqual(value.value))
    case 0x10 => if value.None? then Err(MissingValue(opcode)) else Ok(LessThanEqual(value.value))
    case 0x11 => if value.None? then Err(MissingValue(opcode)) else Ok(BranchIfNotEqual(value.value))
    case 0x12 => if value.None? then Err(MissingValue(opcode)) else Ok(BranchIfEqual(value.value))
    case 0x13 => if value.None? then Err(MissingValue(opcode)) else Ok(Jump(value.value))
    case 0x14 => if value.None? then Err(MissingValue(opcode)) else Ok(Exit(value.value))
    case _ => Err(UnknownOpcode(opcode))
  }

  /** The 21 mnemonics of the text format. */
  const MNEMONICS: set<string> := {
    "OUT", "CUT", "CIN", "DMP", "RTN", "SEA", "SET", "ADD", "SUB", "MUL", "DIV",
    "LAB", "CEQ", "GTN", "LTN", "GTE", "LTE", "BNE", "BEQ", "JMP", "EXT"
  }

  /** The three-letter mnemonic of each variant, the inverse direction of `FromString`. */
  function Mnemonic(i: Instruction): (s: string)
    ensures |s| == 3 && s in MNEMONICS
  {
    match i
    case Output => "OUT"
    case CharacterOutput => "CUT"
    case CharacterInput => "CIN"
    case Dump => "DMP"
    case Return => "RTN"
    case SetAddress(_) => "SEA"
    case SetValue(_) => "SET"
    case Add(_) => "ADD"
    case Subtract(_) => "SUB"
    case Multiply(_) => "MUL"
    case Divide(_) => "DIV"
    case Label(_) => "LAB"
    case Compare(_) => "CEQ"
    case GreaterThan(_) => "GTN"
    case LessThan(_) => "LTN"
    case GreaterThanEqual(_) => "GTE"
    case LessThanEqual(_) => "LTE"
    case BranchIfNotEqual(_) => "BNE"
    case BranchIfEqual(_) => "BEQ"
    case Jump(_) => "JMP"
    case Exit(_) => "EXT"
  }

  /**
   * Looks a mnemonic up in the table of the 21 names; a value-carrying mnemonic
   * without an operand fails (the Rust code panics there).
   */
  function FromString(s: string, value: Option<Value>): (r: Result<Instruction, LexError>)
    ensures r.Ok? ==> Mnemonic(r.value) == s
    ensures r.Ok? && RequiresValue(r.value) ==> value == Some(GetValue(r.value))
    ensures r.Err? ==> r.error == UnknownMnemonic(s) || r.error == MissingOperand(s)
  {
    match s
    case "OUT" => Ok(Output)
    case "CUT" => Ok(CharacterOutput)
    case "CIN" => Ok(CharacterInput)
    case "DMP" => Ok(Dump)
    case "RTN" => Ok(Return)
    case "SEA" => if value.None? then Err(MissingOperand(s)) else Ok(SetAddress(value.value))
    case "SET" => if value.None? then Err(MissingOperand(s)) else Ok(SetValue(value.value))
    case "ADD" => if value.None? then Err(MissingOperand(s)) else Ok(Add(value.value))
    case "SUB" => if value.None? then Err(MissingOperand(s)) else Ok(Subtract(value.value))
    case "MUL" => if value.None? then Err(MissingOperand(s)) else Ok(Multiply(value.value))
    case "DIV" => if value.None? then Err(MissingOperand(s)) else Ok(Divide(value.value))
    case "LAB" => if value.None? then Err(MissingOperand(s)) else Ok(Label(value.value))
    case "CEQ" => if value.None? then Err(MissingOperand(s)) else Ok(Compare(value.value))
    case "GTN" => if value.None? then Err(MissingOperand(s)) else Ok(GreaterThan(value.value))
    case "LTN" => if value.None? then Err(MissingOperand(s)) else Ok(LessThan(value.value))
    case "GTE" => if value.None? then Err(MissingOperand(s)) else Ok(GreaterThanEqual(value.value))
    case "LTE" => if value.None? then Err(MissingOperand(s)) else Ok(LessThanEqual(value.value))
    case "BNE" => if value.None? then Err(MissingOperand(s)) else Ok(BranchIfNotEqual(value.value))
    case "BEQ" => if value.None? then Err(MissingOperand(s)) else Ok(BranchIfEqual(value.value))
    case "JMP" => if value.None? then Err(MissingOperand(s)) else Ok(Jump(value.value))
    case "EXT" => if value.None? then Err(MissingOperand(s)) else Ok(Exit(value.value))
    case _ => Err(UnknownMnemonic(s))
  }

  /**
   * Resolves an operand against memory: a Literal is itself, an Address is the
   * content of that cell; None when the cell does not exist (a Rust index panic).
   */
  function GetLiteralValue(v: Value, memory: seq<u16>): (r: Option<u16>)
    ensures v.Literal? ==> r == Some(v.word)
    ensures v.Address? ==> (r.Some? <==> v.word < |memory|)
    ensures r.Some? && v.Address? ==> r.value == memory[v.word]
  {
    match v
    case Literal(literal) => Some(literal)
    case Address(address) => if address < |memory| then Some(memory[address]) else None
  }

  // ---------------------------------------------------------------------------
  // Laws of the tables

  /** Exactly the five console/return variants carry no operand. */
  lemma RequiresValueExactly(i: Instruction)
    ensures !RequiresValue(i) <==> i in {Output, CharacterOutput, CharacterInput, Dump, Return}
  {
  }

  /** The byte-level and the variant-level "requires value" tables agree, and the
      value-less variants are exactly the opcodes 0x00 to 0x04. */
  lemma OpcodeTablesAgree(i: Instruction)
    ensures U8RequiresValue(ToU8(i)) == RequiresValue(i)
    ensures ToU8(i) <= 0x04 <==> !RequiresValue(i)
  {
  }

  /** Two instructions with the same opcode and the same operand are equal. */
  lemma ToU8Injective(i: Instruction, j: Instruction)
    requires ToU8(i) == ToU8(j)
    ensures RequiresValue(i) == RequiresValue(j)
    ensures !RequiresValue(i) ==> i == j
    ensures RequiresValue(i) ==> (i == j <==> GetValue(i) == GetValue(j))
  {
    OpcodeTablesAgree(i);
    OpcodeTablesAgree(j);
    if RequiresValue(i) {
      var v, w := GetValue(i), GetValue(j);
      if v == w {
        var mode := if v.Address? then 0x10 else 0x00;
        assert FromU8(mode, ToU8(i), Some(v.word)) == Ok(i);
        assert FromU8(mode, ToU8(j), Some(w.word)) == Ok(j);
      }
    }
  }

  /** Every opcode byte 0x00 to 0x14 is the opcode of some instruction. */
  lemma ToU8Onto(opcode: u8)
    requires opcode <= 0x14
    ensures exists i :: ToU8(i) == opcode
  {
    var r := FromU8(0x00, opcode, Some(0));
    assert r.Ok?;
    assert ToU8(r.value) == opcode;
  }

  /**
   * Decoding the header `[mode, ToU8(i)]` with i's operand gives back i, when the
   * mode byte is nonzero exactly for an Address operand; for value-less
   * instructions the mode byte is ignored.
   */
  lemma FromU8Inverse(i: Instruction, mode: u8)
    requires RequiresValue(i) ==> (mode > 0x00 <==> GetValue(i).Address?)
    ensures FromU8(mode, ToU8(i), if RequiresValue(i) then Some(GetValue(i).word) else None) == Ok(i)
  {
  }

  /** Which headers decode: known opcodes, with an operand exactly when one is required. */
  lemma FromU8Accepts(mode: u8, opcode: u8, raw: Option<u16>)
    ensures FromU8(mode, opcode, raw).Ok? <==> opcode <= 0x14 && (U8RequiresValue(opcode) ==> raw.Some?)
    ensures opcode > 0x14 ==> FromU8(mode, opcode, raw) == Err(UnknownOpcode(opcode))
    ensures opcode <= 0x14 && U8RequiresValue(opcode) && raw.None? ==>
              FromU8(mode, opcode, raw) == Err(MissingValue(opcode))
  {
  }

  /**
   * The mnemonic table inverts `Mnemonic`: a value-carrying mnemonic with its
   * operand gives back the instruction, and a value-less one ignores whatever
   * operand is supplied.
   */
  lemma FromStringInverse(i: Instruction, value: Option<Value>)
    requires RequiresValue(i) ==> value == Some(GetValue(i))
    ensures FromString(Mnemonic(i), value) == Ok(i)
  {
  }

  /** A value-carrying mnemonic without an operand fails. */
  lemma FromStringMissingOperand(i: Instruction)
    requires RequiresValue(i)
    ensures FromString(Mnemonic(i), None) == Err(MissingOperand(Mnemonic(i)))
  {
  }

  /** A string is rejected as an unknown mnemonic exactly when it is none of the 21 names. */
  lemma FromStringUnknown(s: string, value: Option<Value>)
    ensures FromString(s, value) == Err(UnknownMnemonic(s)) <==> s !in MNEMONICS
  {
  }

  /** The 21 names are exactly the mnemonics of the variants. */
  lemma MnemonicsOnto(s: string)
    requires s in MNEMONICS
    ensures exists i :: Mnemonic(i) == s
  {
    var r := FromString(s, Some(Literal(0)));
    assert r.Ok?;
  }
}
