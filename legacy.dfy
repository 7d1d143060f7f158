/**
 * The older front end and engine in `main.rs`: the same line lexer over a
 * table of 16 mnemonics, and the engine over exactly 65535 cells whose CIN
 * reads a byte from standard input.
 */
module Legacy {
  import opened Base
  import opened Instructions
  import Lexer
  import Interpreter

  /** The five mnemonics the older front end does not know. */
  const MISSING: set<string> := {"GTN", "LTN", "GTE", "LTE", "EXT"}

  /** The mnemonic `match` of `main`: 16 names; a value-carrying one without an operand fails. */
  function FromStringLegacy(s: string, value: Option<Value>): (r: Result<Instruction, LexError>)
    ensures r.Ok? ==> Mnemonic(r.value) == s && s !in MISSING
  {
    match s
    case "OUT" => Ok(Output)
    case "CUT" => Ok(CharacterOutput)
    case "CIN" => Ok(CharacterInput)
    case "DMP" => Ok(Dump)
    case "RTN" => Ok(Return)
    case "SEA" => if value.None? then Err(MissingOperand(s)) else Ok(SetAddress(value.value))
    case "SET" => if value.None? then Err(MissingOperand(s)) else Ok(SetValue(value.value))
    case "ADD" => if value.None? then Err(MissingOperand(s)) else Ok(Add(value.value))
    case "SUB" => if value.None? then Err(MissingOperand(s)) else Ok(Subtract(value.value))
    case "MUL" => if value.None? then Err(MissingOperand(s)) else Ok(Multiply(value.value))
    case "DIV" => if value.None? then Err(MissingOperand(s)) else Ok(Divide(value.value))
    case "LAB" => if value.None? then Err(MissingOperand(s)) else Ok(Label(value.value))
    case "CEQ" => if value.None? then Err(MissingOperand(s)) else Ok(Compare(value.value))
    case "BNE" => if value.None? then Err(MissingOperand(s)) else Ok(BranchIfNotEqual(value.value))
    case "BEQ" => if value.None? then Err(MissingOperand(s)) else Ok(BranchIfEqual(value.value))
    case "JMP" => if value.None? then Err(MissingOperand(s)) else Ok(Jump(value.value))
    case _ => Err(UnknownMnemonic(s))
  }

  /** The older table is the newer one without GTN, LTN, GTE, LTE and EXT. */
  lemma LegacyTableAgrees(s: string, value: Option<Value>)
    ensures s in MISSING ==> FromStringLegacy(s, value) == Err(UnknownMnemonic(s))
    ensures s !in MISSING ==> FromStringLegacy(s, value) == FromString(s, value)
  {
  }

  /** The lexing loop of `main`. */
  method LexMain(lines: seq<string>) returns (r: Result<seq<Instruction>, LexError>)
    ensures r == Lexer.LexText(lines, FromStringLegacy)
  {
    r := Lexer.LexSource(lines, FromStringLegacy);
  }

  /** A line the older front end accepts is lexed the same way by `lex_str`. */
  lemma LineAgrees(line: string)
    requires Lexer.LexLine(line, FromStringLegacy).Ok?
    ensures Lexer.LexLine(line, FromString) == Lexer.LexLine(line, FromStringLegacy)
  {
    var cleaned := Lexer.Clean(line);
    if !Lexer.IsBlank(cleaned) {
      var tokens := Lexer.SplitWhitespace(cleaned);
      TokensAgree(tokens);
    }
  }

  lemma TokensAgree(tokens: seq<string>)
    requires Lexer.LexTokens(tokens, FromStringLegacy).Ok?
    ensures Lexer.LexTokens(tokens, FromString) == Lexer.LexTokens(tokens, FromStringLegacy)
  {
    var value := if |tokens| > 1 then Lexer.OptionalOperand(tokens[1]) else Ok(None);
    LegacyTableAgrees(tokens[0], value.value);
  }

  /** Every source the older front end accepts, `lex_str` accepts too, with the same program. */
  lemma LexerAgrees(lines: seq<string>)
    requires Lexer.LexText(lines, FromStringLegacy).Ok?
    ensures Lexer.LexText(lines, FromString) == Lexer.LexText(lines, FromStringLegacy)
  {
    Lexer.LexTextOk(lines, FromStringLegacy);
    var older := Lexer.LexLines(lines, FromStringLegacy);
    var newer := Lexer.LexLines(lines, FromString);
    forall k | 0 <= k < |lines| ensures newer[k] == older[k] {
      Lexer.LexLinesIndex(lines, FromStringLegacy, k);
      Lexer.LexLinesIndex(lines, FromString, k);
      LineAgrees(lines[k]);
    }
    assert newer == older;
  }

  /** `interpret` of `main`, on its `[0u16; 65535]` memory with standard input as bytes. */
  method InterpretMain(p: seq<Instruction>, input: seq<u8>, fuel: nat)
    returns (status: Interpreter.Status, output: seq<Interpreter.Token>)
    ensures status == Interpreter.Execute(Interpreter.Legacy, p, Interpreter.Labels(p), Interpreter.Initial(Interpreter.MIN_CELLS, input), fuel).status
    ensures output == Interpreter.Execute(Interpreter.Legacy, p, Interpreter.Labels(p), Interpreter.Initial(Interpreter.MIN_CELLS, input), fuel).final.output
  {
    status, output := Interpreter.Interpret(Interpreter.Legacy, p, Interpreter.MIN_CELLS, input, fuel);
  }
}
