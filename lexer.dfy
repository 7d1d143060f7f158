/**
 * The two front ends of the interpreter: the line-oriented text lexer
 * (`lex_str`) and the binary decoder (`lex_bin`). Source text is given as a
 * sequence of lines and a binary program as a sequence of bytes.
 */
module Lexer {
  import opened Base
  import opened Instructions

  // ---------------------------------------------------------------------------
  // Characters and strings

  /** Rust's `char::is_whitespace`, the Unicode White_Space property. */
  predicate IsWhitespace(c: char) {
    || c == ' ' || ('\t' <= c <= '\r') || c == '\U{85}' || c == '\U{A0}' || c == '\U{1680}'
    || ('\U{2000}' <= c <= '\U{200A}') || c == '\U{2028}' || c == '\U{2029}'
    || c == '\U{202F}' || c == '\U{205F}' || c == '\U{3000}'
  }

  /** `s.trim().is_empty()`: the string holds nothing but whitespace. */
  predicate IsBlank(s: string) {
    forall k :: 0 <= k < |s| ==> IsWhitespace(s[k])
  }

  /** `str::trim_start`: drops the leading whitespace and nothing else. */
  function TrimStart(s: string): (r: string)
    ensures |r| <= |s| && r == s[|s| - |r|..]
    ensures IsBlank(s[..|s| - |r|])
    ensures r == [] || !IsWhitespace(r[0])
  {
    if s != [] && IsWhitespace(s[0]) then
      var r := TrimStart(s[1..]);
      assert s[..|s| - |r|] == [s[0]] + s[1..][..|s[1..]| - |r|];
      r
    else
      s
  }

  /** The index of the first `;` of `s`, or `|s|` when there is none. */
  function CommentStart(s: string): (n: nat)
    ensures n <= |s| && ';' !in s[..n]
    ensures n < |s| ==> s[n] == ';'
  {
    if s == [] || s[0] == ';' then 0
    else
      var n := CommentStart(s[1..]);
      assert s[..n + 1] == [s[0]] + s[1..][..n];
      n + 1
  }

  /** What the `found_comment` filter keeps: everything before the first `;`. */
  function StripComment(s: string): string {
    s[..CommentStart(s)]
  }

  /** A line after leading whitespace and the comment are removed. */
  function Clean(line: string): (cleaned: string)
    ensures |cleaned| <= |line| && ';' !in cleaned
    ensures cleaned == [] || !IsWhitespace(cleaned[0])
  {
    StripComment(TrimStart(line))
  }

  /** The length of the leading run of non-whitespace characters. */
  function WordLength(s: string): (n: nat)
    ensures n <= |s|
    ensures forall k :: 0 <= k < n ==> !IsWhitespace(s[k])
    ensures n < |s| ==> IsWhitespace(s[n])
  {
    if s == [] || IsWhitespace(s[0]) then 0 else 1 + WordLength(s[1..])
  }

  /** `str::split_whitespace`: the maximal runs of non-whitespace characters, in order. */
  function SplitWhitespace(s: string): seq<string>
    decreases |s|
  {
    var t := TrimStart(s);
    if t == [] then []
    else
      var n := WordLength(t);
      [t[..n]] + SplitWhitespace(t[n..])
  }

  /** Every token of `split_whitespace` is non-empty and holds no whitespace. */
  lemma {:induction false} SplitWhitespaceTokens(s: string)
    ensures forall k | 0 <= k < |SplitWhitespace(s)| :: IsToken(SplitWhitespace(s)[k])
    decreases |s|
  {
    var t := TrimStart(s);
    if t != [] {
      var n := WordLength(t);
      SplitWhitespaceUnfold(s, t, n);
      WordHasNoWhitespace(t, n);
      SplitWhitespaceTokens(t[n..]);
      TokensCons(t[..n], SplitWhitespace(t[n..]));
    }
  }

  /** A token: non-empty, with no whitespace in it. */
  predicate IsToken(w: string) {
    w != [] && !HasWhitespace(w)
  }

  lemma TokensCons(w: string, rest: seq<string>)
    requires IsToken(w) && forall k | 0 <= k < |rest| :: IsToken(rest[k])
    ensures forall k | 0 <= k < |[w] + rest| :: IsToken(([w] + rest)[k])
  {
    assert forall k | 1 <= k < |[w] + rest| :: ([w] + rest)[k] == rest[k - 1];
  }

  lemma SplitWhitespaceUnfold(s: string, t: string, n: nat)
    requires t == TrimStart(s) && t != [] && n == WordLength(t)
    ensures SplitWhitespace(s) == [t[..n]] + SplitWhitespace(t[n..])
  {
  }

  lemma WordHasNoWhitespace(t: string, n: nat)
    requires t != [] && n == WordLength(t) && !IsWhitespace(t[0])
    ensures IsToken(t[..n])
  {
    assert forall k | 0 <= k < n :: t[..n][k] == t[k];
  }

  predicate HasWhitespace(s: string) {
    exists k :: 0 <= k < |s| && IsWhitespace(s[k])
  }

  predicate StartsWith(s: string, prefix: string) {
    |prefix| <= |s| && s[..|prefix|] == prefix
  }

  /** `str::trim_start_matches`: removes every leading repetition of `pattern`. */
  function TrimStartMatches(s: string, pattern: string): (r: string)
    requires pattern != []
    ensures |r| <= |s| && !StartsWith(r, pattern)
    decreases |s|
  {
    if StartsWith(s, pattern) then TrimStartMatches(s[|pattern|..], pattern) else s
  }

  // ---------------------------------------------------------------------------
  // Operands

  /** `char::to_digit`: the value of `c` as a digit of the given radix. */
  function DigitValue(c: char, radix: nat): (d: Option<nat>)
    ensures d.Some? ==> d.value < radix
  {
    var d :=
      if '0' <= c <= '9' then Some(c as int - '0' as int)
      else if 'a' <= c <= 'z' then Some(c as int - 'a' as int + 10)
      else if 'A' <= c <= 'Z' then Some(c as int - 'A' as int + 10)
      else None;
    if d.Some? && d.value < radix then d else None
  }

  predicate IsDigits(digits: string, radix: nat) {
    forall k :: 0 <= k < |digits| ==> DigitValue(digits[k], radix).Some?
  }

  /** The positional value of a digit string, most significant digit first. */
  function DigitsValue(digits: string, radix: nat): nat
    requires IsDigits(digits, radix)
  {
    if digits == [] then 0
    else DigitsValue(digits[..|digits| - 1], radix) * radix + DigitValue(digits[|digits| - 1], radix).value
  }

  /** `u16::from_str_radix`: one leading `+` is skipped when digits follow it; then empty
      input, a non-digit and a value above 0xFFFF fail. */
  function ParseRadix(digits: string, radix: nat): (r: Result<u16, LexError>)
    ensures r.Err? ==> r.error == InvalidNumber(digits)
  {
    var body := if |digits| > 1 && digits[0] == '+' then digits[1..] else digits;
    if body == [] || !IsDigits(body, radix) || DigitsValue(body, radix) > 0xFFFF then
      Err(InvalidNumber(digits))
    else
      Ok(DigitsValue(body, radix))
  }

  /**
   * The operand token of a line: leading `*`s mark an Address, then the text must
   * start with `0x` (hexadecimal) or `0b` (binary); every leading repetition of
   * the prefix is removed before the digits are read.
   */
  function ParseOperand(token: string): (r: Result<Value, LexError>)
    ensures r.Err? ==> r.error.UnknownNumberFormat? || r.error.InvalidNumber?
  {
    var isAddress := StartsWith(token, "*");
    var rest := TrimStartMatches(token, "*");
    if StartsWith(rest, "0x") then
      var n :- ParseRadix(TrimStartMatches(rest, "0x"), 16);
      Ok(if isAddress then Address(n) else Literal(n))
    else if StartsWith(rest, "0b") then
      var n :- ParseRadix(TrimStartMatches(rest, "0b"), 2);
      Ok(if isAddress then Address(n) else Literal(n))
    else
      Err(UnknownNumberFormat(rest))
  }

  /** `n` copies of `pattern`, one after the other. */
  function Repeat(pattern: string, n: nat): string {
    if n == 0 then [] else pattern + Repeat(pattern, n - 1)
  }

  // ---------------------------------------------------------------------------
  // Laws of the operand parser

  /** `trim_start_matches` removes leading copies of the pattern and nothing else: the
      input is some number of copies followed by the result. */
  lemma {:induction false} TrimStartMatchesCopies(s: string, pattern: string) returns (copies: nat)
    requires pattern != []
    ensures s == Repeat(pattern, copies) + TrimStartMatches(s, pattern)
    decreases |s|
  {
    if StartsWith(s, pattern) {
      var rest := s[|pattern|..];
      var n := TrimStartMatchesCopies(rest, pattern);
      TakeDrop(s, |pattern|);
      AppendAssoc(pattern, Repeat(pattern, n), TrimStartMatches(rest, pattern));
      copies := n + 1;
    } else {
      copies := 0;
      DropWhole([], s);
    }
  }

  /** Any number of leading copies of the pattern are all removed. */
  lemma {:induction false} TrimStartMatchesRepeat(pattern: string, n: nat, t: string)
    requires pattern != []
    ensures TrimStartMatches(Repeat(pattern, n) + t, pattern) == TrimStartMatches(t, pattern)
    decreases n
  {
    if n > 0 {
      var r := Repeat(pattern, n - 1) + t;
      TrimStartMatchesRepeat(pattern, n - 1, t);
      AppendAssoc(pattern, Repeat(pattern, n - 1), t);
      TrimStartMatchesStep(pattern, r);
    } else {
      assert Repeat(pattern, n) + t == t;
    }
  }

  /** One leading copy of the pattern is removed. */
  lemma TrimStartMatchesStep(pattern: string, t: string)
    requires pattern != []
    ensures TrimStartMatches(pattern + t, pattern) == TrimStartMatches(t, pattern)
  {
    TakeWhole(pattern, t);
    DropWhole(pattern, t);
  }

  /** `from_str_radix` rejects the empty string and a lone `+`. */
  lemma ParseRadixEmpty(radix: nat)
    ensures ParseRadix([], radix) == Err(InvalidNumber([]))
    ensures ParseRadix("+", radix) == Err(InvalidNumber("+"))
  {
    assert DigitValue('+', radix).None?;
  }

  /** A digit string of the radix is read as its positional value, and a value above
      0xFFFF overflows. */
  lemma ParseRadixDigits(digits: string, radix: nat)
    requires digits != [] && IsDigits(digits, radix)
    ensures ParseRadix(digits, radix) ==
      if DigitsValue(digits, radix) <= 0xFFFF then Ok(DigitsValue(digits, radix)) else Err(InvalidNumber(digits))
  {
    assert DigitValue(digits[0], radix).Some?;
  }

  /** A character that is not a digit of the radix is rejected, unless it is the one
      leading `+` in front of further characters. */
  lemma ParseRadixNonDigit(digits: string, radix: nat, k: nat)
    requires k < |digits| && DigitValue(digits[k], radix).None?
    requires k > 0 || digits[0] != '+' || |digits| == 1
    ensures ParseRadix(digits, radix) == Err(InvalidNumber(digits))
  {
    if |digits| > 1 && digits[0] == '+' {
      assert digits[1..][k - 1] == digits[k];
    }
  }

  /** Every number above 0xFFFF, written in the radix, overflows a `u16`. */
  lemma ParseRadixOverflow(n: nat, radix: nat)
    requires radix == 2 || radix == 16
    requires n > 0xFFFF
    ensures ParseRadix(ToDigits(n, radix), radix) == Err(InvalidNumber(ToDigits(n, radix)))
  {
    ParseRadixDigits(ToDigits(n, radix), radix);
  }

  /** Once the `*`s are trimmed, an operand that starts with neither `0x` nor `0b` is an
      UnknownNumberFormat error. */
  lemma ParseOperandUnknownFormat(token: string)
    requires !StartsWith(TrimStartMatches(token, "*"), "0x") && !StartsWith(TrimStartMatches(token, "*"), "0b")
    ensures ParseOperand(token) == Err(UnknownNumberFormat(TrimStartMatches(token, "*")))
  {
  }

  /** An accepted operand is an Address exactly when its token starts with `*`. */
  lemma ParseOperandKind(token: string)
    requires ParseOperand(token).Ok?
    ensures ParseOperand(token).value.Address? <==> StartsWith(token, "*")
  {
  }

  /** One or more copies of a two-character prefix start with that prefix. */
  lemma RepeatedPrefixStarts(prefix: string, copies: nat, digits: string)
    requires |prefix| == 2 && copies > 0
    ensures (Repeat(prefix, copies) + digits)[..2] == prefix
  {
    AppendAssoc(prefix, Repeat(prefix, copies - 1), digits);
    TakeWhole(prefix, Repeat(prefix, copies - 1) + digits);
  }

  /** Leading `*`s in front of a text that does not start with one: the `*` test and the trim. */
  lemma RepeatedStars(stars: nat, body: string)
    requires body != [] && body[0] != '*'
    ensures StartsWith(Repeat("*", stars) + body, "*") <==> stars > 0
    ensures TrimStartMatches(Repeat("*", stars) + body, "*") == body
  {
    TrimStartMatchesRepeat("*", stars, body);
    if stars > 0 {
      AppendAssoc("*", Repeat("*", stars - 1), body);
    } else {
      assert Repeat("*", stars) + body == body;
    }
  }

  /** Any number of `*`s, one or more copies of the radix prefix and a digit string in
      range: the value of the digits, an Address exactly when there was a `*`. */
  lemma ParseOperandPrefixed(stars: nat, copies: nat, digits: string, radix: nat)
    requires radix == 2 || radix == 16
    requires copies > 0 && digits != [] && IsDigits(digits, radix) && DigitsValue(digits, radix) <= 0xFFFF
    ensures
      var prefix := if radix == 16 then "0x" else "0b";
      var n := DigitsValue(digits, radix);
      ParseOperand(Repeat("*", stars) + (Repeat(prefix, copies) + digits)) == Ok(if stars > 0 then Address(n) else Literal(n))
  {
    var prefix := if radix == 16 then "0x" else "0b";
    var body := Repeat(prefix, copies) + digits;
    RepeatedPrefixStarts(prefix, copies, digits);
    RepeatedStars(stars, body);
    TrimStartMatchesRepeat(prefix, copies, digits);
    DigitsHaveNoPrefix(digits, radix);
    ParseRadixDigits(digits, radix);
    ParseOperandSteps(Repeat("*", stars) + body, stars > 0, body, radix, DigitsValue(digits, radix));
  }

  /** `0x0x10` is read as sixteen: every copy of the prefix is removed. */
  lemma RepeatedPrefixExample()
    ensures ParseOperand("0x0x10") == Ok(Literal(16))
  {
    assert "0x0x10" == Repeat("*", 0) + (Repeat("0x", 2) + "10");
    assert DigitsValue("10", 16) == 16 by {
      assert "10"[..1] == "1";
      assert "1"[..0] == "";
    }
    ParseOperandPrefixed(0, 2, "10", 16);
  }

  // ---------------------------------------------------------------------------
  // Lines and programs

  /** A mnemonic table: `Instruction::from_string`, or the smaller table of the older front end. */
  type MnemonicTable = (string, Option<Value>) -> Result<Instruction, LexError>

  /**
   * One source line: nothing for a blank line, otherwise the instruction named by
   * the first token, with the second token (when there is one) as its operand.
   */
  function LexLine(line: string, table: MnemonicTable): (r: Result<Option<Instruction>, LexError>)
    ensures r == Ok(None) <==> IsBlank(Clean(line))
  {
    LexCleaned(Clean(line), table)
  }

  /** A line once leading whitespace and the comment are gone. */
  function LexCleaned(cleaned: string, table: MnemonicTable): (r: Result<Option<Instruction>, LexError>)
    ensures r == Ok(None) <==> IsBlank(cleaned)
  {
    if IsBlank(cleaned) then Ok(None)
    else
      var instruction :- LexTokens(SplitWhitespace(cleaned), table);
      Ok(Some(instruction))
  }

  /** The tokens of a non-blank line: the first names the instruction, the second is
      its operand. The operand is parsed before the mnemonic is looked up; later
      tokens are ignored. */
  function LexTokens(tokens: seq<string>, table: MnemonicTable): (r: Result<Instruction, LexError>)
    ensures |tokens| > 1 && ParseOperand(tokens[1]).Err? ==> r == Err(ParseOperand(tokens[1]).error)
    ensures r.Ok? ==> |tokens| > 0
  {
    if |tokens| == 0 then Err(NoTokens)
    else
      var value :- if |tokens| > 1 then OptionalOperand(tokens[1]) else Ok(None);
      table(tokens[0], value)
  }

  /** The second token as an operand, or the error of its parse. */
  function OptionalOperand(token: string): (r: Result<Option<Value>, LexError>)
    ensures r.Ok? ==> r.value.Some?
    ensures r.Err? ==> r.error.UnknownNumberFormat? || r.error.InvalidNumber?
  {
    var v :- ParseOperand(token);
    Ok(Some(v))
  }

  /** The result of every line, in line order. */
  function LexLines(lines: seq<string>, table: MnemonicTable): (results: seq<Result<Option<Instruction>, LexError>>)
    ensures |results| == |lines|
  {
    if lines == [] then [] else [LexLine(lines[0], table)] + LexLines(lines[1..], table)
  }

  /** The instructions of a sequence of line results in order, or the first error. */
  function Collect(results: seq<Result<Option<Instruction>, LexError>>): (r: Result<seq<Instruction>, LexError>)
    ensures r.Ok? ==> |r.value| <= |results|
  {
    if results == [] then Ok([])
    else
      var first :- results[0];
      var rest :- Collect(results[1..]);
      Ok((if first.Some? then [first.value] else []) + rest)
  }

  /** A whole source text: the instructions of its lines in line order, or the
      error of the first line that fails. */
  function LexText(lines: seq<string>, table: MnemonicTable): (r: Result<seq<Instruction>, LexError>)
    ensures r.Ok? ==> |r.value| <= |lines|
  {
    Collect(LexLines(lines, table))
  }

  /** The number of lines that are not blank once leading whitespace and comments are removed. */
  function InstructionLines(lines: seq<string>): (n: nat)
    ensures n <= |lines|
  {
    if lines == [] then 0 else (if IsBlank(Clean(lines[0])) then 0 else 1) + InstructionLines(lines[1..])
  }

  // ---------------------------------------------------------------------------
  // The loops of `lex_str`

  /** `trim_start` followed by the `found_comment` filter over the characters. */
  method CleanLine(line: string) returns (cleaned: string)
    ensures cleaned == Clean(line)
  {
    var trimmed := TrimStart(line);
    var foundComment := false;
    cleaned := [];
    for k := 0 to |trimmed|
      invariant foundComment <==> CommentStart(trimmed) < k
      invariant cleaned == trimmed[..if foundComment then CommentStart(trimmed) else k]
    {
      if trimmed[k] == ';' {
        foundComment := true;
      }
      if !foundComment {
        cleaned := cleaned + [trimmed[k]];
      }
    }
  }

  /** The line loop of `lex_str`, over any mnemonic table. */
  method LexSource(lines: seq<string>, table: MnemonicTable) returns (r: Result<seq<Instruction>, LexError>)
    ensures r == LexText(lines, table)
  {
    var instructions: seq<Instruction> := [];
    assert lines[0..] == lines;
    PrefixedNothing(LexText(lines, table));
    for k := 0 to |lines|
      invariant LexText(lines, table) == Prefixed(instructions, LexText(lines[k..], table))
    {
      LexTextUnfold(lines, k, table);
      var line := CleanLine(lines[k]);
      if IsBlank(line) {
        assert LexLine(lines[k], table) == Ok(None);
        continue;
      }
      var instruction := LexLineTokens(SplitWhitespace(line), table);
      if instruction.Err? {
        assert LexLine(lines[k], table) == Err(instruction.error);
        return Err(instruction.error);
      }
      assert LexLine(lines[k], table) == Ok(Some(instruction.value));
      PrefixedAppend(instructions, [instruction.value], LexText(lines[k + 1..], table));
      instructions := instructions + [instruction.value];
    }
    assert lines[|lines|..] == [] && instructions + [] == instructions;
    r := Ok(instructions);
  }

  /** The operand branch of `lex_str` as statements: `is_address`, the `*`-trimmed token and
      the radix prefixes, with each `?` written out as an early return. `ParseOperand` is
      the same computation as one expression. */
  method LexOperand(token: string) returns (r: Result<Value, LexError>)
    ensures r == ParseOperand(token)
  {
    var token := token;
    var isAddress := StartsWith(token, "*");
    token := TrimStartMatches(token, "*");
    if StartsWith(token, "0x") {
      var hex := ParseRadix(TrimStartMatches(token, "0x"), 16);
      if hex.Err? {
        return Err(hex.error);
      }
      r := Ok(if isAddress then Address(hex.value) else Literal(hex.value));
    } else if StartsWith(token, "0b") {
      var bin := ParseRadix(TrimStartMatches(token, "0b"), 2);
      if bin.Err? {
        return Err(bin.error);
      }
      r := Ok(if isAddress then Address(bin.value) else Literal(bin.value));
    } else {
      r := Err(UnknownNumberFormat(token));
    }
  }

  /** The token branch of `lex_str` as statements: operand first, then the mnemonic, with
      each `?` written out as an early return. `LexTokens` is the same computation as one
      expression. */
  method LexLineTokens(tokens: seq<string>, table: MnemonicTable) returns (r: Result<Instruction, LexError>)
    ensures r == LexTokens(tokens, table)
  {
    if |tokens| == 0 {
      return Err(NoTokens);
    }
    var value: Option<Value> := None;
    if |tokens| > 1 {
      var operand := LexOperand(tokens[1]);
      if operand.Err? {
        return Err(operand.error);
      }
      value := Some(operand.value);
    }
    r := table(tokens[0], value);
  }

  /** `lex_str` over the lines of a source file. */
  method LexStr(lines: seq<string>) returns (r: Result<seq<Instruction>, LexError>)
    ensures r == LexText(lines, FromString)
  {
    r := LexSource(lines, FromString);
  }

  /** `acc` in front of the instructions of `r`; an error is passed through. */
  function Prefixed<E>(acc: seq<Instruction>, r: Result<seq<Instruction>, E>): Result<seq<Instruction>, E> {
    match r
    case Ok(p) => Ok(acc + p)
    case Err(e) => Err(e)
  }

  lemma PrefixedNothing<E>(r: Result<seq<Instruction>, E>)
    ensures Prefixed([], r) == r
  {
    if r.Ok? {
      assert [] + r.value == r.value;
    }
  }

  lemma PrefixedAppend<E>(a: seq<Instruction>, b: seq<Instruction>, r: Result<seq<Instruction>, E>)
    ensures Prefixed(a, Prefixed(b, r)) == Prefixed(a + b, r)
  {
    if r.Ok? {
      assert a + (b + r.value) == (a + b) + r.value;
    }
  }

  lemma LexTextUnfold(lines: seq<string>, k: nat, table: MnemonicTable)
    requires k < |lines|
    ensures LexLine(lines[k], table) == Ok(None) ==> LexText(lines[k..], table) == LexText(lines[k + 1..], table)
    ensures LexLine(lines[k], table).Err? ==> LexText(lines[k..], table) == Err(LexLine(lines[k], table).error)
    ensures LexLine(lines[k], table).Ok? && LexLine(lines[k], table).value.Some? ==>
              LexText(lines[k..], table) == Prefixed([LexLine(lines[k], table).value.value], LexText(lines[k + 1..], table))
  {
    assert lines[k..] == [lines[k]] + lines[k + 1..];
    assert LexLines(lines[k..], table) == [LexLine(lines[k], table)] + LexLines(lines[k + 1..], table);
    CollectCons(LexLine(lines[k], table), LexLines(lines[k + 1..], table));
  }

  /** The `?` over one more line result: a skipped line adds nothing, an error stops, and an
      instruction comes before the rest. */
  lemma CollectCons(first: Result<Option<Instruction>, LexError>, rest: seq<Result<Option<Instruction>, LexError>>)
    ensures first == Ok(None) ==> Collect([first] + rest) == Collect(rest)
    ensures first.Err? ==> Collect([first] + rest) == Err(first.error)
    ensures first.Ok? && first.value.Some? ==> Collect([first] + rest) == Prefixed([first.value.value], Collect(rest))
  {
    assert ([first] + rest)[0] == first && ([first] + rest)[1..] == rest;
    if Collect(rest).Ok? {
      assert [] + Collect(rest).value == Collect(rest).value;
    }
  }

  // ---------------------------------------------------------------------------
  // The binary decoder `lex_bin`

  /** `u16::from_be_bytes([hi, lo])`. */
  function FromBeBytes(hi: u8, lo: u8): (v: u16)
    ensures v / 0x100 == hi && v % 0x100 == lo
  {
    hi * 0x100 + lo
  }

  /**
   * A byte stream as records `[mode, opcode]`, each followed by a big-endian
   * operand when the opcode requires one (unknown opcodes included). The stream
   * may end only at a record boundary.
   */
  function Decode(bytes: seq<u8>): (r: Result<seq<Instruction>, CodecError>)
    ensures r.Ok? ==> |bytes| % 2 == 0 && 2 * |r.value| <= |bytes| <= 4 * |r.value|
    decreases |bytes|
  {
    if |bytes| == 0 then Ok([])
    else if |bytes| == 1 then Err(TruncatedStream)
    else if U8RequiresValue(bytes[1]) then
      if |bytes| < 4 then Err(TruncatedStream)
      else
        var instruction :- FromU8(bytes[0], bytes[1], Some(FromBeBytes(bytes[2], bytes[3])));
        var rest :- Decode(bytes[4..]);
        Ok([instruction] + rest)
    else
      var instruction :- FromU8(bytes[0], bytes[1], None);
      var rest :- Decode(bytes[2..]);
      Ok([instruction] + rest)
  }

  /** `lex_bin`: reads a header into the two-byte buffer, then the operand when one is required. */
  method LexBin(bytes: seq<u8>) returns (r: Result<seq<Instruction>, CodecError>)
    ensures r == Decode(bytes)
  {
    var instructions: seq<Instruction> := [];
    var pos := 0;
    assert bytes[0..] == bytes;
    PrefixedNothing(Decode(bytes));
    while pos < |bytes|
      invariant pos <= |bytes|
      invariant Decode(bytes) == Prefixed(instructions, Decode(bytes[pos..]))
      decreases |bytes| - pos
    {
      if pos + 1 == |bytes| {
        return Err(TruncatedStream);
      }
      var buffer := (bytes[pos], bytes[pos + 1]);
      var value: Option<u16> := None;
      var size := 2;
      if U8RequiresValue(buffer.1) {
        if pos + 4 > |bytes| {
          return Err(TruncatedStream);
        }
        value := Some(FromBeBytes(bytes[pos + 2], bytes[pos + 3]));
        size := 4;
      }
      var instruction := FromU8(buffer.0, buffer.1, value);
      if instruction.Err? {
        return Err(instruction.error);
      }
      assert bytes[pos..][size..] == bytes[pos + size..];
      assert Decode(bytes[pos..]) == Prefixed([instruction.value], Decode(bytes[pos + size..]));
      PrefixedAppend(instructions, [instruction.value], Decode(bytes[pos + size..]));
      instructions := instructions + [instruction.value];
      pos := pos + size;
    }
    assert bytes[|bytes|..] == [] && instructions + [] == instructions;
    r := Ok(instructions);
  }

  /**
   * `lex_bin` as written: a read that returns a single byte overwrites only the
   * first byte of the two-byte buffer, so a lone trailing byte is decoded as a
   * header whose opcode is the stale second byte of the previous read (`buffer`,
   * initially `[0, 0]`).
   */
  function DecodeAsWritten(bytes: seq<u8>, buffer: (u8, u8)): (r: Result<seq<Instruction>, CodecError>)
    ensures r.Ok? ==> 2 * |r.value| <= |bytes| + 1
    decreases |bytes|
  {
    if |bytes| == 0 then Ok([])
    else
      var header := if |bytes| == 1 then (bytes[0], buffer.1) else (bytes[0], bytes[1]);
      var after := if |bytes| == 1 then [] else bytes[2..];
      if U8RequiresValue(header.1) then
        if |after| < 2 then Err(TruncatedStream)
        else
          var instruction :- FromU8(header.0, header.1, Some(FromBeBytes(after[0], after[1])));
          var rest :- DecodeAsWritten(after[2..], (after[0], after[1]));
          Ok([instruction] + rest)
      else
        var instruction :- FromU8(header.0, header.1, None);
        var rest :- DecodeAsWritten(after, header);
        Ok([instruction] + rest)
  }

  // ---------------------------------------------------------------------------
  // Laws of the line results

  /** The number of results that do not stand for a skipped line. */
  function Produced(results: seq<Result<Option<Instruction>, LexError>>): (n: nat)
    ensures n <= |results|
  {
    if results == [] then 0 else (if results[0] == Ok(None) then 0 else 1) + Produced(results[1..])
  }

  lemma {:induction false} CollectOk(results: seq<Result<Option<Instruction>, LexError>>)
    ensures Collect(results).Ok? <==> forall k | 0 <= k < |results| :: results[k].Ok?
    ensures Collect(results).Ok? ==> |Collect(results).value| == Produced(results)
  {
    if results != [] {
      CollectOk(results[1..]);
      assert forall k | 0 <= k < |results[1..]| :: results[1..][k] == results[k + 1];
    }
  }

  lemma {:induction false} CollectFirstError(results: seq<Result<Option<Instruction>, LexError>>, k: nat)
    requires k < |results| && results[k].Err?
    requires forall j | 0 <= j < k :: results[j].Ok?
    ensures Collect(results) == Err(results[k].error)
  {
    if k > 0 {
      assert forall j | 0 <= j < k - 1 :: results[1..][j] == results[j + 1];
      CollectFirstError(results[1..], k - 1);
    }
  }

  lemma {:induction false} CollectOrder(results: seq<Result<Option<Instruction>, LexError>>, k: nat)
    requires Collect(results).Ok? && k < |results| && results[k].Ok? && results[k].value.Some?
    ensures Produced(results[..k]) < |Collect(results).value|
    ensures Collect(results).value[Produced(results[..k])] == results[k].value.value
  {
    var first := results[0].value;
    var rest := Collect(results[1..]).value;
    var head := if first.Some? then [first.value] else [];
    assert Collect(results).value == head + rest;
    if k == 0 {
      assert results[..0] == [];
    } else {
      assert results[1..][k - 1] == results[k];
      CollectOrder(results[1..], k - 1);
      assert results[..k][1..] == results[1..][..k - 1];
      assert results[..k][0] == results[0];
    }
  }

  lemma {:induction false} CollectAll(results: seq<Result<Option<Instruction>, LexError>>, p: seq<Instruction>)
    requires |results| == |p| && forall k | 0 <= k < |p| :: results[k] == Ok(Some(p[k]))
    ensures Collect(results) == Ok(p)
  {
    if p != [] {
      assert forall k | 0 <= k < |p[1..]| :: results[1..][k] == results[k + 1];
      CollectAll(results[1..], p[1..]);
      assert [p[0]] + p[1..] == p;
    }
  }

  lemma {:induction false} LexLinesIndex(lines: seq<string>, table: MnemonicTable, k: nat)
    requires k < |lines|
    ensures LexLines(lines, table)[k] == LexLine(lines[k], table)
  {
    if k > 0 {
      LexLinesIndex(lines[1..], table, k - 1);
    }
  }

  lemma LexLinesPrefix(lines: seq<string>, table: MnemonicTable, k: nat)
    requires k <= |lines|
    ensures LexLines(lines, table)[..k] == LexLines(lines[..k], table)
  {
    forall j | 0 <= j < k
      ensures LexLines(lines, table)[j] == LexLines(lines[..k], table)[j]
    {
      LexLinesIndex(lines, table, j);
      LexLinesIndex(lines[..k], table, j);
    }
  }

  lemma {:induction false} ProducedLines(lines: seq<string>, table: MnemonicTable)
    ensures Produced(LexLines(lines, table)) == InstructionLines(lines)
  {
    if lines != [] {
      BlankLineSkipped(lines[0], table);
      ProducedCons(LexLine(lines[0], table), LexLines(lines[1..], table));
      ProducedLines(lines[1..], table);
    }
  }

  /** A result list with one more line counts that line when it produced something. */
  lemma ProducedCons(r: Result<Option<Instruction>, LexError>, rest: seq<Result<Option<Instruction>, LexError>>)
    ensures Produced([r] + rest) == (if r == Ok(None) then 0 else 1) + Produced(rest)
  {
    assert ([r] + rest)[1..] == rest;
  }

  // ---------------------------------------------------------------------------
  // Laws of the text lexer

  lemma {:induction false} TrimStartAppend(a: string, b: string)
    ensures !IsBlank(a) ==> TrimStart(a + b) == TrimStart(a) + b
    ensures IsBlank(a) ==> TrimStart(a + b) == TrimStart(b)
  {
    if a == [] {
      assert a + b == b;
    } else if IsWhitespace(a[0]) {
      DropAppend(a, b, 1);
      TrimStartAppend(a[1..], b);
      BlankTail(a);
      assert TrimStart(a + b) == TrimStart(a[1..] + b);
    } else {
      assert !IsBlank(a) && TrimStart(a + b) == a + b;
    }
  }

  /** A non-empty string is blank when its first character is whitespace and the rest is blank. */
  lemma BlankTail(a: string)
    requires a != []
    ensures IsBlank(a) <==> IsWhitespace(a[0]) && IsBlank(a[1..])
  {
    assert forall k | 0 <= k < |a[1..]| :: a[1..][k] == a[k + 1];
  }

  lemma {:induction false} CommentStartAppend(a: string, b: string)
    requires ';' !in a
    ensures CommentStart(a + [';'] + b) == |a|
  {
    if a != [] {
      DropAppend(a + [';'], b, 1);
      DropAppend(a, [';'], 1);
      CommentStartAppend(a[1..], b);
    }
  }

  lemma BlankTrimmed(s: string)
    ensures IsBlank(s) <==> TrimStart(s) == []
  {
    if TrimStart(s) == [] {
      assert s[..|s|] == s;
    }
  }

  lemma NoCommentKept(s: string)
    requires ';' !in s
    ensures StripComment(s) == s
  {
  }

  /** Leading whitespace is trimmed up to the first character that is not whitespace. */
  lemma {:induction false} TrimStartBeforeWord(a: string, c: string)
    requires c != [] && !IsWhitespace(c[0])
    ensures TrimStart(a + c) == TrimStart(a) + c
  {
    if a == [] {
      assert a + c == c;
    } else {
      DropAppend(a, c, 1);
      TrimStartBeforeWord(a[1..], c);
    }
  }

  lemma NoCommentInSuffix(a: string)
    requires ';' !in a
    ensures ';' !in TrimStart(a)
  {
  }

  /** Cleaning skips the leading whitespace of a comment-free prefix and keeps the rest. */
  lemma TrimStartComment(a: string, b: string)
    ensures TrimStart(a + [';'] + b) == TrimStart(a) + [';'] + b
  {
    TrimStartBeforeWord(a, [';'] + b);
    AppendAssoc(a, [';'], b);
    AppendAssoc(TrimStart(a), [';'], b);
  }

  /** Stripping the comment of `t ; b`, where `t` has no `;`, leaves `t`. */
  lemma StripAtComment(t: string, b: string)
    requires ';' !in t
    ensures StripComment(t + [';'] + b) == t
  {
    CommentStartAppend(t, b);
    TakeWhole(t, [';']);
    AppendAssoc(t, [';'], b);
    TakeWhole(t, [';'] + b);
  }

  lemma CleanIgnoresComment(a: string, b: string)
    requires ';' !in a
    ensures Clean(a + [';'] + b) == Clean(a)
  {
    TrimStartComment(a, b);
    NoCommentInSuffix(a);
    StripAtComment(TrimStart(a), b);
    NoCommentKept(TrimStart(a));
  }

  /** Everything from the first `;` on is ignored. */
  lemma CommentIgnored(a: string, b: string, table: MnemonicTable)
    requires ';' !in a
    ensures LexLine(a + [';'] + b, table) == LexLine(a, table)
  {
    CleanIgnoresComment(a, b);
  }

  /** Exactly the lines that are blank after cleaning yield no instruction. */
  lemma BlankLineSkipped(line: string, table: MnemonicTable)
    ensures LexLine(line, table) == Ok(None) <==> IsBlank(Clean(line))
  {
  }

  /** Leading whitespace does not change how a line is lexed. */
  lemma LeadingWhitespaceIgnored(spaces: string, line: string, table: MnemonicTable)
    requires IsBlank(spaces)
    ensures LexLine(spaces + line, table) == LexLine(line, table)
  {
    TrimStartAppend(spaces, line);
  }

  /** A line that is not blank has at least one token. */
  lemma NonBlankHasToken(s: string)
    requires !IsBlank(s)
    ensures |SplitWhitespace(s)| >= 1
  {
    BlankTrimmed(s);
  }

  lemma TokensNeverNoTokens(tokens: seq<string>)
    requires |tokens| >= 1
    ensures LexTokens(tokens, FromString) != Err(NoTokens)
  {
  }

  /** The lexer's "no tokens" error cannot happen: a non-blank line always has a mnemonic. */
  lemma NeverNoTokens(line: string)
    ensures LexLine(line, FromString) != Err(NoTokens)
  {
    CleanedNeverNoTokens(Clean(line));
  }

  lemma CleanedNeverNoTokens(cleaned: string)
    ensures LexCleaned(cleaned, FromString) != Err(NoTokens)
  {
    if !IsBlank(cleaned) {
      NonBlankHasToken(cleaned);
      TokensNeverNoTokens(SplitWhitespace(cleaned));
    }
  }

  /** A malformed operand fails the line whatever the mnemonic, since it is parsed first. */
  lemma OperandParsedFirst(tokens: seq<string>, table: MnemonicTable)
    requires |tokens| >= 2 && ParseOperand(tokens[1]).Err?
    ensures LexTokens(tokens, table) == Err(ParseOperand(tokens[1]).error)
  {
  }

  /** Tokens after the second are ignored. */
  lemma ExtraTokensIgnored(tokens: seq<string>, more: seq<string>, table: MnemonicTable)
    requires |tokens| >= 2
    ensures LexTokens(tokens + more, table) == LexTokens(tokens, table)
  {
    assert (tokens + more)[0] == tokens[0] && (tokens + more)[1] == tokens[1];
  }

  /** A program lexes exactly when every line does; it then holds one instruction per
      non-blank line. */
  lemma LexTextOk(lines: seq<string>, table: MnemonicTable)
    ensures LexText(lines, table).Ok? <==> forall k | 0 <= k < |lines| :: LexLine(lines[k], table).Ok?
    ensures LexText(lines, table).Ok? ==> |LexText(lines, table).value| == InstructionLines(lines)
  {
    var results := LexLines(lines, table);
    CollectOk(results);
    forall k | 0 <= k < |lines| ensures results[k] == LexLine(lines[k], table) {
      LexLinesIndex(lines, table, k);
    }
    ProducedLines(lines, table);
  }

  /** A failing program reports the error of its first failing line. */
  lemma LexTextFirstError(lines: seq<string>, table: MnemonicTable, k: nat)
    requires k < |lines| && LexLine(lines[k], table).Err?
    requires forall j | 0 <= j < k :: LexLine(lines[j], table).Ok?
    ensures LexText(lines, table) == Err(LexLine(lines[k], table).error)
  {
    var results := LexLines(lines, table);
    forall j | 0 <= j <= k ensures results[j] == LexLine(lines[j], table) {
      LexLinesIndex(lines, table, j);
    }
    CollectFirstError(results, k);
  }

  /** The instruction of a non-blank line k comes right after those of the lines
      before it: source order is program order. */
  lemma LexTextOrder(lines: seq<string>, table: MnemonicTable, k: nat)
    requires LexText(lines, table).Ok? && k < |lines| && !IsBlank(Clean(lines[k]))
    ensures LexLine(lines[k], table).Ok? && LexLine(lines[k], table).value.Some?
    ensures InstructionLines(lines[..k]) < |LexText(lines, table).value|
    ensures LexText(lines, table).value[InstructionLines(lines[..k])] == LexLine(lines[k], table).value.value
  {
    var results := LexLines(lines, table);
    LexLinesIndex(lines, table, k);
    CollectOk(results);
    BlankLineSkipped(lines[k], table);
    CollectOrder(results, k);
    LexLinesPrefix(lines, table, k);
    ProducedLines(lines[..k], table);
  }

  // ---------------------------------------------------------------------------
  // A reference printer, and the lexer as its inverse

  /** The digit character of a value below 16, lower-case for hexadecimal letters. */
  function DigitChar(d: nat): (c: char)
    requires d < 16
    ensures DigitValue(c, 16) == Some(d) && (d < 2 ==> DigitValue(c, 2) == Some(d))
    ensures '0' <= c <= '9' || 'a' <= c <= 'f'
  {
    if d < 10 then ('0' as int + d) as char else ('a' as int + d - 10) as char
  }

  /** The digits of n in the given radix, most significant first, without leading zeros. */
  function ToDigits(n: nat, radix: nat): (digits: string)
    requires radix == 2 || radix == 16
    ensures digits != [] && IsDigits(digits, radix) && DigitsValue(digits, radix) == n
    ensures forall k :: 0 <= k < |digits| ==> '0' <= digits[k] <= '9' || 'a' <= digits[k] <= 'f'
    decreases n
  {
    if n < radix then
      [DigitChar(n)]
    else
      var high := ToDigits(n / radix, radix);
      var digits := high + [DigitChar(n % radix)];
      assert digits[..|digits| - 1] == high;
      digits
  }

  /** An operand as source text: `*` for an Address, then `0x` or `0b` and the digits. */
  function OperandText(v: Value, radix: nat): string
    requires radix == 2 || radix == 16
  {
    (if v.Address? then "*" else "") + (if radix == 16 then "0x" else "0b") + ToDigits(v.word, radix)
  }

  /** The source line of an instruction, with a hexadecimal operand. */
  function Disassemble(i: Instruction): string {
    if RequiresValue(i) then Mnemonic(i) + " " + OperandText(GetValue(i), 16) else Mnemonic(i)
  }

  function DisassembleAll(p: seq<Instruction>): (lines: seq<string>)
    ensures |lines| == |p|
  {
    if p == [] then [] else [Disassemble(p[0])] + DisassembleAll(p[1..])
  }

  lemma StarsTrimmed(star: string, body: string)
    requires star == "" || star == "*"
    requires body != [] && body[0] != '*'
    ensures StartsWith(star + body, "*") <==> star == "*"
    ensures TrimStartMatches(star + body, "*") == body
  {
    assert !StartsWith(body, "*");
    DropWhole(star, body);
  }

  lemma PrefixTrimmed(prefix: string, digits: string)
    requires prefix != [] && !StartsWith(digits, prefix)
    ensures TrimStartMatches(prefix + digits, prefix) == digits
  {
    DropWhole(prefix, digits);
  }

  lemma DigitsHaveNoPrefix(digits: string, radix: nat)
    requires radix == 2 || radix == 16
    requires IsDigits(digits, radix)
    ensures !StartsWith(digits, if radix == 16 then "0x" else "0b")
  {
    if |digits| >= 2 {
      assert DigitValue(digits[1], radix).Some?;
      assert digits[..2][1] == digits[1];
    }
  }

  lemma ParseDigits(n: u16, radix: nat)
    requires radix == 2 || radix == 16
    ensures ParseRadix(ToDigits(n, radix), radix) == Ok(n)
  {
    var digits := ToDigits(n, radix);
    assert DigitValue(digits[0], radix).Some?;
  }

  /** A `+` in front of the digits is accepted and changes nothing; a second one is not. */
  lemma PlusSign(digits: string, radix: nat)
    requires digits != []
    ensures ParseRadix(['+'] + digits, radix).Ok? <==> ParseRadix(digits, radix).Ok? && digits[0] != '+'
    ensures ParseRadix(['+'] + digits, radix).Ok? ==> ParseRadix(['+'] + digits, radix).value == ParseRadix(digits, radix).value
  {
    assert (['+'] + digits)[1..] == digits;
    if digits[0] == '+' {
      assert DigitValue(digits[0], radix).None?;
    }
  }

  /** The operand after its `*`: the radix prefix and the digits. */
  lemma ParseNumberInverse(n: u16, radix: nat, token: string)
    requires radix == 2 || radix == 16
    requires token == (if radix == 16 then "0x" else "0b") + ToDigits(n, radix)
    ensures StartsWith(token, "0x") <==> radix == 16
    ensures StartsWith(token, "0b") <==> radix == 2
    ensures TrimStartMatches(token, if radix == 16 then "0x" else "0b") == ToDigits(n, radix)
  {
    var prefix := if radix == 16 then "0x" else "0b";
    var digits := ToDigits(n, radix);
    TakeWhole(prefix, digits);
    DigitsHaveNoPrefix(digits, radix);
    PrefixTrimmed(prefix, digits);
  }

  /** `ParseOperand` once the outcome of each of its string operations is known. */
  lemma ParseOperandSteps(token: string, isAddress: bool, body: string, radix: nat, n: u16)
    requires radix == 2 || radix == 16
    requires StartsWith(token, "*") == isAddress && TrimStartMatches(token, "*") == body
    requires StartsWith(body, "0x") <==> radix == 16
    requires StartsWith(body, "0b") <==> radix == 2
    requires ParseRadix(TrimStartMatches(body, if radix == 16 then "0x" else "0b"), radix) == Ok(n)
    ensures ParseOperand(token) == Ok(if isAddress then Address(n) else Literal(n))
  {
  }

  /** Parsing the printed operand gives the operand back, in either radix. */
  lemma ParseOperandInverse(v: Value, radix: nat)
    requires radix == 2 || radix == 16
    ensures ParseOperand(OperandText(v, radix)) == Ok(v)
  {
    var star := if v.Address? then "*" else "";
    var prefix := if radix == 16 then "0x" else "0b";
    var body := prefix + ToDigits(v.word, radix);
    AppendAssoc(star, prefix, ToDigits(v.word, radix));
    StarsTrimmed(star, body);
    ParseNumberInverse(v.word, radix, body);
    ParseDigits(v.word, radix);
    ParseOperandSteps(star + body, v.Address?, body, radix, v.word);
  }

  /** A non-empty run of characters that are neither whitespace nor `;`. */
  predicate IsWord(w: string) {
    w != [] && forall k :: 0 <= k < |w| ==> !IsWhitespace(w[k]) && w[k] != ';'
  }

  lemma MnemonicWord(i: Instruction)
    ensures IsWord(Mnemonic(i))
  {
    var m := Mnemonic(i);
    assert forall k :: 0 <= k < |m| ==> 'A' <= m[k] <= 'Z';
  }

  lemma OperandWord(v: Value, radix: nat)
    requires radix == 2 || radix == 16
    ensures IsWord(OperandText(v, radix))
  {
    var text := OperandText(v, radix);
    var digits := ToDigits(v.word, radix);
    var prefix := if radix == 16 then "0x" else "0b";
    var star := if v.Address? then "*" else "";
    assert text == star + prefix + digits;
    forall k | 0 <= k < |text| ensures !IsWhitespace(text[k]) && text[k] != ';' {
      if k < |star| {
        assert text[k] == '*';
      } else if k < |star| + 2 {
        assert text[k] == prefix[k - |star|];
      } else {
        assert text[k] == digits[k - |star| - 2];
      }
    }
  }

  lemma {:induction false} WordLengthOf(w: string, rest: string)
    requires forall k :: 0 <= k < |w| ==> !IsWhitespace(w[k])
    requires rest == [] || IsWhitespace(rest[0])
    ensures WordLength(w + rest) == |w|
  {
    if w != [] {
      assert (w + rest)[1..] == w[1..] + rest;
      WordLengthOf(w[1..], rest);
    } else {
      assert w + rest == rest;
    }
  }

  /** A word followed by whitespace (or nothing) is the first token. */
  lemma SplitWord(w: string, rest: string)
    requires IsWord(w)
    requires rest == [] || IsWhitespace(rest[0])
    ensures SplitWhitespace(w + rest) == [w] + SplitWhitespace(rest)
  {
    WordLengthOf(w, rest);
    assert TrimStart(w + rest) == w + rest;
    assert (w + rest)[..|w|] == w && (w + rest)[|w|..] == rest;
  }

  lemma SplitOne(w: string)
    requires IsWord(w)
    ensures SplitWhitespace(w) == [w]
  {
    SplitWord(w, []);
    assert w + [] == w;
  }

  lemma SplitLeadingBlank(s: string)
    requires s != [] && IsWhitespace(s[0])
    ensures SplitWhitespace(s) == SplitWhitespace(s[1..])
  {
    assert TrimStart(s) == TrimStart(s[1..]);
  }

  lemma SplitSpaceWord(u: string)
    requires IsWord(u)
    ensures SplitWhitespace([' '] + u) == [u]
  {
    SplitLeadingBlank([' '] + u);
    DropWhole([' '], u);
    SplitOne(u);
  }

  lemma SplitTwo(w: string, u: string)
    requires IsWord(w) && IsWord(u)
    ensures SplitWhitespace(w + " " + u) == [w, u]
  {
    AppendAssoc(w, [' '], u);
    SplitWord(w, [' '] + u);
    SplitSpaceWord(u);
  }

  /** A line that starts with a word and holds no `;` is left as it is by cleaning. */
  lemma CleanWords(line: string)
    requires line != [] && !IsWhitespace(line[0]) && ';' !in line
    ensures Clean(line) == line && !IsBlank(line)
  {
    NoCommentKept(line);
  }

  /** The tokens of a printed line. */
  function DisassembledTokens(i: Instruction): seq<string> {
    if RequiresValue(i) then [Mnemonic(i), OperandText(GetValue(i), 16)] else [Mnemonic(i)]
  }

  lemma LexTokensInverse(i: Instruction)
    ensures LexTokens(DisassembledTokens(i), FromString) == Ok(i)
  {
    if RequiresValue(i) {
      ParseOperandInverse(GetValue(i), 16);
      FromStringInverse(i, Some(GetValue(i)));
    } else {
      FromStringInverse(i, None);
    }
  }

  /** A word holds no `;`. */
  lemma WordHasNoComment(w: string)
    requires IsWord(w)
    ensures ';' !in w
  {
  }

  /** Two words joined by a space: two tokens, a word character first and no comment. */
  lemma JoinedWords(w: string, u: string)
    requires IsWord(w) && IsWord(u)
    ensures SplitWhitespace(w + " " + u) == [w, u]
    ensures (w + " " + u)[0] == w[0] && ';' !in w + " " + u
  {
    SplitTwo(w, u);
    WordHasNoComment(w);
    WordHasNoComment(u);
    NoCommentJoined(w, u);
  }

  lemma NoCommentJoined(w: string, u: string)
    requires ';' !in w && ';' !in u
    ensures ';' !in w + " " + u
  {
  }

  lemma SplitDisassembled(i: Instruction)
    ensures SplitWhitespace(Disassemble(i)) == DisassembledTokens(i)
    ensures Disassemble(i) != [] && !IsWhitespace(Disassemble(i)[0]) && ';' !in Disassemble(i)
  {
    var m := Mnemonic(i);
    MnemonicWord(i);
    if RequiresValue(i) {
      var text := OperandText(GetValue(i), 16);
      OperandWord(GetValue(i), 16);
      JoinedWords(m, text);
    } else {
      SplitOne(m);
    }
  }

  /** The printed line of every instruction lexes back to that instruction. */
  lemma LexLineInverse(i: Instruction)
    ensures LexLine(Disassemble(i), FromString) == Ok(Some(i))
  {
    SplitDisassembled(i);
    CleanWords(Disassemble(i));
    LexTokensInverse(i);
  }

  /** Every program printed line by line lexes back to itself. */
  lemma LexTextInverse(p: seq<Instruction>)
    ensures LexText(DisassembleAll(p), FromString) == Ok(p)
  {
    var lines := DisassembleAll(p);
    forall k | 0 <= k < |p| ensures LexLines(lines, FromString)[k] == Ok(Some(p[k])) {
      DisassembleAllIndex(p, k);
      LexLinesIndex(lines, FromString, k);
      LexLineInverse(p[k]);
    }
    CollectAll(LexLines(lines, FromString), p);
  }

  lemma {:induction false} DisassembleAllIndex(p: seq<Instruction>, k: nat)
    requires k < |p|
    ensures DisassembleAll(p)[k] == Disassemble(p[k])
  {
    if k > 0 {
      DisassembleAllIndex(p[1..], k - 1);
    }
  }
}
