# JASM in Dafny

This project models the core of JASM, a small virtual machine for a flat-memory
assembly language. It covers five parts:

- The instruction set (`Instruction`, `Value`, the opcode and mnemonic tables).
- The text lexer `lex_str`: leading whitespace is trimmed and `;` comments are
  dropped. A line holds a mnemonic and an optional `*`-marked `0x`/`0b` operand.
- The binary encoder `compile` and decoder `lex_bin`. Each instruction is a
  record `[mode, opcode]`, followed by a big-endian operand when it has one.
- The execution engine `interpret`. It runs over 16-bit cells, with the address
  register in cell 65534 and the comparison flag in cell 65533 (the values
  `main.rs` gives these constants). A label table is
  built before the loop, and JMP and RTN use a caller stack.
- The older front end and engine in `main.rs`. It has a 16-mnemonic lexer, a
  65535-cell memory and a CIN that reads a byte.

Modules, one per source file:

- `Instructions` models `instructions.rs`.
- `Compiler` models `compiler.rs`.
- `Lexer` models `lexer.rs`. It also holds a printer that turns an instruction
  back into a source line, which is used for round trips.
- `Interpreter` models `interpreter.rs`. One step is the function `Next`, a run
  is `Execute`, and the class `Machine` is the engine's loop over a
  `memory: array<u16>`. Each of its methods is proved to perform exactly the
  step `Next` describes.
- `Legacy` models the parts of `main.rs` that differ from the above.
- `Codec` holds the lemmas that combine the encoder and the decoder.
- `Base` holds the machine-word types and a `Result` type.

Console I/O is abstracted away:

- Console input is a sequence of units. A unit is a character code for the
  library engine and a byte for the older one.
- Everything printed is appended to a trace of `Token`s.
- A run is bounded by a fuel count. `OutOfFuel` means the loop was still running
  when the fuel ran out.

Rust panics become `RuntimeError` values:

- `expect` on an undeclared label.
- `expect` on a surrogate code point printed by CUT.
- An index outside the memory.
- `Wrapping` division by zero.

## Model

| member | source | states |
|---|---|---|
| Instructions.GetValue | interpreter/src/instructions.rs:52-72 | the operand of a value-carrying instruction; passing it to `from_u8` with the matching mode byte rebuilds the instruction |
| Instructions.U8RequiresValue | interpreter/src/instructions.rs:30-39 | an opcode byte needs an operand exactly when it is above 0x04 |
| Instructions.RequiresValue | interpreter/src/instructions.rs:41-50 | an instruction needs an operand exactly when its opcode byte does (the two tables agree) |
| Instructions.ToU8 | interpreter/src/instructions.rs:145-169 | every opcode is in 0x00-0x14 |
| Instructions.FromU8 | interpreter/src/instructions.rs:104-143 | an accepted record decodes to an instruction whose opcode is the record's opcode byte |
| Instructions.Mnemonic | interpreter/src/instructions.rs:78-99 | every instruction's name is one of the 21 three-letter mnemonics |
| Instructions.FromString | interpreter/src/instructions.rs:74-101 | an accepted mnemonic names the result, and the result's operand is the one supplied; the only errors are an unknown mnemonic or a missing operand |
| Instructions.RequiresValueExactly | interpreter/src/instructions.rs:41-50 | exactly OUT, CUT, CIN, DMP and RTN carry no operand |
| Instructions.OpcodeTablesAgree | interpreter/src/instructions.rs:30-50 | `u8_requires_value` of an instruction's opcode equals its `requires_value`; the value-less opcodes are exactly 0x00-0x04 |
| Instructions.ToU8Injective | interpreter/src/instructions.rs:145-169 | two instructions with the same opcode are the same variant, and they are equal exactly when their operands are |
| Instructions.ToU8Onto | interpreter/src/instructions.rs:145-169 | every byte 0x00-0x14 is some instruction's opcode |
| Instructions.FromU8Inverse | interpreter/src/instructions.rs:104-169 | `from_u8` inverts `to_u8`, given the operand and a mode byte that is zero exactly for a Literal |
| Instructions.FromU8Accepts | interpreter/src/instructions.rs:104-143 | a record is accepted exactly when its opcode is at most 0x14 and an operand is present when the opcode needs one; it fails with UnknownOpcode or MissingValue otherwise |
| Instructions.FromStringInverse | interpreter/src/instructions.rs:78-99 | `from_string` of an instruction's mnemonic and operand gives the instruction back |
| Instructions.FromStringMissingOperand | interpreter/src/instructions.rs:84-99 | a value-carrying mnemonic without an operand fails with MissingOperand |
| Instructions.FromStringUnknown | interpreter/src/instructions.rs:100 | the UnknownMnemonic error happens exactly for strings that are not mnemonics |
| Instructions.MnemonicsOnto | interpreter/src/instructions.rs:78-99 | every one of the 21 mnemonics names some instruction |
| Instructions.GetLiteralValue | interpreter/src/instructions.rs:178-183 | a Literal is its own word; an Address is the content of that cell, and there is no value exactly when the cell lies beyond the memory |
| Compiler.ModeByte | interpreter/src/compiler.rs:24-27 | the mode byte is non-zero exactly for an Address operand |
| Compiler.ValueBytes | interpreter/src/compiler.rs:32-43 | two bytes, high then low, whose big-endian value is the operand |
| Compiler.EncodeInstruction | interpreter/src/compiler.rs:9-15 | a record is 4 bytes for a value-carrying instruction and 2 bytes otherwise |
| Compiler.Encode | interpreter/src/compiler.rs:8-16 | the stream has even length, between 2 and 4 bytes per instruction |
| Compiler.PushInstructionWithValue | interpreter/src/compiler.rs:21-30 | appends the mode byte and then the opcode byte |
| Compiler.PushValue | interpreter/src/compiler.rs:32-43 | appends the two operand bytes, high byte first |
| Compiler.Compile | interpreter/src/compiler.rs:5-19 | the output is the concatenated encoding of the instructions in program order, and compiling cannot fail |
| Compiler.EncodeInstructionShape | interpreter/src/compiler.rs:8-15 | a value-less instruction is `[0x00, opcode]`; a value-carrying one is `[mode, opcode, hi, lo]`, with mode 0x00 for a Literal, 0x10 for an Address, and `hi * 256 + lo` the operand |
| Compiler.EncodeAppend | interpreter/src/compiler.rs:8-16 | the encoding of `p + q` is the encoding of `p` followed by that of `q` |
| Compiler.EncodeLength | interpreter/src/compiler.rs:8-16 | the stream has 2 bytes per value-less instruction and 4 per value-carrying one |
| Lexer.TrimStart | interpreter/src/lexer.rs:16-17 | the result is a suffix of the input; what was removed is all whitespace, and the result does not start with whitespace |
| Lexer.CommentStart | interpreter/src/lexer.rs:19-25 | the index of the first `;`, or the length when there is none; no `;` comes before it |
| Lexer.TrimStartMatches | interpreter/src/lexer.rs:44 | the result is no longer than the input and no longer starts with the pattern |
| Lexer.TrimStartMatchesCopies | interpreter/src/lexer.rs:44 | the result is a suffix of the input, and what is removed is a whole number of copies of the pattern: the input is copies of the pattern followed by the result |
| Lexer.TrimStartMatchesRepeat | interpreter/src/lexer.rs:44-52 | any number of leading copies of the pattern are all removed, not just the first |
| Lexer.ParseRadix | interpreter/src/lexer.rs:47-54 | every failure of `from_str_radix` is reported as InvalidNumber of the digits it was given |
| Lexer.ParseRadixEmpty | interpreter/src/lexer.rs:47-54 | the empty digit string and a lone `+` are InvalidNumber |
| Lexer.ParseRadixDigits | interpreter/src/lexer.rs:47-54 | a non-empty digit string of the radix is read as its positional value, most significant digit first, and is InvalidNumber when that value is above 0xFFFF |
| Lexer.ParseRadixNonDigit | interpreter/src/lexer.rs:47-54 | a character that is not a digit of the radix makes the string InvalidNumber, unless it is one leading `+` in front of more characters |
| Lexer.ParseRadixOverflow | interpreter/src/lexer.rs:47-54 | every number above 0xFFFF, written in the radix, overflows |
| Lexer.PlusSign | interpreter/src/lexer.rs:47-54 | one leading `+` is accepted and keeps the value; a second `+` is not |
| Lexer.ParseOperand | interpreter/src/lexer.rs:42-62 | an operand fails only with UnknownNumberFormat or InvalidNumber |
| Lexer.ParseOperandUnknownFormat | interpreter/src/lexer.rs:43-62 | once the `*`s are trimmed, a token that starts with neither `0x` nor `0b` is UnknownNumberFormat of the trimmed text |
| Lexer.ParseOperandKind | interpreter/src/lexer.rs:43-59 | every accepted operand is an Address exactly when its token starts with `*` |
| Lexer.ParseOperandPrefixed | interpreter/src/lexer.rs:42-59 | any number of `*`s, one or more copies of `0x` or `0b`, and digits of that radix in range: the value of the digits, an Address exactly when there was a `*` |
| Lexer.RepeatedPrefixExample | interpreter/src/lexer.rs:46-52 | `0x0x10` is read as the literal 16 |
| Lexer.Clean | interpreter/src/lexer.rs:15-26 | the cleaned line holds no `;`, does not start with whitespace, and is no longer than the line |
| Lexer.SplitWhitespaceTokens | interpreter/src/lexer.rs:32 | every token of `split_whitespace` is non-empty and holds no whitespace |
| Lexer.LexTokens | interpreter/src/lexer.rs:32-65 | a malformed operand token is the line's error, before the mnemonic is looked up; an accepted line had at least one token |
| Lexer.OptionalOperand | interpreter/src/lexer.rs:42-63 | the second token of a line, once parsed, is always a present operand; its parse fails only with UnknownNumberFormat or InvalidNumber |
| Lexer.LexCleaned | interpreter/src/lexer.rs:28-65 | a cleaned line yields no instruction exactly when it is blank |
| Lexer.LexLine | interpreter/src/lexer.rs:14-65 | a line yields no instruction exactly when its cleaned text is blank |
| Lexer.CleanLine | interpreter/src/lexer.rs:15-26 | computes the cleaned line: leading whitespace trimmed, then everything from the first `;` on dropped (the `found_comment` filter) |
| Lexer.LexOperand | interpreter/src/lexer.rs:42-62 | the operand branch of the loop computes exactly `ParseOperand` |
| Lexer.LexLineTokens | interpreter/src/lexer.rs:32-65 | the token branch of the loop computes exactly `LexTokens` |
| Lexer.LexSource | interpreter/src/lexer.rs:11-69 | the line loop computes `LexText`: the instructions of the non-blank lines in order, or the error of the first failing line |
| Lexer.LexStr | interpreter/src/lexer.rs:11-69 | `lex_str` is `LexSource` with the `from_string` table |
| Lexer.Collect | interpreter/src/lexer.rs:65 | the `?` over the line results gives at most one instruction per line |
| Lexer.LexText | interpreter/src/lexer.rs:11-69 | a lexed text has at most one instruction per line |
| Lexer.LexLines | interpreter/src/lexer.rs:14-66 | one line result per source line |
| Lexer.LexTextUnfold | interpreter/src/lexer.rs:14-66 | from line `k` on, a blank line is skipped, a failing line is the result, and a line's instruction comes before those of later lines |
| Lexer.FromBeBytes | interpreter/src/lexer.rs:92 | the high byte is the value divided by 256 and the low byte is the remainder |
| Lexer.Decode | interpreter/src/lexer.rs:71-100 | a stream that decodes has even length, with 2 to 4 bytes per instruction |
| Lexer.DecodeAsWritten | interpreter/src/lexer.rs:76-94 | the loop as written, with the stale buffer kept between reads; a decoded stream has at least 2 bytes per instruction but the last, which may have only 1 |
| Lexer.LexBin | interpreter/src/lexer.rs:71-100 | the read loop computes `Decode`: records in order, with TruncatedStream when a record or its operand is cut short |
| Lexer.CollectOk | interpreter/src/lexer.rs:14-68 | the text lexes exactly when every line does, into one instruction per non-blank line |
| Lexer.CollectFirstError | interpreter/src/lexer.rs:65 | the `?` stops the loop at the first failing line, and its error is the result |
| Lexer.CollectOrder | interpreter/src/lexer.rs:65 | the instruction of a line sits at the index equal to the number of instruction lines before it |
| Lexer.CollectAll | interpreter/src/lexer.rs:14-68 | lines that each give one instruction lex to those instructions |
| Lexer.LexLinesIndex | interpreter/src/lexer.rs:14-66 | result `k` is the result of line `k` |
| Lexer.LexLinesPrefix | interpreter/src/lexer.rs:14-66 | the results for a prefix of the lines are the prefix of the results (each line is lexed on its own) |
| Lexer.ProducedLines | interpreter/src/lexer.rs:28-30 | the lines that produce an instruction are exactly the non-blank cleaned ones |
| Lexer.TrimStartAppend | interpreter/src/lexer.rs:16-17 | trimming `a + b` trims `a` when `a` is not blank and trims `b` when it is |
| Lexer.CommentStartAppend | interpreter/src/lexer.rs:19-25 | in `a ; b` with no `;` in `a`, the comment starts right after `a` |
| Lexer.BlankTrimmed | interpreter/src/lexer.rs:28 | a string is blank exactly when trimming empties it |
| Lexer.TrimStartBeforeWord | interpreter/src/lexer.rs:16-17 | trimming stops at the first non-whitespace character |
| Lexer.CleanIgnoresComment | interpreter/src/lexer.rs:15-26 | text after the first `;` does not change the cleaned line |
| Lexer.CommentIgnored | interpreter/src/lexer.rs:15-26 | text after the first `;` does not change what a line lexes to |
| Lexer.BlankLineSkipped | interpreter/src/lexer.rs:28-30 | a line produces nothing exactly when its cleaned text is blank |
| Lexer.LeadingWhitespaceIgnored | interpreter/src/lexer.rs:16-17 | leading whitespace does not change what a line lexes to |
| Lexer.NonBlankHasToken | interpreter/src/lexer.rs:32-38 | a non-blank cleaned line splits into at least one token |
| Lexer.NeverNoTokens | interpreter/src/lexer.rs:36-38 | the "No tokens found" error cannot happen |
| Lexer.OperandParsedFirst | interpreter/src/lexer.rs:42-65 | a malformed operand fails the line before the mnemonic is looked up |
| Lexer.ExtraTokensIgnored | interpreter/src/lexer.rs:40-63 | tokens after the second do not change the line's result |
| Lexer.LexTextOk | interpreter/src/lexer.rs:11-69 | a text lexes exactly when every line does, and then it has one instruction per non-blank line |
| Lexer.LexTextFirstError | interpreter/src/lexer.rs:65 | the error of a text is the error of its first failing line |
| Lexer.LexTextOrder | interpreter/src/lexer.rs:65 | each non-blank line's instruction appears at the index equal to the number of instruction lines before it |
| Lexer.ToDigits | interpreter/src/lexer.rs:47-54 | the printed digits of `n` are valid digits in the radix, and their value is `n` |
| Lexer.StarsTrimmed | interpreter/src/lexer.rs:43-44 | the `*` is detected and removed from a printed operand |
| Lexer.DigitsHaveNoPrefix | interpreter/src/lexer.rs:46-54 | a digit string never starts with its own radix prefix |
| Lexer.ParseDigits | interpreter/src/lexer.rs:47-54 | `from_str_radix` of the printed digits gives the number back |
| Lexer.ParseNumberInverse | interpreter/src/lexer.rs:46-54 | a printed number selects its own radix branch and loses exactly its prefix |
| Lexer.ParseOperandInverse | interpreter/src/lexer.rs:42-62 | parsing a printed operand, hexadecimal or binary, gives the operand back |
| Lexer.SplitDisassembled | interpreter/src/lexer.rs:32 | a printed line splits into its mnemonic and, when present, its operand, and it has no comment |
| Lexer.LexTokensInverse | interpreter/src/lexer.rs:32-65 | the tokens of a printed instruction lex back to it |
| Lexer.LexLineInverse | interpreter/src/lexer.rs:14-65 | a printed line lexes back to its instruction |
| Lexer.LexTextInverse | interpreter/src/lexer.rs:11-69 | a printed program lexes back to the program |
| Interpreter.Labels | interpreter/src/interpreter.rs:14-21 | the table maps each key to an index of the program that holds a `LAB` of that literal |
| Interpreter.LabelsSpec | interpreter/src/interpreter.rs:14-21 | a literal is a key of the table exactly when some `LAB` declares it, and it maps to its last declaration |
| Interpreter.LabelsKeys | interpreter/src/interpreter.rs:14-21 | the keys of the table are exactly the declared literals |
| Interpreter.LabelsLast | interpreter/src/interpreter.rs:14-21 | no `LAB` of a key's literal comes after the index the key maps to (the `collect` keeps the last) |
| Interpreter.Resolve | interpreter/src/instructions.rs:178-183 | `get_literal_value` as the engine's arms use it: a Literal is its own word, an Address is the content of its cell, and an Address beyond the memory is OutOfBounds, which stands for the panic of the `memory[*address as usize]` index; it fails exactly when `GetLiteralValue` gives nothing |
| Interpreter.Next | interpreter/src/interpreter.rs:37-158 | one step keeps the memory size and only appends to the output |
| Interpreter.Execute | interpreter/src/interpreter.rs:37-161 | a run keeps the memory size and only appends to the output |
| Interpreter.SetAddressFrame | interpreter/src/interpreter.rs:69-71 | SEA fails only on a missing operand cell, and it writes the address register and nothing else |
| Interpreter.TargetWriteFrame | interpreter/src/interpreter.rs:72-98 | SET, ADD, SUB, MUL and DIV write the target cell and nothing else; they fail with OutOfBounds, or with DivisionByZero for DIV |
| Interpreter.Combine | interpreter/src/interpreter.rs:75-98 | the combination fails exactly for a division by zero |
| Interpreter.Arith | interpreter/src/interpreter.rs:75-98 | ADD, SUB, MUL and DIV change only the memory and advance ip by one, keeping the memory size; they fail only with OutOfBounds or DivisionByZero |
| Interpreter.GoTo | interpreter/src/interpreter.rs:104-142 | a transfer changes only ip, to an index in the label table; it fails only with OutOfBounds or UndeclaredLabel |
| Interpreter.ArithmeticWraps | interpreter/src/interpreter.rs:72-98 | SET stores the operand; ADD, SUB and MUL compute modulo 65536; DIV truncates and fails exactly when the divisor is zero |
| Interpreter.AddWrapsToZero | interpreter/src/interpreter.rs:75-80 | 0xFFFF + 1 stores 0 |
| Interpreter.CompareSetsFlag | interpreter/src/interpreter.rs:99-103 | CEQ sets the flag to 1 on equality and 0 otherwise, changing nothing else |
| Interpreter.GoToLabel | interpreter/src/interpreter.rs:104-127 | a transfer lands on the last `LAB` of the name and changes only ip; it fails exactly when no `LAB` declares the name |
| Interpreter.BranchTaken | interpreter/src/interpreter.rs:104-127 | BNE jumps exactly when the flag is 0 and BEQ exactly when it is 1; otherwise they move on without a lookup |
| Interpreter.CallsAndReturns | interpreter/src/interpreter.rs:58-142 | JMP pushes its own index and goes to the label; RTN fails exactly on an empty stack and otherwise pops `k` and resumes at `k + 1` |
| Interpreter.ReturnAfterJump | interpreter/src/interpreter.rs:58-158 | a RTN run with the stack a JMP left resumes right after that JMP, with the stack as it was before the JMP |
| Interpreter.StackDiscipline | interpreter/src/interpreter.rs:58-142 | JMP grows the stack by one, RTN shrinks it by one, and nothing else touches it |
| Interpreter.NoOpsAdvance | interpreter/src/interpreter.rs:155-158 | LAB, GTN, LTN, GTE, LTE and EXT only advance ip (EXT does not stop the run) |
| Interpreter.InputConsumed | interpreter/src/interpreter.rs:52-56 | only CIN reads input; the library engine consumes one unit, stores it truncated to 16 bits and echoes it; the older one stores 0 at end of input and echoes nothing |
| Interpreter.NoOutOfBoundsInFullMemory | interpreter/src/interpreter.rs:37-158 | with at least 65536 cells no step fails out of bounds |
| Interpreter.LastCellMissing | interpreter/src/main.rs:170 | with exactly 65535 cells, address 0xFFFF does not exist, so OUT, CUT, the older CIN, and SEA, SET or CEQ with an Address operand of 0xFFFF fail |
| Interpreter.FinishedIff | interpreter/src/interpreter.rs:37 | a run finishes exactly when ip has left the program |
| Interpreter.MoreFuel | interpreter/src/interpreter.rs:37-159 | a run that ended before its fuel ran out ends the same way with more fuel |
| Interpreter.ExecuteCompose | interpreter/src/interpreter.rs:37-159 | running `a` steps and then `b` more is running `a + b` steps |
| Interpreter.ExecuteUnfold | interpreter/src/interpreter.rs:37-159 | a step that succeeds with fuel left continues the run from the next state |
| Interpreter.PrintsA | interpreter/src/interpreter.rs:44-74 | `SEA 0x0000`, `SET 0x0041`, `CUT` prints `A` and finishes |
| Interpreter.Machine.constructor | interpreter/src/interpreter.rs:13-34 | a fresh machine: zeroed cells, ip 0, an empty stack, the label table of the program |
| Interpreter.Machine.Store | interpreter/src/interpreter.rs:73 | writes one cell |
| Interpreter.Machine.Operand | interpreter/src/instructions.rs:178-183 | resolves a Value on the memory array exactly as `Resolve` does |
| Interpreter.Machine.Print | interpreter/src/interpreter.rs:40-57 | OUT, CUT and DMP perform the step `Next` describes, or leave the machine unchanged and report its error |
| Interpreter.Machine.ReadInput | interpreter/src/interpreter.rs:52-56 | CIN performs the step `Next` describes, or leaves the machine unchanged and reports its error |
| Interpreter.Machine.ReturnToCaller | interpreter/src/interpreter.rs:58-68 | RTN performs the step `Next` describes, or leaves the machine unchanged and reports EmptyCallStack |
| Interpreter.Machine.Assign | interpreter/src/interpreter.rs:69-74 | SEA and SET perform the step `Next` describes, or leave the machine unchanged and report the error |
| Interpreter.Machine.Calculate | interpreter/src/interpreter.rs:75-98 | ADD, SUB, MUL and DIV perform the step `Next` describes, or leave the machine unchanged and report the error |
| Interpreter.Machine.CompareTarget | interpreter/src/interpreter.rs:99-103 | CEQ performs the step `Next` describes, or leaves the machine unchanged and reports the error |
| Interpreter.Machine.Branch | interpreter/src/interpreter.rs:104-127 | BNE and BEQ perform the step `Next` describes, or leave the machine unchanged and report the error |
| Interpreter.Machine.Call | interpreter/src/interpreter.rs:128-142 | JMP performs the step `Next` describes, or leaves the machine unchanged and reports the error |
| Interpreter.Machine.Step | interpreter/src/interpreter.rs:38-158 | one iteration of the loop performs `Next` on the machine's state |
| Interpreter.Machine.Run | interpreter/src/interpreter.rs:37-159 | the loop, for at most `fuel` iterations, ends in the status and state that `Execute` gives |
| Interpreter.Interpret | interpreter/src/interpreter.rs:13-162 | `interpret` on a fresh memory returns the status and the output of `Execute` over the program's label table |
| Codec.DecodeRecord | interpreter/src/lexer.rs:77-97 | the decoder reads one encoded record and then continues with the rest of the stream |
| Codec.DecodeEncode | interpreter/src/lexer.rs:71-100 | decoding the compiled stream of any program gives the program back |
| Codec.DecodedLength | interpreter/src/lexer.rs:71-100 | a stream that decodes has even length and is exactly as long as the re-encoding of its decoding |
| Codec.RecordLength | interpreter/src/lexer.rs:83-94 | a record read with an operand re-encodes to 4 bytes, and one read without an operand to 2 |
| Codec.DecodeBoundaries | interpreter/src/lexer.rs:78-94 | the empty stream decodes to no instructions; a lone byte, or an operand opcode with fewer than 4 bytes, is TruncatedStream; the operand is read big-endian |
| Codec.CompileAndLoad | interpreter/src/compiler.rs:5-19 | compiling and then loading a program gives it back |
| Codec.LoneByteAsWritten | interpreter/src/lexer.rs:76-94 | the loop as written turns the stream `[0x07]` into `[Output]`; the corrected decoder reports TruncatedStream |
| Codec.TrailingByteAsWritten | interpreter/src/lexer.rs:76-94 | as written, a lone trailing byte after a valued record becomes the mode byte, and the stale second buffer byte (the low byte of the previous operand) becomes the opcode |
| Codec.AsWrittenAgrees | interpreter/src/lexer.rs:76-94 | on every stream the corrected decoder accepts, the loop as written gives the same result |
| Legacy.FromStringLegacy | interpreter/src/main.rs:108-148 | an accepted mnemonic names the result and is not one of GTN, LTN, GTE, LTE or EXT |
| Legacy.LegacyTableAgrees | interpreter/src/main.rs:108-148 | the older table rejects GTN, LTN, GTE, LTE and EXT and agrees with `from_string` on every other string |
| Legacy.LexMain | interpreter/src/main.rs:55-149 | the older lexing loop computes `LexText` with the older table |
| Legacy.LineAgrees | interpreter/src/main.rs:56-148 | a line the older lexer accepts lexes the same with `lex_str` |
| Legacy.TokensAgree | interpreter/src/main.rs:75-148 | tokens the older lexer accepts lex the same with `from_string` |
| Legacy.LexerAgrees | interpreter/src/main.rs:55-149 | every source the older lexer accepts, `lex_str` lexes to the same program |
| Legacy.InterpretMain | interpreter/src/main.rs:161-298 | the older engine is `Execute` in the Legacy dialect, over 65535 zeroed cells and the label table |

## Left out

- Reading files, `BufReader` and line reading are not modelled. The text lexers receive the lines as a sequence of strings, and the decoder receives the bytes. I/O errors cannot happen.
- `Lexer.LexBin`: a `read` is assumed to return as many bytes as remain, up to two. Short reads in the middle of a file are not modelled.
- Console I/O is replaced by an input sequence and an output trace. The terminal, the flushes and OS read errors are not modelled. In the library engine, an empty input is `InputFailure`, which stands for `read_char` failing.
- The command line, the format selection by file extension, and the timing and diagnostic printing in `main.rs` are not modelled. `main.rs`'s `read_lines` is not modelled either.
- `interpreter.rs` also has a `Function` instruction, a `functions` table and a `meth_calls` stack (lines 23-33, 63-65, 132-134 and 143-154). `Function` is not a variant of the `Instruction` enum in `instructions.rs`, so that table is always empty. JMP is modelled with the label table alone, and the `Function` case is left out.
- The `Memory` type of the library engine is not part of this model. Its number of cells is a parameter of at least 65535.
- `interpreter.rs` imports `ADDRESS_ADDRESS` and `COMPARISON_ADDRESS` from the crate root, which is not part of this model. The library engine's constants are assumed equal to `main.rs`'s `ADDRESS_ADDRESS` (65534) and `COMPARE_ADDRESS` (65533), at `main.rs` lines 179-180.
- `Interpreter.Execute`: the run is bounded by a fuel count. A program that loops forever is only described up to any finite number of steps.
- JMP pushes the caller before it looks up the label. When the lookup fails the run aborts, so the push cannot be observed, and the model keeps the unchanged state on every error.
- Errors carry a kind and, where useful, the offending value. The `anyhow` messages are not modelled.
- `Lexer.ParseRadix`: every failure of `from_str_radix` is one `InvalidNumber` error. Rust's error kinds (empty, invalid digit, overflow) are not told apart.
- EXT does nothing in the code: the loop just moves on, like GTN, LTN, GTE and LTE. EXT is modelled that way, as `Interpreter.NoOpsAdvance` states, and not as a command that ends the run.
- The push helpers in `compiler.rs` take and return byte sequences instead of appending to a `&mut Vec<u8>`.

## Findings

| source | as written | input that shows it | evidently intended | confidence | as-written member | corrected member |
|---|---|---|---|---|---|---|
| interpreter/src/lexer.rs:78-94 | when one byte is left, `read` fills only `buffer[0]`, and `buffer[1]` still holds a byte of the previous record, which is then taken as the opcode | the stream `[0x07]` decodes to `[Output]`; `[0x00, 0x05, 0x00, 0x00, 0x07]` decodes to `[SetAddress(Literal(0)), Output]` | a stream that ends inside a record is an "Unexpected end of file" error | not executed | Lexer.DecodeAsWritten, Codec.LoneByteAsWritten | Lexer.Decode, Lexer.LexBin, Codec.DecodeEncode |
