# A verified model of a two-pass SIC/XE-style assembler

This project models the core of a small two-pass assembler for a SIC/XE-like
machine with 24-bit addresses, and proves properties about that model. The core covers:

- **Reading the instruction table.** `TextToCommandDtos` reads it from text as three tokens per line. The validating constructor `Command(CommandDto)` turns each line into a command. `SetAvailibleCommands` installs the result.
- **The tokenizer** `ParseCode`.
- **The character predicates** of `StringChecker`.
- **The `Assembler` object**, with its fields `ip`, `startAddress`, `endAddress`, `TSI` (the symbol table) and the instruction table.
- **`FirstPass`**, the first pass. It turns source token lines into intermediate lines. Along the way it enforces the START/END rules, records labels and allocates memory under `OverflowCheck`.
- **`SecondPass`**, the second pass. It turns the intermediate lines into H, T and E records.

Modules:

| module | file | what it holds |
|---|---|---|
| `Errors` | `Errors.dfy` | `Option`, `Result` and one error per exception the code throws |
| `Text` | `Text.dfy` | the .NET pieces the code relies on, written out: ASCII `ToUpper`, `Trim(char)`, `{v:Xw}`, `Convert.ToInt32(s, 16)`, decimal parsing, 32-bit wrap-around |
| `StringChecker` | `StringChecker.dfy` | `IsLatinLetter`, `IsDigit`, `IsLatinLetterOrDigitOrUnderscore`, `IsValidName` |
| `Structure` | `Structure.dfy` | `CommandDto`, `Command`, `CodeLine` and `SymbolicName`, plus the constructor `Command(CommandDto)` as `NewCommand` |
| `Parser` | `Parser.dfy` | `ParseCode` (a method with its loop) and its specification, plus `TextToCommandDtos` |
| `Syntax` | `Syntax.dfy` | `IsCommand`, `IsDirective`, `IsLabel`, `IsRegister`, `IsCString`, `IsXString`, `GetRegisterNumber`, `ConvertToASCII` (a method with its loop), `GetSymbolicName`, and the two line classifiers |
| `Pass1` | `Pass1.dfy` | the first pass as a function: a state, one step per line, the walk over the lines, and its properties |
| `Pass2` | `Pass2.dfy` | the second pass as a function: one record per line, the E record, and their properties |
| `AssemblerClass` | `Assembler.dfy` | the `Assembler` class, whose methods update its fields in place |

The class methods connect to the pure functions as follows:

- `FirstPass` and `SecondPass` are proved equal to `Pass1.FirstPass` and `Pass2.SecondPass`.
- `SetAvailibleCommands` is proved equal to `CommandTable`.

Thrown exceptions become `Err` values. When the first pass fails, the model also describes the state the fields are left in. That matters because `SecondPass` reads `ip`, `startAddress` and `endAddress` as the last `FirstPass` left them. `FirstPass` does not clear `TSI` itself, so the table it starts from is an input. The caller runs these steps in order:

1. `TextToCommandDtos` and `SetAvailibleCommands`.
2. `ClearTSI`.
3. `ParseCode` of the program text, then `FirstPass`.
4. `ParseCode` of the first pass's output joined with `\n`, then `SecondPass`.

Quirks of the code that the model keeps, each proved as a lemma:

- The label on the START line is never entered into `TSI`.
- An `X"…"` literal allocates one byte per hexadecimal digit.
- A lower-case `c"…"` literal is measured differently by the two passes.
- So is `C"""`, a literal holding one quote: pass 1 trims every quote and allocates no byte, while pass 2 writes the quote, `01 22`.
- `Convert.ToInt32(s, 16)` skips one leading `+` and a `0x` prefix, so a command-table code `+1` or `0x1F` is accepted.
- A lower-case `x"…"` literal is rejected.
- In the second pass, a one-operand mode-0 instruction gets the length `operand.Length / 2`.
- `X2` is a minimum width, so the byte count of a large `RESW` takes three digits.

Behaviour of the code that its own messages do not suggest, kept as written:

- END writes an empty line into the first pass's output.
- A missing operand reads as 0 in the second pass (`Convert.ToInt32(null, 16)`).
- The range check on opcodes is 0..63, although the error message at `Command.cs:61` says `1F`.

## Model

| member | source | states |
|---|---|---|
| Text.Upper | SysProgTemplateShared/Assembler.cs:684 | `ToUpper` keeps the length, and each character is the ASCII upper case of the one at the same position |
| Text.UpperIdempotent | SysProgTemplateShared/Assembler.cs:96 | upper-casing twice is upper-casing once |
| Text.UpperOfUpper | SysProgTemplateShared/Assembler.cs:684 | a string without lower-case letters is its own upper case |
| Text.Trim | SysProgTemplateShared/Assembler.cs:206 | `Trim(c)` never lengthens, and a non-empty result neither starts nor ends with `c` |
| Text.TrimStart | SysProgTemplateShared/Assembler.cs:206 | the result is a suffix of the input that does not start with `c`; every character dropped is `c`; it is non-empty when the input ends in another character |
| Text.TrimEnd | SysProgTemplateShared/Assembler.cs:206 | the result is a prefix of the input that does not end with `c`; every character dropped is `c`; it is non-empty when the input starts with another character |
| Text.TrimRemovesOnly | SysProgTemplateShared/Assembler.cs:206 | `Trim(c)` is one contiguous slice of the input, and every character it removed before or after that slice is `c` |
| Text.TrimKeepsFirst | SysProgTemplateShared/Assembler.cs:217 | a string whose first character is not `c` keeps that first character through `Trim(c)` |
| Text.Wrap32 | SysProgTemplateShared/Assembler.cs:573 | C# `int` multiplication: the result is in int32 range, congruent to the exact value modulo 2^32, and equal to it when that is in range |
| Text.FormatHex | SysProgTemplateShared/Assembler.cs:573 | `{v:Xw}`: a value `v >= 0` prints as its upper-case hexadecimal digits, padded with zeros to at least `w`; a negative value prints `v mod 2^32`. `PadHexRoundTrip`, `PadHexWidth` and `FormatHexNegative` state what is printed |
| Text.FormatHexNegative | SysProgTemplateShared/Assembler.cs:573 | a negative int32 prints its two's complement: exactly eight digits at any width up to eight, which `Convert.ToInt32(s, 16)` reads back as the negative value |
| Text.ReadHex | SysProgTemplateShared/Structure/Command.cs:56 | the digit part of `Convert.ToInt32(s, 16)`: it succeeds exactly on non-empty hexadecimal strings of value below 2^32, and reads them as a two's-complement int32 |
| Text.ParseHex | SysProgTemplateShared/Structure/Command.cs:56 | `Convert.ToInt32(s, 16)`: a string of hexadecimal digits is read by `ReadHex`; `SignAndPrefixRead` states the sign and the prefix |
| Text.SignAndPrefixRead | SysProgTemplateShared/Structure/Command.cs:56 | one `+` is skipped (`+d` reads as `d`, and a second `+` fails); `0xd` and `0Xd` read as the digits `d`; a `-` sign always fails |
| Text.SignAndPrefixSkipped | SysProgTemplateShared/Structure/Command.cs:69 | `+1` reads as 1 and `0x1F` as 31; `+`, `0x` and `-1` fail |
| Text.ParseDec | SysProgTemplateShared/Assembler.cs:132 | `Convert.ToInt32(s, 10)`, also `int.TryParse` (lines 191 and 423) and `int.Parse` (line 763): a run of digits, or `+` followed by digits, gives its value when that is at most 2^31-1; a minus sign followed by digits gives the negated value when that is at least -2^31; every other string fails |
| Text.HexStringRoundTrip | SysProgTemplateShared/Assembler.cs:151 | the digits printed for `n` read back as `n` |
| Text.PadHexRoundTrip | SysProgTemplateShared/Assembler.cs:151 | `{n:Xw}` of an int32 `n >= 0` reads back through `Convert.ToInt32(s, 16)` as `n` |
| Text.PadHexWidth | SysProgTemplateShared/Assembler.cs:151 | `{n:Xw}` has exactly `w` digits when `n < 16^w` |
| Text.HexStringLength | SysProgTemplateShared/Assembler.cs:151 | a value below `16^w` takes at most `w` digits |
| Text.HexStringLonger | SysProgTemplateShared/Assembler.cs:573 | a value of at least `16^k` takes more than `k` digits: `Xw` is only a minimum width |
| Text.ZerosPrefix | SysProgTemplateShared/Assembler.cs:151 | leading zeros change neither hexadecimal validity nor value |
| Text.HexStringUpper | SysProgTemplateShared/Assembler.cs:151 | hexadecimal output uses only `0`-`9` and `A`-`F` |
| Text.PadHexUpper | SysProgTemplateShared/Assembler.cs:586 | `ToUpper` leaves `{n:Xw}` unchanged |
| Text.DecStringRoundTrip | SysProgTemplateShared/Assembler.cs:763 | the decimal digits of `n` are non-empty, all digits, and read back as `n` |
| Text.DecimalRoundTrip | SysProgTemplateShared/Assembler.cs:763 | reading the decimal digits of an int32 `n >= 0` back with `int.Parse` gives `n` |
| StringChecker.IsValidName | SysProgTemplateShared/Helpers/StringChecker.cs:11-18 | the definition: a non-empty name of Latin letters and digits. Its properties are stated by `ValidNameIsLabelAlphabet` |
| StringChecker.IsLatinLetter | SysProgTemplateShared/Helpers/StringChecker.cs:20-23 | the definition: `A`-`Z` or `a`-`z`. `LatinLetterFolds` states what upper-casing does to it |
| StringChecker.IsDigit | SysProgTemplateShared/Helpers/StringChecker.cs:25-28 | the definition: `0`-`9`. `DigitsAreDecimal` ties it to decimal printing |
| StringChecker.IsLatinLetterOrDigitOrUnderscore | SysProgTemplateShared/Helpers/StringChecker.cs:30-33 | the definition: a Latin letter, a digit or `_`. `LatinLetterFolds` shows upper-casing keeps the class |
| StringChecker.LatinLetterFolds | SysProgTemplateShared/Helpers/StringChecker.cs:20-23 | a Latin letter is exactly a character that upper-cases into `A`-`Z`; upper-casing keeps letters, digits and `_` in their classes |
| StringChecker.ValidNameIsLabelAlphabet | SysProgTemplateShared/Helpers/StringChecker.cs:11-33 | a valid name uses only letter-digit-underscore characters, has no `_`, and stays valid when upper-cased |
| StringChecker.DigitsAreDecimal | SysProgTemplateShared/Helpers/StringChecker.cs:25-28 | `IsDigit` holds exactly for `0`-`9`, the characters the decimal printer produces |
| Structure.NewCommand | SysProgTemplateShared/Structure/Command.cs:31-77 | the constructor succeeds exactly when the name is valid and starts with a letter, the code parses in hex to 0..63 and the length parses to 1, 2 or 4. The name is kept verbatim. Each error names the first failing check, in the order name, code, length, and says why that check failed |
| Structure.NewCommandRoundTrip | SysProgTemplateShared/Structure/Command.cs:52-76 | writing a valid command's code and length in hexadecimal and constructing it again gives back the same command |
| Parser.SplitAtNewlines | SysProgTemplateShared/Helpers/Parser.cs:20 | the pieces are at least one and contain no `\n` |
| Parser.SplitLines | SysProgTemplateShared/Helpers/Parser.cs:20 | `Regex.Split(input, @"\r?\n")`: the pieces between line feeds, each dropping the one `\r` before its `\n`. `SplitLinesSeparators` and `CrLfLines` state its properties |
| Parser.SplitJoinRoundTrip | SysProgTemplateShared/Helpers/Parser.cs:20 | joining the pieces with `\n` gives the input back |
| Parser.NewlineCount | SysProgTemplateShared/Helpers/Parser.cs:20 | there is one more piece than there are `\n` in the input |
| Parser.SplitBefore | SysProgTemplateShared/Helpers/Parser.cs:20 | a first line without `\n` is split off at the first `\n`, and the rest is split alike |
| Parser.SplitWhole | SysProgTemplateShared/Helpers/Parser.cs:20 | a text without `\n` is a single piece |
| Parser.SplitLinesSeparators | SysProgTemplateShared/Helpers/Parser.cs:20 | splitting at `\r?\n` gives one more line than there are `\n`, none containing `\n`; without `\r` in the input it is the plain split and joins back to the input |
| Parser.CrLfPieces | SysProgTemplateShared/Helpers/Parser.cs:20 | lines joined with `\r\n` split at `\n` into the lines, each but the last followed by its `\r` |
| Parser.CrLfLines | SysProgTemplateShared/Helpers/Parser.cs:20 | lines without `\r` or `\n`, joined with `\r\n`, split at `\r?\n` back into the same lines |
| Parser.NoCarriageReturnInPieces | SysProgTemplateShared/Helpers/Parser.cs:20 | a text without `\r` splits into pieces without `\r` |
| Parser.LastQuote | SysProgTemplateShared/Helpers/Parser.cs:29 | the index of the last `"` of a line, or -1 when there is none |
| Parser.RunEnd | SysProgTemplateShared/Helpers/Parser.cs:29 | the end of the maximal non-white-space run from `p` (`\S+`) |
| Parser.SkipWhite | SysProgTemplateShared/Helpers/Parser.cs:29 | the next match starts at the first character from `p` on that is not white space, or there is none |
| Parser.Scan | SysProgTemplateShared/Helpers/Parser.cs:29-35 | every match is non-empty with no white space at either end, and is either free of white space or a `C"…"`/`X"…"` literal |
| Parser.ScanTokens | SysProgTemplateShared/Helpers/Parser.cs:29-35 | the matches from `p` are none exactly when only white space remains; otherwise the first match runs from the first non-white character to just past the line's last quote when it opens a `C"`/`X"` literal, else to the end of its run, and the remaining matches start right after it |
| Parser.ScanKeepsContent | SysProgTemplateShared/Helpers/Parser.cs:29-35 | the tokens, concatenated, hold exactly the non-white-space characters of the line in order |
| Parser.ScanEmpty | SysProgTemplateShared/Helpers/Parser.cs:29-40 | a line yields no token exactly when it is all white space |
| Parser.TokenizeKeepsContent | SysProgTemplateShared/Helpers/Parser.cs:29-40 | the same two facts for a whole line |
| Parser.Tokenize | SysProgTemplateShared/Helpers/Parser.cs:29-35 | `Regex.Matches(line, pattern)`: the matches of the whole line left to right, which is `Scan` from position 0. `ScanTokens`, `TokenizeKeepsContent` and `TokenizeJoinStable` state what they are |
| Parser.TokenizeJoinStable | SysProgTemplateShared/Helpers/Parser.cs:29-35 | tokenizing a line, joining its tokens with single spaces and tokenizing again gives the same tokens; a blank line joins to the empty string, which has no token either |
| Parser.NonEmptyTokenLines | SysProgTemplateShared/Helpers/Parser.cs:37-40 | every kept line has at least one token |
| Parser.TokenLinesWellFormed | SysProgTemplateShared/Helpers/Parser.cs:31-40 | every token of every kept line is non-empty with no surrounding white space |
| Parser.ParseCode | SysProgTemplateShared/Helpers/Parser.cs:17-44 | the loop yields the token lists of the non-blank lines in order, each non-empty, with well-formed tokens |
| Parser.TextToCommandDtos | SysProgTemplateShared/Helpers/Parser.cs:46-64 | it succeeds exactly when every line has three tokens, and then gives one DTO per line with name, code and length in order; otherwise it fails with the line-format error |
| Syntax.IsCommand | SysProgTemplateShared/Assembler.cs:680-685 | the definition: some table entry has this name ignoring case. `SourceLineAccepted` shows how it decides a line |
| Syntax.IsDirective | SysProgTemplateShared/Assembler.cs:687-693 | the definition: one of the six directive names ignoring case. `SourceLineAccepted` shows how it decides a line |
| Syntax.IsLabel | SysProgTemplateShared/Assembler.cs:695-711 | the definition: 1 to 10 letters, digits and `_` starting with a letter, neither a register, an instruction nor a directive. `UpperLabelIsLabel` shows it survives upper-casing |
| Syntax.IsXString | SysProgTemplateShared/Assembler.cs:713-731 | the definition: `X"…"` with a non-empty even run of hexadecimal digits. `UpperCaseXStringAccepted` and `LowerCaseXStringRejected` state which literals pass |
| Syntax.IsCString | SysProgTemplateShared/Assembler.cs:733-752 | the definition: `C"…"` of at least four ASCII characters. `UpperCaseCStringMeasuredAlike` and `LowerCaseCStringMeasuredTwice` state how it is measured |
| Syntax.IsRegister | SysProgTemplateShared/Assembler.cs:754-759 | the definition: `R1`..`R16`. `RegisterNumbers` states its numbers |
| Syntax.GetRegisterNumber | SysProgTemplateShared/Assembler.cs:761-764 | `int.Parse(chunk.Substring(1))`: it succeeds exactly when the token is non-empty and the rest of it parses as a decimal, and then gives that value; every failure is the generic `Failure` |
| Syntax.RegisterNumbers | SysProgTemplateShared/Assembler.cs:754-764 | the registers are exactly `R1`..`R16`, and the register number of `Rn` is `n` |
| Syntax.AsciiCodeWidth | SysProgTemplateShared/Assembler.cs:780 | each character's code prints as two hexadecimal digits that read back as the code |
| Syntax.AsciiCode | SysProgTemplateShared/Assembler.cs:776 | `Encoding.ASCII`: a character's own code up to 127, and `?` (63) above |
| Syntax.AsciiHex | SysProgTemplateShared/Assembler.cs:776-780 | `ConvertToASCII`: two `X2` digits per character, in order. `AsciiHexDecodes` states that each pair reads back as its character's code |
| Syntax.AsciiHexDecodes | SysProgTemplateShared/Assembler.cs:773-784 | the encoding has two digits per character, and pair `i` reads back as the code of character `i` |
| Syntax.ConvertToASCII | SysProgTemplateShared/Assembler.cs:773-784 | the loop produces the two-digit ASCII code of each character in turn, twice as many digits as characters |
| Syntax.FindSymbol | SysProgTemplateShared/Assembler.cs:766-771 | `GetSymbolicName` finds nothing exactly when no entry matches ignoring case, and otherwise returns the first entry that matches |
| Syntax.InTsi | SysProgTemplateShared/Assembler.cs:96 | the duplicate-label test: some entry of `TSI` has the label's name ignoring case. `DuplicateLabelRejected` states its effect |
| Syntax.InAddressRange | SysProgTemplateShared/Assembler.cs:786-789 | the bound of `OverflowCheck`: the addresses 0..16777215 (`maxAddress`). `Allocate` states its effect |
| Syntax.GetCodeLineFromSource | SysProgTemplateShared/Assembler.cs:794-899 | every failure is the line-format error; a label taken from the line is a label, and is the first token upper-cased |
| Syntax.SourceLineShape | SysProgTemplateShared/Assembler.cs:794-899 | lines of fewer than 1 or more than 4 tokens are rejected. A classified line keeps its tokens in order, with only label and mnemonic upper-cased. The mnemonic is an instruction or directive, and it is an instruction when there are two operands or four tokens |
| Syntax.SourceLineAccepted | SysProgTemplateShared/Assembler.cs:794-899 | which lines are accepted, per token count: 1 token when it is an instruction or END; 2 when they are a label and an instruction, START or END, or an instruction or directive and its operand; 3 when they are a label, an instruction or directive and an operand, or an instruction and two operands; 4 when they are a label, an instruction and two operands. The first token is taken as the label exactly in the label forms |
| Syntax.GetCodeLineFromFirstPass | SysProgTemplateShared/Assembler.cs:901-949 | it accepts exactly 2 to 4 tokens, always with the first token in the label slot, and keeps the tokens in order |
| Syntax.UpperLabelIsLabel | SysProgTemplateShared/Assembler.cs:695-711 | a label stays a label when upper-cased, as it is stored in `TSI` |
| Syntax.UpperCaseCStringMeasuredAlike | SysProgTemplateShared/Assembler.cs:204-212 | for `C"t"` with `t` non-empty and neither starting nor ending with `"`, both passes measure exactly `t`: pass 1 by `Trim('C').Trim('"')`, pass 2 by `Substring(2, len - 3)` |
| Syntax.CSymbolsPass1 | SysProgTemplateShared/Assembler.cs:206 | `Trim('C').Trim('"')`: the text of a `C"…"` literal that pass 1 counts: the literal without the `C`s at either end, then without the quotes at either end |
| Syntax.CSymbolsPass2 | SysProgTemplateShared/Assembler.cs:516 | `Substring(2, Length - 3)`: the text between `C"` and the closing quote, which pass 2 counts and encodes |
| Syntax.XSymbols | SysProgTemplateShared/Assembler.cs:217 | `Trim('X').Trim('"')`, as both passes (also line 525) measure an `X"…"` literal. `XSymbolsOfLiteral` states that `X"h"` gives `h` |
| Syntax.QuoteLiteralMeasuredApart | SysProgTemplateShared/Assembler.cs:204-212 | `C"""` is a C literal; pass 1 measures it as empty, pass 2 (line 516) as the one quote |
| Syntax.LowerCaseCStringMeasuredTwice | SysProgTemplateShared/Assembler.cs:513-520 | for `c"t"` pass 1 measures `c"t`, two characters more than the `t` of pass 2 |
| Syntax.LowerCaseXStringRejected | SysProgTemplateShared/Assembler.cs:713-731 | no token starting with a lower-case `x` is a hexadecimal literal |
| Syntax.XSymbolsOfLiteral | SysProgTemplateShared/Assembler.cs:217 | `X"h"` trims to `h` |
| Syntax.UpperCaseXStringAccepted | SysProgTemplateShared/Assembler.cs:713-731 | `X"h"` with `h` a non-empty even run of upper-case hexadecimal digits is a hexadecimal literal with symbols `h` |
| Pass1.Apply | SysProgTemplateShared/Assembler.cs:106-448 | an accepted line appends exactly its one output line and leaves `TSI` alone; an allocation advances `ip` by its size and changes no flag or address |
| Pass1.Allocate | SysProgTemplateShared/Assembler.cs:786-789 | `OverflowCheck(ip + size)`: the allocation succeeds exactly when `ip + size` is in 0..16777215, and otherwise fails with the overflow error |
| Pass1.SingleOperand | SysProgTemplateShared/Assembler.cs:158-159 | it succeeds exactly when there is one operand; otherwise the missing-operand error comes before the extra-operand error |
| Pass1.TranslateStart | SysProgTemplateShared/Assembler.cs:113-153 | START succeeds exactly when all of these hold: one operand; `ip == 0`; no earlier START; a decimal address in 1..16777215; a label. It then opens the program at that address and writes `name START address` |
| Pass1.TranslateWord | SysProgTemplateShared/Assembler.cs:155-182 | WORD succeeds exactly when it has one decimal operand in 1..16777215 and `ip + 3` is in range; it then allocates three bytes and writes `ip WORD value`. A good operand that does not fit is the overflow error |
| Pass1.TranslateByte | SysProgTemplateShared/Assembler.cs:184-230 | BYTE succeeds exactly when its single operand has one of three forms and its bytes fit: a decimal byte 0..255 takes one byte; a `C"…"` literal takes its `Trim('C').Trim('"')` length and is copied as written; an `X"…"` literal takes its digit count and is copied upper-cased. A good operand that does not fit is the overflow error |
| Pass1.ByteSize | SysProgTemplateShared/Assembler.cs:191-223 | the bytes a BYTE operand takes: 1 for a decimal 0..255, the `Trim('C').Trim('"')` length of a `C"…"` literal, the digit count of an `X"…"` literal, and nothing for any other operand. `TranslateByte` and `QuoteExample` state its use |
| Pass1.TranslateReserve | SysProgTemplateShared/Assembler.cs:232-286 | RESW and RESB succeed exactly when they have one decimal count in 1..255 and `3n` or `n` more bytes fit; they then allocate that many and write the count in two digits. A good count that does not fit is the overflow error |
| Pass1.TranslateEnd | SysProgTemplateShared/Assembler.cs:288-324 | END succeeds exactly when there is at most one operand, START has been seen, END has not, and any operand is an address in range. The entry point is the operand, or else the start address |
| Pass1.FindCommand | SysProgTemplateShared/Assembler.cs:330 | `Find` returns the first command whose upper-cased name is the mnemonic, and nothing when there is none |
| Pass1.TranslateCommand | SysProgTemplateShared/Assembler.cs:328-446 | an instruction of length 1, 2 or 4 succeeds exactly when its operands fit that length (none; two registers or one decimal byte; one label or one decimal address) and its bytes fit in memory; a fitting line that does not fit in memory is the overflow error. It writes `ip opcode` and then the registers, the byte in two digits, the label, or the address in six digits; the opcode byte is `code*4`, or `code*4+1` for a label. A table length other than 1, 2 or 4 writes an empty line |
| Pass1.Translate | SysProgTemplateShared/Assembler.cs:106-446 | the effect of an accepted line obeys the START/END and allocation rules; only START opens and only END closes the program; a token that is neither a directive nor an instruction is an unknown command |
| Pass1.Record | SysProgTemplateShared/Assembler.cs:93-104 | a label is pushed with the current `ip` once START has been seen, and nothing else changes |
| Pass1.Step | SysProgTemplateShared/Assembler.cs:78-448 | a line the classifier rejects fails with the classifier's error and changes nothing; a line that succeeds appends exactly one output line and keeps the earlier output and `TSI` as prefixes; a line that fails later changes nothing but, possibly, `TSI` grown by its label |
| Pass1.Run | SysProgTemplateShared/Assembler.cs:77-451 | the output and `TSI` only grow, by at most one output line per source line |
| Pass1.FirstPass | SysProgTemplateShared/Assembler.cs:66-454 | `TSI` starts with the table it was given, and there are at most as many output lines as source lines |
| Pass1.StepKeepsGood | SysProgTemplateShared/Assembler.cs:77-447 | one line keeps `ip` in range, START before END, the start address at most `ip` and the entry point in range; it never changes the start address once set; it never lowers `ip` |
| Pass1.RunKeepsGood | SysProgTemplateShared/Assembler.cs:77-451 | the same invariant holds across the whole walk |
| Pass1.FirstPassSucceeds | SysProgTemplateShared/Assembler.cs:66-454 | `ip` ends in 0..16777215, whatever the outcome. A successful pass has seen START and END, has `0 < startAddress <= ip` and has an entry point in range |
| Pass1.RunDoneHasEnd | SysProgTemplateShared/Assembler.cs:451 | a walk that succeeds has seen END |
| Pass1.LinesAfterEndSkipped | SysProgTemplateShared/Assembler.cs:88 | lines appended after a program that assembles change nothing |
| Pass1.CodeBeforeStartRejected | SysProgTemplateShared/Assembler.cs:82 | a first line that allocates bytes without START makes the pass fail with the missing-START error at the next line |
| Pass1.StepEnd | SysProgTemplateShared/Assembler.cs:288-323 | only a line the classifier reads as END sets the END flag |
| Pass1.MissingEndFails | SysProgTemplateShared/Assembler.cs:451 | with no END line there is no successful pass |
| Pass1.MissingEndReported | SysProgTemplateShared/Assembler.cs:451 | a program without END that would assemble with an END line appended fails with the missing-entry-point error |
| Pass1.AddressRead | SysProgTemplateShared/Assembler.cs:179 | the address column `{ip:X6} ` of an emitted line reads back as `ip` |
| Pass1.WordLine | SysProgTemplateShared/Assembler.cs:179 | the WORD line begins with the `ip` it was translated at |
| Pass1.ByteLine | SysProgTemplateShared/Assembler.cs:199-222 | each form of BYTE line begins with the `ip` it was translated at |
| Pass1.ReserveLine | SysProgTemplateShared/Assembler.cs:255-283 | RESW and RESB lines begin with the `ip` they were translated at |
| Pass1.CommandLine | SysProgTemplateShared/Assembler.cs:342-431 | every instruction line begins with the `ip` it was translated at, or is empty |
| Pass1.TranslateLine | SysProgTemplateShared/Assembler.cs:106-446 | the START line ends with ` START address`; every other accepted line is empty or begins with the `ip` it was translated at |
| Pass1.StepLine | SysProgTemplateShared/Assembler.cs:78-448 | one accepted line writes the START line, or a line that is empty or addressed between the `ip` before and after it |
| Pass1.RunAddresses | SysProgTemplateShared/Assembler.cs:77-451 | after START, every line written is empty or addressed between the START address and the current `ip` |
| Pass1.RunBeforeStart | SysProgTemplateShared/Assembler.cs:82 | before START only lines addressed 0 can be written by a pass that succeeds; then comes the START line, then lines within start..ip |
| Pass1.FirstPassAddresses | SysProgTemplateShared/Assembler.cs:66-454 | a successful pass writes lines addressed 0 (allocating nothing), then the START line, then lines that are empty or addressed within `startAddress`..`ip` |
| Pass1.RecordTable | SysProgTemplateShared/Assembler.cs:93-104 | recording a label not yet in `TSI` keeps the table's invariant and keeps names distinct ignoring case |
| Pass1.ApplyTable | SysProgTemplateShared/Assembler.cs:106-446 | the command part of a line never touches `TSI` |
| Pass1.StepTable | SysProgTemplateShared/Assembler.cs:77-447 | one line only extends `TSI`, keeps its names distinct and keeps its invariant |
| Pass1.RunTable | SysProgTemplateShared/Assembler.cs:77-451 | the same across the whole walk |
| Pass1.FirstPassSymbols | SysProgTemplateShared/Assembler.cs:93-104 | whether the pass succeeds or fails, `TSI` starts with the table it was given, and stays unchanged if START was never seen. Every entry the pass adds is an upper-cased label whose address lies between the START address and the final `ip`. Names distinct ignoring case stay distinct |
| Pass1.DuplicateLabelRejected | SysProgTemplateShared/Assembler.cs:96-99 | a label already in `TSI`, ignoring case, stops the pass at its line with the state unchanged |
| Pass1.StartLabelNotRecorded | SysProgTemplateShared/Assembler.cs:100-124 | before START has been seen, no line changes `TSI`, so the START line's own label is never recorded |
| Pass1.LabelRecordedAtIp | SysProgTemplateShared/Assembler.cs:100-103 | after START, a new label is recorded, upper-cased, at the `ip` from before the line's allocation |
| Pass2.HexOperand | SysProgTemplateShared/Assembler.cs:547 | `Convert.ToInt32(op, 16)` reads a missing operand as 0 and parses a present one in hexadecimal |
| Pass2.TRecord | SysProgTemplateShared/Assembler.cs:493 | a text record is `T `, the tag, a space and the body, each recoverable at its position |
| Pass2.ByteBody | SysProgTemplateShared/Assembler.cs:499-537 | BYTE in pass 2: a hexadecimal value gives `01` and the value in two digits; else a `C"…"` literal gives its length and the ASCII codes between the quotes; else an `X"…"` literal gives its digit count and its digits. It fails, always with the invalid-operand error, exactly when the operand is none of these |
| Pass2.InstructionBody | SysProgTemplateShared/Assembler.cs:582-643 | a mnemonic that is not hexadecimal fails. In mode 0 (the low two bits): no operand gives `01` and the opcode; two operands give `02`, the opcode and the two register numbers, failing when either is not a number; one operand gives half its digit count, the opcode and the operand. Mode 1 succeeds exactly when its operand is in `TSI`, and writes `04`, the opcode and the symbol's address; without an operand it fails with `EmptyOperand`, and with an unknown one with `UndefinedSymbol`. Modes 2 and 3 are errors |
| Pass2.TextBody | SysProgTemplateShared/Assembler.cs:489-643 | by mnemonic: WORD gives `03` and the operand as written; BYTE the BYTE body; RESB the count read in hexadecimal; RESW three times it in 32-bit arithmetic, both in `X2`, failing on a count that does not parse; anything else the instruction body |
| Pass2.LineRecord | SysProgTemplateShared/Assembler.cs:463-646 | a line of fewer than 2 or more than 4 tokens is malformed; the first line's record is `H name startAddress (ip-startAddress)`; every other line gives `T tag body` exactly when its body succeeds, with the body's error otherwise |
| Pass2.Records | SysProgTemplateShared/Assembler.cs:463-650 | successful records are one per line |
| Pass2.RecordsSucceed | SysProgTemplateShared/Assembler.cs:463-650 | the records succeed exactly when every line's record does, and record `i` is then line `i`'s |
| Pass2.RecordsFirstError | SysProgTemplateShared/Assembler.cs:463-650 | a failure reports the error of the first failing line |
| Pass2.RecordsExtend | SysProgTemplateShared/Assembler.cs:463-650 | one more line appends its record, or fails with its error |
| Pass2.RecordsKeepError | SysProgTemplateShared/Assembler.cs:463-650 | a failing prefix decides the result of the whole |
| Pass2.SecondPass | SysProgTemplateShared/Assembler.cs:456-659 | a successful pass writes one record per line and then `E endAddress`, with `startAddress <= endAddress <= ip` |
| Pass2.SecondPassShape | SysProgTemplateShared/Assembler.cs:456-659 | a successful pass writes, in order: the header, one T record per further line, then `E endAddress` with `startAddress <= endAddress <= ip`; record `i` is what `LineRecord` gives for line `i` |
| Pass2.SecondPassSucceeds | SysProgTemplateShared/Assembler.cs:654-656 | the pass succeeds exactly when every line's record does and the entry point lies in `startAddress..ip`; a bad entry point is reported only after all lines succeed |
| Pass2.OpcodeByteRoundTrip | SysProgTemplateShared/Assembler.cs:586 | the opcode byte `code*4+mode` written by pass 1 is two upper-case digits, reads back as itself, and has `mode` in its low two bits |
| Pass2.WordRecord | SysProgTemplateShared/Assembler.cs:491-495 | a WORD line that pass 1 writes gets `03` and its operand as written |
| Pass2.ByteValueRecord | SysProgTemplateShared/Assembler.cs:499-506 | a BYTE line with a value `{v:X2}` gets `01` and that value |
| Pass2.ByteLineRecord | SysProgTemplateShared/Assembler.cs:499-535 | a BYTE line gets the record whose body `ByteBody` makes of its operand |
| Pass2.ByteCStringRecord | SysProgTemplateShared/Assembler.cs:514-521 | a BYTE line with a `C"…"` literal gets its pass-2 length and the ASCII codes between the quotes; the literal never reads as a hexadecimal value |
| Pass2.ByteXStringRecord | SysProgTemplateShared/Assembler.cs:523-530 | a BYTE line with an `X"…"` literal gets its digit count and its digits |
| Pass2.ReserveBytesCount | SysProgTemplateShared/Assembler.cs:540-556 | `RESB n` gets `n` in two digits |
| Pass2.ReserveWordsCount | SysProgTemplateShared/Assembler.cs:559-576 | `RESW n` writes `3n` bytes in `X2`, which for `n >= 86` takes three digits |
| Pass2.NoOperandRecord | SysProgTemplateShared/Assembler.cs:593-596 | an instruction line without operands gets `01` and the opcode |
| Pass2.RegisterPairRecord | SysProgTemplateShared/Assembler.cs:597-604 | an instruction line `Rm Rn` gets `02`, the opcode and `m`, `n` each in `X1`, which makes R16 two digits |
| Pass2.ByteOperandMeasuredByDigits | SysProgTemplateShared/Assembler.cs:605-613 | a one-byte immediate operand gets length 1 (its digit count halved), not the two bytes pass 1 allocated |
| Pass2.AddressOperandMeasuredByDigits | SysProgTemplateShared/Assembler.cs:605-613 | the six-digit address operand of a length-4 instruction gets length 3 (its digit count halved), not the four bytes pass 1 allocated |
| Pass2.LabelOperandResolved | SysProgTemplateShared/Assembler.cs:619-636 | a `label` instruction line written by pass 1 resolves the label through `TSI`, or fails with undefined-symbol when the label is not there |
| AssemblerClass.ConvertAll | SysProgTemplateShared/Assembler.cs:45 | a successful conversion has one command per DTO; a failure is one of the constructor's errors |
| AssemblerClass.ConvertAllSucceeds | SysProgTemplateShared/Assembler.cs:45 | the conversion succeeds exactly when every DTO constructs, and then command `k` is DTO `k`'s |
| AssemblerClass.ConvertAllFirstError | SysProgTemplateShared/Assembler.cs:45 | a failed conversion reports the first failing DTO's error |
| AssemblerClass.ConvertAllKeepError | SysProgTemplateShared/Assembler.cs:45 | a failing prefix decides the conversion |
| AssemblerClass.NamesDistinct | SysProgTemplateShared/Assembler.cs:49-53 | the definition: no two names equal ignoring case. `AllNamesUnique` computes it |
| AssemblerClass.CodesDistinct | SysProgTemplateShared/Assembler.cs:57-61 | the definition: no two codes equal. `AllCodesUnique` computes it |
| AssemblerClass.CommandTable | SysProgTemplateShared/Assembler.cs:42-64 | an installed table is the converted DTOs, with distinct names and codes; a conversion error comes first, then a duplicate name, then a duplicate code, each only when the earlier checks passed |
| AssemblerClass.CommandTableValid | SysProgTemplateShared/Assembler.cs:42-64 | an installed table has one valid command per DTO, with the DTO's name as written, and no two commands share a name ignoring case or a code; a duplicate is reported only when every DTO converted |
| AssemblerClass.DefaultCommandsValid | SysProgTemplateShared/Assembler.cs:28-35 | the built-in table passes the checks: valid commands, distinct names and distinct codes |
| AssemblerClass.DefaultNamesUpper | SysProgTemplateShared/Assembler.cs:28-35 | the built-in names are upper case and valid |
| AssemblerClass.DefaultNamesDistinct | SysProgTemplateShared/Assembler.cs:28-35 | the built-in names are pairwise different |
| AssemblerClass.DefaultCodesDistinct | SysProgTemplateShared/Assembler.cs:28-35 | the built-in codes are pairwise different |
| AssemblerClass.AllNamesUnique | SysProgTemplateShared/Assembler.cs:49-50 | the `HashSet` loop answers true exactly when no two names are equal ignoring case |
| AssemblerClass.AllCodesUnique | SysProgTemplateShared/Assembler.cs:57-58 | the `HashSet` loop answers true exactly when no two codes are equal |
| AssemblerClass.WordExample | SysProgTemplateShared/Assembler.cs:155-182 | `WORD 64` at 0x100 writes `000100 WORD 000040` and allocates three bytes |
| AssemblerClass.WordRecordExample | SysProgTemplateShared/Assembler.cs:491-495 | `000100 WORD 000040` becomes `T 000100 03 000040` |
| AssemblerClass.ByteExample | SysProgTemplateShared/Assembler.cs:204-212 | `BYTE C"HI"` allocates two bytes, and pass 2 writes `02 4849` for it |
| AssemblerClass.QuoteExample | SysProgTemplateShared/Assembler.cs:204-212 | `BYTE C"""` allocates no byte in pass 1, yet pass 2 (lines 516-520) writes `01 22` for it |
| AssemblerClass.JumpExample | SysProgTemplateShared/Assembler.cs:405-418 | `JMP L1` at 0x103 with the built-in table writes `000103 05 L1` and allocates four bytes |
| AssemblerClass.JumpRecordExample | SysProgTemplateShared/Assembler.cs:619-636 | with L1 at 0x107, `000103 05 L1` becomes `T 000103 04 05000107` |
| AssemblerClass.Assembler.constructor | SysProgTemplateShared/Assembler.cs:23-39 | a new assembler has zero counters, the built-in table and an empty `TSI` |
| AssemblerClass.Assembler.SetAvailibleCommands | SysProgTemplateShared/Assembler.cs:42-64 | the table becomes `CommandTable(dtos)` on success and stays unchanged on any error; no other field changes |
| AssemblerClass.Assembler.ClearTSI | SysProgTemplateShared/Assembler.cs:670-673 | `TSI` becomes empty and nothing else changes |
| AssemblerClass.Assembler.PushToTSI | SysProgTemplateShared/Assembler.cs:662-668 | `TSI` gains one entry at its end and nothing else changes |
| AssemblerClass.Assembler.ProcessLine | SysProgTemplateShared/Assembler.cs:89-446 | processing one line in place leaves the fields, flags and output that `Pass1.Step` gives, with its error |
| AssemblerClass.Assembler.ApplyEffect | SysProgTemplateShared/Assembler.cs:146-323 | applying a line's effect in place updates fields, flags and output as `Pass1.Apply` does |
| AssemblerClass.Assembler.FirstPass | SysProgTemplateShared/Assembler.cs:66-454 | the loop leaves `ip`, `startAddress`, `endAddress`, `TSI` and its result as `Pass1.FirstPass` describes, for a failing pass too; the table is unchanged |
| AssemblerClass.Assembler.SecondPass | SysProgTemplateShared/Assembler.cs:456-659 | the loop returns exactly `Pass2.SecondPass` of the fields and the lines |

## Left out

- `SysProgTemplate/MainWindow.xaml.cs` and `SysProgTemplate/Components/SourceCodeTextBox.cs`. These are the WPF user interface. Only the order in which they call the assembler is described above.
- `AssemblerException` and its messages. Each thrown exception is an `Error` value, without the text of the message.
- `Parser.ParseCodeLine` (`Parser.cs:66-82`). It is an unfinished stub that nothing calls.
- `GetFormattedTsiForMain` (`Assembler.cs:675-678`). It only formats `TSI` for display, and the caller formats the table itself.
- .NET parsing details that the model does not capture:
  - `int.TryParse` and `int.Parse` accepting surrounding white space, and their dependence on culture. Tokens never hold white space, and only `C"…"` and `X"…"` literals, which never parse as numbers, can hold spaces.
  - `Convert.ToInt32(s, 16)` throwing `ArgumentException` rather than `FormatException` for a `-` sign. Both are caught alike, so the model reports the same format failure.
  - `Convert.ToInt32(null, 10)` returning 0. The first pass never reaches these calls with a missing operand.
- Unicode: case folding (`ToUpper`, `CurrentCultureIgnoreCase`) is ASCII-only. White space is the ASCII white-space characters. `Encoding.ASCII` is modelled only up to code 127, with `?` above. No C literal reaches it with such a character.
- The .NET regular-expression engine. The patterns at `Parser.cs:20`, `Parser.cs:29` and `Assembler.cs:758` are written out as explicit scanners and predicates with the same matches.
- Exceptions other than `AssemblerException`, such as a second-pass mnemonic that is not hexadecimal or a register operand that is not a number. The model reports all of them as the one generic `Failure` error.
- `IsLabel` on an empty token. The code would throw; the model answers false, and the tokenizer never produces an empty token.
- The null check inside the pass-2 BYTE case (`Assembler.cs:510-513`). A missing operand has already been read as 0 by the numeric branch, so the check is unreachable.
- The `OverflowCheck` after END reads an operand. The range check just before it already guarantees that it passes.
