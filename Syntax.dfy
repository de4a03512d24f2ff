/**
  The lexical predicates of the assembler (`IsCommand`, `IsDirective`,
  `IsLabel`, `IsRegister`, `IsCString`, `IsXString`), register numbers,
  `ConvertToASCII`, the symbol-table lookup and the two line classifiers
  `GetCodeLineFromSource` and `GetCodeLineFromFirstPass`. The instruction
  table is passed to them explicitly.
*/
module Syntax {
  import opened Errors
  import opened Text
  import opened StringChecker
  import opened Structure

  /** The largest address, 2^24 - 1. */
  const MaxAddress: int := 16777215

  const Directives: set<string> := {"START", "END", "WORD", "BYTE", "RESB", "RESW"}

  /** `OverflowCheck` passes exactly for the addresses 0..MaxAddress. */
  predicate InAddressRange(v: int) { 0 <= v <= MaxAddress }

  /** The name of some command in the table, ignoring case. */
  predicate IsCommand(cmds: seq<Command>, chunk: string) {
    exists k | 0 <= k < |cmds| :: Upper(cmds[k].name) == Upper(chunk)
  }

  predicate IsDirective(chunk: string) {
    Upper(chunk) in Directives
  }

  /** `R1` .. `R16`, upper-case `R`, no leading zero (`^R(?:[1-9]|1[0-6])$`). */
  predicate IsRegister(chunk: string) {
    (|chunk| == 2 && chunk[0] == 'R' && '1' <= chunk[1] <= '9') ||
    (|chunk| == 3 && chunk[0] == 'R' && chunk[1] == '1' && '0' <= chunk[2] <= '6')
  }

  /**
    A label: 1 to 10 Latin letters, digits and underscores starting with a
    letter, not a register once upper-cased, and not an instruction or
    directive name ignoring case. (The C# code indexes `chunk[0]` and would
    throw on an empty string; the tokenizer never produces one.)
  */
  predicate IsLabel(cmds: seq<Command>, chunk: string) {
    0 < |chunk| <= 10 &&
    IsLatinLetter(chunk[0]) &&
    (forall i | 0 <= i < |chunk| :: IsLatinLetterOrDigitOrUnderscore(chunk[i])) &&
    !IsRegister(Upper(chunk)) &&
    !IsCommand(cmds, chunk) && !IsDirective(chunk)
  }

  /** The characters of an `X"…"` literal as both passes measure them: `Trim('X').Trim('"')`. */
  function XSymbols(chunk: string): string {
    Trim(Trim(chunk, 'X'), '"')
  }

  /**
    `X"…"` (either case of `X` is let through the prefix test) holding an even,
    non-zero number of hexadecimal digits. A lower-case `x` survives the
    case-sensitive `Trim('X')` and then fails the digit test.
  */
  predicate IsXString(chunk: string) {
    |chunk| >= 2 && UpperChar(chunk[0]) == 'X' && chunk[1] == '"' && chunk[|chunk| - 1] == '"' &&
    IsHexBody(Upper(XSymbols(chunk)))
  }

  /** A non-empty, even-length run of `0`-`9`, `A`-`F` (`"ABCDEF".Contains`). */
  predicate IsHexBody(symbols: string) {
    |symbols| >= 1 && '"' !in symbols &&
    (forall i | 0 <= i < |symbols| :: IsDigit(symbols[i]) || 'A' <= symbols[i] <= 'F') &&
    |symbols| % 2 == 0
  }

  /** `C"…"` (either case of `C`), at least four characters, all after the first in ASCII. */
  predicate IsCString(chunk: string) {
    |chunk| >= 4 && UpperChar(chunk[0]) == 'C' && chunk[1] == '"' && chunk[|chunk| - 1] == '"' &&
    forall i | 1 <= i < |chunk| :: chunk[i] as int <= 127
  }

  /** `int.Parse(chunk.Substring(1))`; both the substring and the parse can throw. */
  function GetRegisterNumber(chunk: string): (r: Result<int>)
    ensures r.Ok? <==> |chunk| > 0 && ParseDec(chunk[1..]).Some?
    ensures r.Err? ==> r.error == Failure
    ensures r.Ok? ==> ParseDec(chunk[1..]) == Some(r.value)
  {
    if |chunk| == 0 then Err(Failure)
    else match ParseDec(chunk[1..])
      case None => Err(Failure)
      case Some(n) => Ok(n)
  }

  /** The registers are exactly `"R" + n` for n in 1..16, and their number is n. */
  lemma RegisterNumbers(chunk: string)
    ensures IsRegister(chunk) ==> exists n | 1 <= n <= 16 :: chunk == "R" + DecString(n) && GetRegisterNumber(chunk) == Ok(n)
    ensures forall n | 1 <= n <= 16 :: IsRegister("R" + DecString(n))
  {
    if IsRegister(chunk) {
      var n := if |chunk| == 2 then chunk[1] as int - '0' as int else 10 + chunk[2] as int - '0' as int;
      if |chunk| == 2 {
        assert DecString(n) == [chunk[1]];
      } else {
        assert DecString(n) == DecString(1) + [DecDigit(n % 10)];
      }
      assert chunk == "R" + DecString(n);
      DecimalRoundTrip(n);
      assert chunk[1..] == DecString(n);
    }
    forall n | 1 <= n <= 16 ensures IsRegister("R" + DecString(n)) {
      if n >= 10 {
        assert DecString(n) == DecString(1) + [DecDigit(n % 10)];
      }
    }
  }

  // ---------------------------------------------------------------------------
  // ConvertToASCII

  /** `Encoding.ASCII` replaces a character above 127 by `?`. */
  function AsciiCode(c: char): nat {
    if c as int > 127 then 63 else c as int
  }

  /** Two upper-case hexadecimal digits per character. */
  function AsciiHex(s: string): string {
    if |s| == 0 then [] else AsciiHex(s[..|s| - 1]) + FormatHex(AsciiCode(s[|s| - 1]), 2)
  }

  lemma AsciiCodeWidth(c: char)
    ensures |FormatHex(AsciiCode(c), 2)| == 2
    ensures ParseHex(FormatHex(AsciiCode(c), 2)) == Some(AsciiCode(c))
  {
    assert Pow16(2) == 256;
    PadHexWidth(AsciiCode(c), 2);
    PadHexRoundTrip(AsciiCode(c), 2);
  }

  /** The encoding has two digits per character, and each pair reads back as that character's code. */
  lemma {:induction false} AsciiHexDecodes(s: string)
    ensures |AsciiHex(s)| == 2 * |s|
    ensures forall i | 0 <= i < |s| :: ParseHex(AsciiHex(s)[2 * i..2 * i + 2]) == Some(AsciiCode(s[i]))
  {
    if |s| > 0 {
      var init := s[..|s| - 1];
      AsciiHexDecodes(init);
      AsciiCodeWidth(s[|s| - 1]);
      var h := AsciiHex(s);
      forall i | 0 <= i < |s| ensures ParseHex(h[2 * i..2 * i + 2]) == Some(AsciiCode(s[i])) {
        if i < |s| - 1 {
          assert h[2 * i..2 * i + 2] == AsciiHex(init)[2 * i..2 * i + 2];
        } else {
          assert h[2 * i..2 * i + 2] == FormatHex(AsciiCode(s[i]), 2);
        }
      }
    }
  }

  /** `ConvertToASCII`: appends the two digits of each character in turn. */
  method ConvertToASCII(chunk: string) returns (r: string)
    ensures r == AsciiHex(chunk)
    ensures |r| == 2 * |chunk|
  {
    r := [];
    for i := 0 to |chunk|
      invariant r == AsciiHex(chunk[..i])
    {
      r := r + FormatHex(AsciiCode(chunk[i]), 2);
      assert chunk[..i + 1][..i] == chunk[..i];
    }
    assert chunk[..|chunk|] == chunk;
    AsciiHexDecodes(chunk);
  }

  // ---------------------------------------------------------------------------
  // Symbol table

  /** `GetSymbolicName`: the first entry whose name equals `chunk` ignoring case. */
  function FindSymbol(tsi: seq<SymbolicName>, chunk: string): (r: Option<SymbolicName>)
    ensures r.None? <==> forall k | 0 <= k < |tsi| :: Upper(tsi[k].name) != Upper(chunk)
    ensures r.Some? ==> exists k | 0 <= k < |tsi| ::
              (tsi[k] == r.value && Upper(tsi[k].name) == Upper(chunk) &&
               forall j | 0 <= j < k :: Upper(tsi[j].name) != Upper(chunk))
  {
    if |tsi| == 0 then None
    else if Upper(tsi[0].name) == Upper(chunk) then Some(tsi[0])
    else
      var r := FindSymbol(tsi[1..], chunk);
      assert r.Some? ==> exists k | 0 <= k < |tsi[1..]| :: tsi[1..][k] == r.value && tsi[k + 1] == r.value;
      r
  }

  /** The symbol table holds `name` ignoring case. */
  predicate InTsi(tsi: seq<SymbolicName>, name: string) {
    exists k | 0 <= k < |tsi| :: Upper(tsi[k].name) == Upper(name)
  }

  // ---------------------------------------------------------------------------
  // Line classifiers

  /** The tokens a classified line stands for, in order. */
  function Parts(cl: CodeLine): seq<string> {
    (if cl.labelName.Some? then [cl.labelName.value] else []) + [cl.mnemonic] +
    (if cl.firstOperand.Some? then [cl.firstOperand.value] else []) +
    (if cl.secondOperand.Some? then [cl.secondOperand.value] else [])
  }

  /** `cl` keeps the tokens of `line` in order, upper-casing label and mnemonic only. */
  predicate Reassembles(cl: CodeLine, line: seq<string>) {
    var n := if cl.labelName.Some? then 2 else 1;
    |Parts(cl)| == |line| && n <= |line| &&
    (forall i | 0 <= i < n :: Parts(cl)[i] == Upper(line[i])) &&
    (forall i | n <= i < |line| :: Parts(cl)[i] == line[i]) &&
    (cl.secondOperand.Some? ==> cl.firstOperand.Some?)
  }

  /** The token of `line` that `cl` took its mnemonic from. */
  function MnemonicToken(cl: CodeLine, line: seq<string>): string
    requires Reassembles(cl, line)
  {
    if cl.labelName.Some? then line[1] else line[0]
  }

  /**
    `GetCodeLineFromSource`: 1 to 4 tokens. One token: an instruction or `END`.
    Two: a label and an instruction, `START` or `END`; else an instruction or
    directive and its operand. Three: a label, an instruction or directive and
    an operand; else an instruction and two operands. Four: a label, an
    instruction and two operands.
  */
  function GetCodeLineFromSource(cmds: seq<Command>, line: seq<string>): (r: Result<CodeLine>)
    ensures r.Err? ==> r.error == MalformedLine
    ensures r.Ok? && r.value.labelName.Some? ==> |line| > 0 && IsLabel(cmds, line[0]) && r.value.labelName.value == Upper(line[0])
  {
    if |line| == 1 then
      if IsCommand(cmds, line[0]) || Upper(line[0]) == "END" then
        Ok(CodeLine(None, Upper(line[0]), None, None))
      else Err(MalformedLine)
    else if |line| == 2 then
      if IsLabel(cmds, line[0]) &&
         (IsCommand(cmds, line[1]) || Upper(line[1]) == "START" || Upper(line[1]) == "END") then
        Ok(CodeLine(Some(Upper(line[0])), Upper(line[1]), None, None))
      else if IsCommand(cmds, line[0]) || IsDirective(line[0]) then
        Ok(CodeLine(None, Upper(line[0]), Some(line[1]), None))
      else Err(MalformedLine)
    else if |line| == 3 then
      if IsLabel(cmds, line[0]) && (IsCommand(cmds, line[1]) || IsDirective(line[1])) then
        Ok(CodeLine(Some(Upper(line[0])), Upper(line[1]), Some(line[2]), None))
      else if IsCommand(cmds, line[0]) then
        Ok(CodeLine(None, Upper(line[0]), Some(line[1]), Some(line[2])))
      else Err(MalformedLine)
    else if |line| == 4 then
      if IsLabel(cmds, line[0]) && IsCommand(cmds, line[1]) then
        Ok(CodeLine(Some(Upper(line[0])), Upper(line[1]), Some(line[2]), Some(line[3])))
      else Err(MalformedLine)
    else Err(MalformedLine)
  }

  /**
    A classified source line has 1 to 4 tokens and keeps them in order; its
    mnemonic is an instruction or a directive, and an instruction whenever
    the line has two operands or four tokens.
  */
  lemma SourceLineShape(cmds: seq<Command>, line: seq<string>)
    ensures (|line| < 1 || |line| > 4) ==> GetCodeLineFromSource(cmds, line).Err?
    ensures var r := GetCodeLineFromSource(cmds, line);
            r.Ok? ==> Reassembles(r.value, line) &&
                      (IsCommand(cmds, MnemonicToken(r.value, line)) || IsDirective(MnemonicToken(r.value, line)))
    ensures var r := GetCodeLineFromSource(cmds, line);
            r.Ok? && |line| == 4 ==> r.value.labelName.Some? && IsCommand(cmds, line[1])
    ensures var r := GetCodeLineFromSource(cmds, line);
            r.Ok? && r.value.secondOperand.Some? ==> Reassembles(r.value, line) && IsCommand(cmds, MnemonicToken(r.value, line))
  {
    var r := GetCodeLineFromSource(cmds, line);
    if r.Ok? {
      var cl := r.value;
      if |line| == 1 {
        assert Parts(cl) == [Upper(line[0])];
      } else if |line| == 2 {
        if cl.labelName.Some? {
          assert Parts(cl) == [Upper(line[0]), Upper(line[1])];
        } else {
          assert Parts(cl) == [Upper(line[0]), line[1]];
        }
      } else if |line| == 3 {
        if cl.labelName.Some? {
          assert Parts(cl) == [Upper(line[0]), Upper(line[1]), line[2]];
        } else {
          assert Parts(cl) == [Upper(line[0]), line[1], line[2]];
        }
      } else {
        assert Parts(cl) == [Upper(line[0]), Upper(line[1]), line[2], line[3]];
      }
    }
  }

  /**
    Which source lines are accepted, per token count, and when the first
    token is taken as the label.
  */
  lemma SourceLineAccepted(cmds: seq<Command>, line: seq<string>)
    ensures |line| == 1 ==>
              (GetCodeLineFromSource(cmds, line).Ok? <==> IsCommand(cmds, line[0]) || Upper(line[0]) == "END")
    ensures |line| == 2 ==>
              var withLabel := IsLabel(cmds, line[0]) &&
                               (IsCommand(cmds, line[1]) || Upper(line[1]) == "START" || Upper(line[1]) == "END");
              (GetCodeLineFromSource(cmds, line).Ok? <==>
                 withLabel || IsCommand(cmds, line[0]) || IsDirective(line[0])) &&
              (GetCodeLineFromSource(cmds, line).Ok? ==>
                 (GetCodeLineFromSource(cmds, line).value.labelName.Some? <==> withLabel))
    ensures |line| == 3 ==>
              var withLabel := IsLabel(cmds, line[0]) && (IsCommand(cmds, line[1]) || IsDirective(line[1]));
              (GetCodeLineFromSource(cmds, line).Ok? <==> withLabel || IsCommand(cmds, line[0])) &&
              (GetCodeLineFromSource(cmds, line).Ok? ==>
                 (GetCodeLineFromSource(cmds, line).value.labelName.Some? <==> withLabel))
    ensures |line| == 4 ==>
              (GetCodeLineFromSource(cmds, line).Ok? <==> IsLabel(cmds, line[0]) && IsCommand(cmds, line[1]))
  {
  }

  /**
    `GetCodeLineFromFirstPass`: 2 to 4 tokens; the first is always the label
    slot (an address or the program name), the second the mnemonic.
  */
  function GetCodeLineFromFirstPass(line: seq<string>): (r: Result<CodeLine>)
    ensures r.Ok? <==> 2 <= |line| <= 4
    ensures r.Err? ==> r.error == MalformedLine
    ensures r.Ok? ==> r.value.labelName.Some? && Reassembles(r.value, line)
  {
    if |line| == 2 then Ok(CodeLine(Some(Upper(line[0])), Upper(line[1]), None, None))
    else if |line| == 3 then Ok(CodeLine(Some(Upper(line[0])), Upper(line[1]), Some(line[2]), None))
    else if |line| == 4 then Ok(CodeLine(Some(Upper(line[0])), Upper(line[1]), Some(line[2]), Some(line[3])))
    else Err(MalformedLine)
  }

  // ---------------------------------------------------------------------------
  // Properties

  /** Upper-casing a label gives a label: the symbol table stores labels upper-cased. */
  lemma UpperLabelIsLabel(cmds: seq<Command>, chunk: string)
    requires IsLabel(cmds, chunk)
    ensures IsLabel(cmds, Upper(chunk))
  {
    UpperIdempotent(chunk);
    LatinLetterFolds(chunk[0]);
    forall i | 0 <= i < |chunk| ensures IsLatinLetterOrDigitOrUnderscore(Upper(chunk)[i]) {
      LatinLetterFolds(chunk[i]);
    }
  }

  /** Pass 1 measures a `C"…"` literal by `Trim('C').Trim('"')`. */
  function CSymbolsPass1(chunk: string): string {
    Trim(Trim(chunk, 'C'), '"')
  }

  /** Pass 2 measures it by `Substring(2, chunk.Length - 3)`. */
  function CSymbolsPass2(chunk: string): string
    requires |chunk| >= 3
  {
    chunk[2..|chunk| - 1]
  }

  /**
    An upper-case `C"t"` whose text neither starts nor ends with a quote is
    measured alike by both passes: both see exactly `t`.
  */
  lemma UpperCaseCStringMeasuredAlike(t: string)
    requires |t| > 0 && t[0] != '"' && t[|t| - 1] != '"'
    ensures CSymbolsPass1("C\"" + t + "\"") == t
    ensures CSymbolsPass2("C\"" + t + "\"") == t
  {
    var chunk := "C\"" + t + "\"";
    var inner := chunk[1..];
    assert inner == "\"" + t + "\"";
    TrimStartOne(chunk, 'C');
    TrimUntouched(inner, 'C');
    var rest := inner[1..];
    assert rest == t + "\"";
    TrimStartOne(inner, '"');
    TrimEndOne(rest, '"');
    assert rest[..|rest| - 1] == t;
    assert chunk[2..|chunk| - 1] == t;
  }

  /**
    A literal of one quote between the quotes, `C"""`, is measured apart:
    pass 1 trims every quote and reserves no byte, while pass 2 writes the
    one quote it finds between the outer two.
  */
  lemma QuoteLiteralMeasuredApart()
    ensures IsCString("C\"\"\"")
    ensures CSymbolsPass1("C\"\"\"") == "" && CSymbolsPass2("C\"\"\"") == "\""
  {
    var chunk := "C\"\"\"";
    TrimStartOne(chunk, 'C');
    TrimUntouched(chunk[1..], 'C');
    assert Trim(chunk, 'C') == "\"\"\"";
    assert Trim("\"\"\"", '"') == "";
  }

  /**
    A lower-case `c"t"` (t not ending in a quote) is measured differently:
    pass 1 (case-sensitive `Trim('C')`) counts `c"t`, two characters more than
    the `t` pass 2 counts.
  */
  lemma LowerCaseCStringMeasuredTwice(t: string)
    requires |t| > 0 && t[|t| - 1] != '"'
    ensures CSymbolsPass1("c\"" + t + "\"") == "c\"" + t
    ensures CSymbolsPass2("c\"" + t + "\"") == t
    ensures |CSymbolsPass1("c\"" + t + "\"")| == |CSymbolsPass2("c\"" + t + "\"")| + 2
  {
    var p := "c\"" + t;
    var chunk := p + "\"";
    TrimUntouched(chunk, 'C');
    assert p[|p| - 1] == t[|t| - 1];
    TrimEndOne(chunk, '"');
    assert chunk[..|chunk| - 1] == p;
    assert chunk[2..|chunk| - 1] == t;
  }

  /** A literal written with a lower-case `x` is never a hexadecimal literal. */
  lemma LowerCaseXStringRejected(chunk: string)
    requires |chunk| > 0 && chunk[0] == 'x'
    ensures !IsXString(chunk)
  {
    TrimKeepsFirst(chunk, 'X');
    TrimKeepsFirst(Trim(chunk, 'X'), '"');
    var d := XSymbols(chunk);
    assert Upper(d)[0] == 'X';
  }

  lemma XSymbolsOfLiteral(h: string)
    requires |h| > 0 && h[0] != '"' && h[|h| - 1] != '"' && h[|h| - 1] != 'X'
    ensures XSymbols("X\"" + h + "\"") == h
  {
    var chunk := "X\"" + h + "\"";
    var inner := chunk[1..];
    assert inner == "\"" + h + "\"";
    TrimLeading(chunk, 'X');
    TrimEnclosed(inner, '"');
    assert inner[1..|inner| - 1] == h;
  }

  lemma HexBodyOfDigits(h: string)
    requires |h| > 0 && |h| % 2 == 0
    requires forall i | 0 <= i < |h| :: IsDigit(h[i]) || 'A' <= h[i] <= 'F'
    ensures IsHexBody(h) && Upper(h) == h
    ensures h[0] != '"' && h[|h| - 1] != '"' && h[|h| - 1] != 'X'
  {
    assert IsDigit(h[0]) || 'A' <= h[0] <= 'F';
    assert IsDigit(h[|h| - 1]) || 'A' <= h[|h| - 1] <= 'F';
    assert forall i | 0 <= i < |h| :: h[i] != '"';
    UpperOfUpper(h);
  }

  lemma XStringIntro(chunk: string, h: string)
    requires |chunk| >= 2 && chunk[0] == 'X' && chunk[1] == '"' && chunk[|chunk| - 1] == '"'
    requires XSymbols(chunk) == h && Upper(h) == h && IsHexBody(h)
    ensures IsXString(chunk)
  {
  }

  lemma QuotedShape(p: char, h: string)
    ensures var chunk := [p, '"'] + h + ['"'];
            |chunk| == |h| + 3 && chunk[0] == p && chunk[1] == '"' && chunk[|chunk| - 1] == '"'
  {
  }

  /** `X"h"`, h a non-empty even run of upper-case hexadecimal digits, is a hexadecimal literal of digits h. */
  lemma UpperCaseXStringAccepted(h: string)
    requires |h| > 0 && |h| % 2 == 0
    requires forall i | 0 <= i < |h| :: IsDigit(h[i]) || 'A' <= h[i] <= 'F'
    ensures XSymbols("X\"" + h + "\"") == h
    ensures IsXString("X\"" + h + "\"")
  {
    HexBodyOfDigits(h);
    XSymbolsOfLiteral(h);
    QuotedShape('X', h);
    XStringIntro("X\"" + h + "\"", h);
  }
}
