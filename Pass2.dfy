/**
  The second pass (`Assembler.SecondPass`) as a function of the symbol
  table, the `ip`, `startAddress` and `endAddress` left by the first pass,
  and the token lines of the first pass's output: one H record for the first
  line, one T record for each other line, and a closing E record. The
  method of `Assembler` that runs the pass is proved equal to `SecondPass`.
*/
module Pass2 {
  import opened Errors
  import opened Text
  import opened Structure
  import opened Syntax

  /** `Convert.ToInt32(operand, 16)`, which reads a missing (null) operand as 0. */
  function HexOperand(op: Option<string>): (r: Option<int>)
    ensures op.None? ==> r == Some(0)
    ensures op.Some? ==> r == ParseHex(op.value)
  {
    match op
    case None => Some(0)
    case Some(o) => ParseHex(o)
  }

  /** A text record `T tag body`, `tag` being the address column of the line. */
  function TRecord(tag: string, body: string): (r: string)
    ensures |r| == |tag| + |body| + 3 && r[..2] == "T "
    ensures r[2..2 + |tag|] == tag && r[2 + |tag|] == ' ' && r[3 + |tag|..] == body
  {
    "T " + tag + " " + body
  }

  /**
    BYTE: a hexadecimal byte value; failing that, a `C"…"` literal as its
    length and the ASCII codes of the characters between the quotes; failing
    that, an `X"…"` literal as its digit count and its digits.
  */
  function ByteBody(op: Option<string>): (r: Result<string>)
    ensures r.Err? ==> r.error == InvalidOperand
    ensures r.Err? <==> op.Some? && ParseHex(op.value).None? && !IsCString(op.value) && !IsXString(op.value)
    ensures HexOperand(op).Some? ==> r == Ok("01 " + FormatHex(HexOperand(op).value, 2))
    ensures op.Some? && ParseHex(op.value).None? && IsCString(op.value) ==>
              var symbols := CSymbolsPass2(op.value);
              r == Ok(FormatHex(|symbols|, 2) + " " + AsciiHex(symbols))
    ensures op.Some? && ParseHex(op.value).None? && !IsCString(op.value) && IsXString(op.value) ==>
              r == Ok(FormatHex(|XSymbols(op.value)|, 2) + " " + XSymbols(op.value))
  {
    match HexOperand(op)
    case Some(v) => Ok("01 " + FormatHex(v, 2))
    case None =>
      var o := op.value;
      if IsCString(o) then
        var symbols := CSymbolsPass2(o);
        Ok(FormatHex(|symbols|, 2) + " " + AsciiHex(symbols))
      else if IsXString(o) then
        var symbols := XSymbols(o);
        Ok(FormatHex(|symbols|, 2) + " " + symbols)
      else Err(InvalidOperand)
  }

  /**
    An instruction line: the addressing mode is the low two bits of the
    mnemonic read as a hexadecimal byte (`(byte)v & 0x03`, which is `v % 4`
    for Dafny's non-negative remainder). Mode 0 without operands is a
    one-byte record, with two operands a register pair, with one operand
    the operand copied after the opcode and a length of half its digits;
    mode 1 resolves the operand through the symbol table; other modes are
    errors.
  */
  function InstructionBody(tsi: seq<SymbolicName>, cl: CodeLine): (r: Result<string>)
    ensures ParseHex(cl.mnemonic).None? ==> r == Err(Failure)
    ensures ParseHex(cl.mnemonic).Some? && ParseHex(cl.mnemonic).value % 4 == 0 && cl.firstOperand.None? ==>
              r == if cl.secondOperand.None? then Ok("01 " + cl.mnemonic) else Err(EmptyOperand)
    ensures ParseHex(cl.mnemonic).Some? && ParseHex(cl.mnemonic).value % 4 == 0 &&
            cl.firstOperand.Some? && cl.secondOperand.Some? ==>
              var r1 := GetRegisterNumber(cl.firstOperand.value);
              var r2 := GetRegisterNumber(cl.secondOperand.value);
              r == if r1.Ok? && r2.Ok? then Ok("02 " + cl.mnemonic + FormatHex(r1.value, 1) + FormatHex(r2.value, 1))
                   else Err(Failure)
    ensures ParseHex(cl.mnemonic).Some? && ParseHex(cl.mnemonic).value % 4 == 0 &&
            cl.firstOperand.Some? && cl.secondOperand.None? ==>
              r == Ok(FormatHex(|cl.firstOperand.value| / 2, 2) + " " + cl.mnemonic + cl.firstOperand.value)
    ensures ParseHex(cl.mnemonic).Some? && ParseHex(cl.mnemonic).value % 4 > 1 ==> r == Err(UnknownAddressingMode)
    ensures ParseHex(cl.mnemonic).Some? && ParseHex(cl.mnemonic).value % 4 == 1 ==>
              (r.Ok? <==> cl.firstOperand.Some? && FindSymbol(tsi, cl.firstOperand.value).Some?)
    ensures ParseHex(cl.mnemonic).Some? && ParseHex(cl.mnemonic).value % 4 == 1 && r.Ok? ==>
              r.value == "04 " + cl.mnemonic + FormatHex(FindSymbol(tsi, cl.firstOperand.value).value.address, 6)
    ensures ParseHex(cl.mnemonic).Some? && ParseHex(cl.mnemonic).value % 4 == 1 && cl.firstOperand.None? ==>
              r == Err(EmptyOperand)
    ensures ParseHex(cl.mnemonic).Some? && ParseHex(cl.mnemonic).value % 4 == 1 && cl.firstOperand.Some? &&
              FindSymbol(tsi, cl.firstOperand.value).None? ==>
              r == Err(UndefinedSymbol)
  {
    match ParseHex(cl.mnemonic)
    case None => Err(Failure)
    case Some(v) =>
      var mode := v % 4;
      if mode == 0 then
        match cl.firstOperand
        case None =>
          if cl.secondOperand.None? then Ok("01 " + cl.mnemonic)
          else Err(EmptyOperand)
        case Some(op1) =>
          match cl.secondOperand
          case Some(op2) =>
            var r1 :- GetRegisterNumber(op1);
            var r2 :- GetRegisterNumber(op2);
            Ok("02 " + cl.mnemonic + FormatHex(r1, 1) + FormatHex(r2, 1))
          case None =>
            Ok(FormatHex(|op1| / 2, 2) + " " + cl.mnemonic + op1)
      else if mode == 1 then
        match cl.firstOperand
        case None => Err(EmptyOperand)
        case Some(op) =>
          match FindSymbol(tsi, op)
          case None => Err(UndefinedSymbol)
          case Some(symbol) => Ok("04 " + cl.mnemonic + FormatHex(symbol.address, 6))
      else Err(UnknownAddressingMode)
  }

  /**
    The record of line `i`: the first line gives the header
    `H name start length`; the others a T record chosen by the mnemonic
    (WORD with the operand copied, BYTE, RESB and RESW with a hexadecimal
    count, the RESW byte count computed in 32-bit arithmetic), else an
    instruction.
  */
  function LineRecord(tsi: seq<SymbolicName>, ip: int, start: int, i: nat, line: seq<string>): (r: Result<string>)
    ensures !(2 <= |line| <= 4) ==> r == Err(MalformedLine)
    ensures 2 <= |line| <= 4 && i == 0 ==>
              r == Ok("H " + Upper(line[0]) + " " + FormatHex(start, 6) + " " + FormatHex(ip - start, 6))
    ensures 2 <= |line| <= 4 && i > 0 ==>
              var body := TextBody(tsi, GetCodeLineFromFirstPass(line).value);
              (r.Ok? <==> body.Ok?) && (r.Ok? ==> r.value == TRecord(Upper(line[0]), body.value)) &&
              (r.Err? ==> r.error == body.error)
  {
    var cl :- GetCodeLineFromFirstPass(line);
    var tag := cl.labelName.value;
    if i == 0 then
      Ok("H " + tag + " " + FormatHex(start, 6) + " " + FormatHex(ip - start, 6))
    else
      var body :- TextBody(tsi, cl);
      Ok(TRecord(tag, body))
  }

  /** What follows `T tag ` in the record of a line other than the first, by its mnemonic. */
  function TextBody(tsi: seq<SymbolicName>, cl: CodeLine): (r: Result<string>)
    ensures cl.mnemonic == "WORD" ==> r == Ok("03 " + (if cl.firstOperand.Some? then cl.firstOperand.value else ""))
    ensures cl.mnemonic == "BYTE" ==> r == ByteBody(cl.firstOperand)
    ensures cl.mnemonic == "RESB" ==>
              r == if HexOperand(cl.firstOperand).Some? then Ok(FormatHex(HexOperand(cl.firstOperand).value, 2))
                   else Err(NotANumber)
    ensures cl.mnemonic == "RESW" ==>
              r == if HexOperand(cl.firstOperand).Some? then Ok(FormatHex(Wrap32(HexOperand(cl.firstOperand).value * 3), 2))
                   else Err(NotANumber)
    ensures cl.mnemonic !in {"WORD", "BYTE", "RESB", "RESW"} ==> r == InstructionBody(tsi, cl)
  {
    if cl.mnemonic == "WORD" then
      Ok("03 " + (if cl.firstOperand.Some? then cl.firstOperand.value else ""))
    else if cl.mnemonic == "BYTE" then
      ByteBody(cl.firstOperand)
    else if cl.mnemonic == "RESB" then
      match HexOperand(cl.firstOperand)
      case None => Err(NotANumber)
      case Some(n) => Ok(FormatHex(n, 2))
    else if cl.mnemonic == "RESW" then
      match HexOperand(cl.firstOperand)
      case None => Err(NotANumber)
      case Some(n) => Ok(FormatHex(Wrap32(n * 3), 2))
    else
      InstructionBody(tsi, cl)
  }

  /** What the second pass does with one line: its number and its tokens to its record. */
  type LineTranslator = (nat, seq<string>) -> Result<string>

  /** The second pass's translator for a given symbol table, last address and start address. */
  function Translator(tsi: seq<SymbolicName>, ip: int, start: int): LineTranslator {
    (i: nat, line: seq<string>) => LineRecord(tsi, ip, start, i, line)
  }

  /**
    The records of all lines in order, stopping at the first error
    (see `RecordsSucceed` and `RecordsFirstError`).
  */
  function Records(f: LineTranslator, lines: seq<seq<string>>): (r: Result<seq<string>>)
    ensures r.Ok? ==> |r.value| == |lines|
    decreases |lines|
  {
    if |lines| == 0 then Ok([])
    else
      var rs :- Records(f, lines[..|lines| - 1]);
      var t :- f(|lines| - 1, lines[|lines| - 1]);
      Ok(rs + [t])
  }

  /** The records succeed exactly when every line's record does, and then the i-th record is line i's. */
  lemma {:induction false} RecordsSucceed(f: LineTranslator, lines: seq<seq<string>>)
    ensures Records(f, lines).Ok? <==> forall i | 0 <= i < |lines| :: f(i, lines[i]).Ok?
    ensures Records(f, lines).Ok? ==> forall i | 0 <= i < |lines| :: f(i, lines[i]) == Ok(Records(f, lines).value[i])
    decreases |lines|
  {
    if |lines| > 0 {
      var n := |lines| - 1;
      var init := lines[..n];
      RecordsSucceed(f, init);
      assert forall i | 0 <= i < n :: init[i] == lines[i];
    }
  }

  /** A failing second pass reports the error of the first line whose record fails. */
  lemma {:induction false} RecordsFirstError(f: LineTranslator, lines: seq<seq<string>>)
    ensures Records(f, lines).Err? ==> exists i | 0 <= i < |lines| ::
              f(i, lines[i]) == Err(Records(f, lines).error) && forall j | 0 <= j < i :: f(j, lines[j]).Ok?
    decreases |lines|
  {
    if |lines| > 0 {
      var init := lines[..|lines| - 1];
      RecordsFirstError(f, init);
      RecordsSucceed(f, init);
      assert forall i | 0 <= i < |init| :: init[i] == lines[i];
    }
  }

  /** The records of one more line: those of the prefix, then that line's. */
  lemma RecordsExtend(f: LineTranslator, lines: seq<seq<string>>, i: nat)
    requires i < |lines| && Records(f, lines[..i]).Ok?
    ensures Records(f, lines[..i + 1]) ==
              match f(i, lines[i])
              case Err(e) => Err(e)
              case Ok(t) => Ok(Records(f, lines[..i]).value + [t])
  {
    assert lines[..i + 1][..i] == lines[..i];
  }

  /** An error in the records of a prefix is the error of the whole. */
  lemma {:induction false} RecordsKeepError(f: LineTranslator, lines: seq<seq<string>>, i: nat)
    requires i <= |lines| && Records(f, lines[..i]).Err?
    ensures Records(f, lines) == Records(f, lines[..i])
    decreases |lines|
  {
    if i == |lines| {
      assert lines[..i] == lines;
    } else {
      var init := lines[..|lines| - 1];
      assert init[..i] == lines[..i];
      RecordsKeepError(f, init, i);
    }
  }

  /** `SecondPass`: the records, then the entry point checked against startAddress..ip and written as the E record. */
  function SecondPass(tsi: seq<SymbolicName>, ip: int, start: int, end: int, lines: seq<seq<string>>): (r: Result<seq<string>>)
    ensures r.Ok? ==> |r.value| == |lines| + 1 && start <= end <= ip && r.value[|lines|] == "E " + FormatHex(end, 6)
  {
    var rs :- Records(Translator(tsi, ip, start), lines);
    if end < start || end > ip then Err(InvalidEntryPoint)
    else Ok(rs + ["E " + FormatHex(end, 6)])
  }

  // ---------------------------------------------------------------------------
  // Properties

  /**
    A successful second pass writes one record per line and then the E
    record: the header first, T records after it, the entry point last, and
    the entry point lies in startAddress..ip.
  */
  lemma SecondPassShape(tsi: seq<SymbolicName>, ip: int, start: int, end: int, lines: seq<seq<string>>)
    requires SecondPass(tsi, ip, start, end, lines).Ok?
    ensures var out := SecondPass(tsi, ip, start, end, lines).value;
            |out| == |lines| + 1 && start <= end <= ip &&
            out[|lines|] == "E " + FormatHex(end, 6) &&
            (|lines| > 0 ==> |lines[0]| > 0 && out[0] == "H " + Upper(lines[0][0]) + " " + FormatHex(start, 6) + " " + FormatHex(ip - start, 6)) &&
            forall i | 0 < i < |lines| :: |out[i]| >= 2 && out[i][..2] == "T "
    ensures var out := SecondPass(tsi, ip, start, end, lines).value;
            |out| == |lines| + 1 && forall i | 0 <= i < |lines| :: LineRecord(tsi, ip, start, i, lines[i]) == Ok(out[i])
  {
    var f := Translator(tsi, ip, start);
    RecordsSucceed(f, lines);
    var rs := Records(f, lines).value;
    var out := SecondPass(tsi, ip, start, end, lines).value;
    assert out == rs + ["E " + FormatHex(end, 6)];
    if |lines| > 0 {
      assert f(0, lines[0]) == Ok(rs[0]);
    }
    forall i | 0 < i < |lines| ensures |out[i]| >= 2 && out[i][..2] == "T " {
      assert out[i] == rs[i];
      assert f(i, lines[i]) == Ok(rs[i]);
    }
    forall i | 0 <= i < |lines| ensures LineRecord(tsi, ip, start, i, lines[i]) == Ok(out[i]) {
      assert out[i] == rs[i];
      assert f(i, lines[i]) == Ok(rs[i]);
    }
  }

  /**
    The second pass succeeds exactly when every line gives a record and the
    entry point is in startAddress..ip; a failing line is reported before a
    bad entry point.
  */
  lemma SecondPassSucceeds(tsi: seq<SymbolicName>, ip: int, start: int, end: int, lines: seq<seq<string>>)
    ensures SecondPass(tsi, ip, start, end, lines).Ok? <==>
              (forall i | 0 <= i < |lines| :: LineRecord(tsi, ip, start, i, lines[i]).Ok?) && start <= end <= ip
    ensures (forall i | 0 <= i < |lines| :: LineRecord(tsi, ip, start, i, lines[i]).Ok?) && !(start <= end <= ip) ==>
              SecondPass(tsi, ip, start, end, lines) == Err(InvalidEntryPoint)
  {
    RecordsSucceed(Translator(tsi, ip, start), lines);
  }

  /**
    The opcode byte the first pass writes, `code * 4 + mode` in two
    hexadecimal digits, reads back in the second pass as that byte, whose
    low two bits are the mode.
  */
  lemma OpcodeByteRoundTrip(code: int, mode: int)
    requires CodeInRange(code) && 0 <= mode < 4
    ensures |FormatHex(code * 4 + mode, 2)| == 2
    ensures ParseHex(FormatHex(code * 4 + mode, 2)) == Some(code * 4 + mode)
    ensures (code * 4 + mode) % 4 == mode
    ensures Upper(FormatHex(code * 4 + mode, 2)) == FormatHex(code * 4 + mode, 2)
  {
    assert Pow16(2) == 256;
    PadHexWidth(code * 4 + mode, 2);
    PadHexRoundTrip(code * 4 + mode, 2);
    PadHexUpper(code * 4 + mode, 2);
  }

  /** A two-character mnemonic is none of the directive names the second pass switches on. */
  lemma OpcodeIsNoDirective(opcode: string)
    requires |opcode| == 2
    ensures opcode != "WORD" && opcode != "BYTE" && opcode != "RESB" && opcode != "RESW"
  {
    assert |"WORD"| == 4;
  }

  /**
    A line `address opcode tag` that the first pass writes for a length-4
    instruction with a tag operand (mode 1) gets the tag's address from
    the symbol table, or fails when the tag is not in it.
  */
  lemma LabelOperandResolved(tsi: seq<SymbolicName>, ip: int, start: int, i: nat, a: nat, code: int, op: string)
    requires i > 0 && CodeInRange(code)
    ensures var opcode := FormatHex(code * 4 + 1, 2);
            LineRecord(tsi, ip, start, i, [FormatHex(a, 6), opcode, op]) ==
              match FindSymbol(tsi, op)
              case None => Err(UndefinedSymbol)
              case Some(symbol) => Ok(TRecord(FormatHex(a, 6), "04 " + opcode + FormatHex(symbol.address, 6)))
  {
    OpcodeByteRoundTrip(code, 1);
    OpcodeIsNoDirective(FormatHex(code * 4 + 1, 2));
    PadHexUpper(a, 6);
  }

  /**
    A line `address opcode byte` that the first pass writes for a length-2
    instruction with a one-byte operand (mode 0) gets the length 1 in the
    second pass, which measures the operand's digits rather than the two
    bytes the first pass allocated.
  */
  lemma ByteOperandMeasuredByDigits(tsi: seq<SymbolicName>, ip: int, start: int, i: nat, a: nat, code: int, v: int)
    requires i > 0 && CodeInRange(code) && 0 <= v <= 255
    ensures var opcode := FormatHex(code * 4, 2);
            LineRecord(tsi, ip, start, i, [FormatHex(a, 6), opcode, FormatHex(v, 2)]) ==
              Ok(TRecord(FormatHex(a, 6), "01 " + opcode + FormatHex(v, 2)))
  {
    OpcodeByteRoundTrip(code, 0);
    OpcodeIsNoDirective(FormatHex(code * 4, 2));
    PadHexUpper(a, 6);
    assert Pow16(2) == 256;
    PadHexWidth(v, 2);
    var opcode := FormatHex(code * 4, 2);
    var line := [FormatHex(a, 6), opcode, FormatHex(v, 2)];
    var cl := CodeLine(Some(FormatHex(a, 6)), opcode, Some(FormatHex(v, 2)), None);
    assert GetCodeLineFromFirstPass(line) == Ok(cl);
    assert FormatHex(|FormatHex(v, 2)| / 2, 2) == "01";
    assert ParseHex(opcode) == Some(code * 4) && (code * 4) % 4 == 0;
    assert "01" + " " + opcode + FormatHex(v, 2) == "01 " + opcode + FormatHex(v, 2);
    assert InstructionBody(tsi, cl) == Ok("01 " + opcode + FormatHex(v, 2));
  }

  /**
    A RESW line of n words (written `{n:X2}` by the first pass) gets the byte
    count 3n, which for n of 86 or more takes three hexadecimal digits:
    `X2` is a minimum width.
  */
  lemma ReserveWordsCount(tsi: seq<SymbolicName>, ip: int, start: int, i: nat, a: nat, name: string, n: int)
    requires i > 0 && 1 <= n <= 255 && Upper(name) == "RESW"
    ensures LineRecord(tsi, ip, start, i, [FormatHex(a, 6), name, FormatHex(n, 2)]) ==
              Ok(TRecord(FormatHex(a, 6), FormatHex(3 * n, 2)))
    ensures n >= 86 ==> |FormatHex(3 * n, 2)| == 3
  {
    ReserveWordsRecord(tsi, ip, start, i, a, name, n);
    if n >= 86 {
      WideWordCount(n);
    }
  }

  lemma ReserveWordsRecord(tsi: seq<SymbolicName>, ip: int, start: int, i: nat, a: nat, name: string, n: int)
    requires i > 0 && 1 <= n <= 255 && Upper(name) == "RESW"
    ensures LineRecord(tsi, ip, start, i, [FormatHex(a, 6), name, FormatHex(n, 2)]) ==
              Ok(TRecord(FormatHex(a, 6), FormatHex(3 * n, 2)))
  {
    PadHexRoundTrip(n, 2);
    PadHexUpper(a, 6);
    var count := FormatHex(n, 2);
    var line := [FormatHex(a, 6), name, count];
    var cl := CodeLine(Some(FormatHex(a, 6)), "RESW", Some(count), None);
    assert GetCodeLineFromFirstPass(line) == Ok(cl);
    assert HexOperand(Some(count)) == Some(n);
    assert Wrap32(n * 3) == 3 * n;
    assert TextBody(tsi, cl) == Ok(FormatHex(3 * n, 2));
  }

  lemma WideWordCount(n: int)
    requires 86 <= n <= 255
    ensures |FormatHex(3 * n, 2)| == 3
  {
    assert Pow16(2) == 256;
    HexStringLonger(3 * n, 2);
    assert Pow16(3) == 4096;
    HexStringLength(3 * n, 3);
  }

  /** A WORD line `address WORD value` copies the operand after the length 3. */
  lemma WordRecord(tsi: seq<SymbolicName>, ip: int, start: int, i: nat, a: nat, name: string, op: string)
    requires i > 0 && Upper(name) == "WORD"
    ensures LineRecord(tsi, ip, start, i, [FormatHex(a, 6), name, op]) == Ok(TRecord(FormatHex(a, 6), "03 " + op))
  {
    PadHexUpper(a, 6);
  }

  /** A BYTE line with a value `{v:X2}` gets the length 1 and that value. */
  lemma ByteValueRecord(tsi: seq<SymbolicName>, ip: int, start: int, i: nat, a: nat, name: string, v: int)
    requires i > 0 && Upper(name) == "BYTE" && 0 <= v <= 255
    ensures LineRecord(tsi, ip, start, i, [FormatHex(a, 6), name, FormatHex(v, 2)]) ==
              Ok(TRecord(FormatHex(a, 6), "01 " + FormatHex(v, 2)))
  {
    PadHexUpper(a, 6);
    PadHexRoundTrip(v, 2);
  }

  /** A quote is no hexadecimal digit, so a literal never reads as a byte value. */
  lemma QuotedNotHex(op: string)
    requires |op| >= 2 && op[1] == '"'
    ensures ParseHex(op).None?
  {
    var t := op[1..];
    assert t[0] == '"' && !IsHexDigitChar(t[0]) && !AllHex(t);
    assert HexScan(t, false) == ReadHex(t);
    assert !IsHexDigitChar(op[1]) && !AllHex(op);
  }

  /** A BYTE line with a `C"…"` literal gets its length and the ASCII codes between the quotes. */
  lemma ByteCStringRecord(tsi: seq<SymbolicName>, ip: int, start: int, i: nat, a: nat, name: string, op: string)
    requires i > 0 && Upper(name) == "BYTE" && IsCString(op)
    ensures var symbols := CSymbolsPass2(op);
            LineRecord(tsi, ip, start, i, [FormatHex(a, 6), name, op]) ==
              Ok(TRecord(FormatHex(a, 6), FormatHex(|symbols|, 2) + " " + AsciiHex(symbols)))
  {
    PadHexUpper(a, 6);
    QuotedNotHex(op);
  }

  /** An `X"…"` literal is no `C"…"` literal and no byte value: BYTE copies its digits. */
  lemma ByteXBody(op: string)
    requires IsXString(op)
    ensures ByteBody(Some(op)) == Ok(FormatHex(|XSymbols(op)|, 2) + " " + XSymbols(op))
  {
    QuotedNotHex(op);
    assert UpperChar(op[0]) == 'X';
  }

  /** A BYTE line gets the body `ByteBody` makes of its operand. */
  lemma ByteLineRecord(tsi: seq<SymbolicName>, ip: int, start: int, i: nat, a: nat, name: string, op: string)
    requires i > 0 && Upper(name) == "BYTE"
    ensures var b := ByteBody(Some(op));
            LineRecord(tsi, ip, start, i, [FormatHex(a, 6), name, op]) ==
              if b.Ok? then Ok(TRecord(FormatHex(a, 6), b.value)) else Err(InvalidOperand)
  {
    PadHexUpper(a, 6);
    var line := [FormatHex(a, 6), name, op];
    var cl := CodeLine(Some(FormatHex(a, 6)), "BYTE", Some(op), None);
    assert GetCodeLineFromFirstPass(line) == Ok(cl);
    assert TextBody(tsi, cl) == ByteBody(Some(op));
  }

  /** A BYTE line with an `X"…"` literal gets its digit count and its digits. */
  lemma ByteXStringRecord(tsi: seq<SymbolicName>, ip: int, start: int, i: nat, a: nat, name: string, op: string)
    requires i > 0 && Upper(name) == "BYTE" && IsXString(op)
    ensures LineRecord(tsi, ip, start, i, [FormatHex(a, 6), name, op]) ==
              Ok(TRecord(FormatHex(a, 6), FormatHex(|XSymbols(op)|, 2) + " " + XSymbols(op)))
  {
    ByteXBody(op);
    ByteLineRecord(tsi, ip, start, i, a, name, op);
  }

  /** A RESB line of n bytes (`{n:X2}`) gets n. */
  lemma ReserveBytesCount(tsi: seq<SymbolicName>, ip: int, start: int, i: nat, a: nat, name: string, n: int)
    requires i > 0 && 1 <= n <= 255 && Upper(name) == "RESB"
    ensures LineRecord(tsi, ip, start, i, [FormatHex(a, 6), name, FormatHex(n, 2)]) ==
              Ok(TRecord(FormatHex(a, 6), FormatHex(n, 2)))
  {
    PadHexRoundTrip(n, 2);
    PadHexUpper(a, 6);
  }

  /** A line the first pass writes for an instruction without operands gets the length 1. */
  lemma NoOperandRecord(tsi: seq<SymbolicName>, ip: int, start: int, i: nat, a: nat, code: int)
    requires i > 0 && CodeInRange(code)
    ensures var opcode := FormatHex(code * 4, 2);
            LineRecord(tsi, ip, start, i, [FormatHex(a, 6), opcode]) == Ok(TRecord(FormatHex(a, 6), "01 " + opcode))
  {
    OpcodeByteRoundTrip(code, 0);
    OpcodeIsNoDirective(FormatHex(code * 4, 2));
    PadHexUpper(a, 6);
  }

  /**
    A line `address opcode Rm Rn` gets the length 2 and the two register
    numbers, each as `{n:X1}` (so R16 is written `10`).
  */
  lemma RegisterPairRecord(tsi: seq<SymbolicName>, ip: int, start: int, i: nat, a: nat, code: int, m: int, n: int)
    requires i > 0 && CodeInRange(code) && 1 <= m <= 16 && 1 <= n <= 16
    ensures var opcode := FormatHex(code * 4, 2);
            LineRecord(tsi, ip, start, i, [FormatHex(a, 6), opcode, "R" + DecString(m), "R" + DecString(n)]) ==
              Ok(TRecord(FormatHex(a, 6), "02 " + opcode + FormatHex(m, 1) + FormatHex(n, 1)))
  {
    OpcodeByteRoundTrip(code, 0);
    OpcodeIsNoDirective(FormatHex(code * 4, 2));
    PadHexUpper(a, 6);
    DecimalRoundTrip(m);
    DecimalRoundTrip(n);
    var rm := "R" + DecString(m);
    var rn := "R" + DecString(n);
    assert rm[1..] == DecString(m);
    assert rn[1..] == DecString(n);
    assert GetRegisterNumber(rm) == Ok(m) && GetRegisterNumber(rn) == Ok(n);
    var opcode := FormatHex(code * 4, 2);
    var line := [FormatHex(a, 6), opcode, rm, rn];
    var cl := CodeLine(Some(FormatHex(a, 6)), opcode, Some(rm), Some(rn));
    assert GetCodeLineFromFirstPass(line) == Ok(cl);
    assert ParseHex(opcode) == Some(code * 4) && (code * 4) % 4 == 0;
    assert InstructionBody(tsi, cl) == Ok("02 " + opcode + FormatHex(m, 1) + FormatHex(n, 1));
  }

  /**
    A line `address opcode {v:X6}` that the first pass writes for a length-4
    instruction with a numeric operand (mode 0) gets the length 3: half the
    operand's six digits, one less than the four bytes the first pass
    allocated.
  */
  lemma AddressOperandMeasuredByDigits(tsi: seq<SymbolicName>, ip: int, start: int, i: nat, a: nat, code: int, v: int)
    requires i > 0 && CodeInRange(code) && InAddressRange(v)
    ensures var opcode := FormatHex(code * 4, 2);
            LineRecord(tsi, ip, start, i, [FormatHex(a, 6), opcode, FormatHex(v, 6)]) ==
              Ok(TRecord(FormatHex(a, 6), "03 " + opcode + FormatHex(v, 6)))
  {
    OpcodeByteRoundTrip(code, 0);
    OpcodeIsNoDirective(FormatHex(code * 4, 2));
    PadHexUpper(a, 6);
    assert Pow16(6) == 16777216;
    PadHexWidth(v, 6);
    assert HexString(3) == "3";
    assert FormatHex(|FormatHex(v, 6)| / 2, 2) == "03";
    var opcode := FormatHex(code * 4, 2);
    var line := [FormatHex(a, 6), opcode, FormatHex(v, 6)];
    var cl := CodeLine(Some(FormatHex(a, 6)), opcode, Some(FormatHex(v, 6)), None);
    assert GetCodeLineFromFirstPass(line) == Ok(cl);
    assert ParseHex(opcode) == Some(code * 4) && (code * 4) % 4 == 0;
    assert "03" + " " + opcode + FormatHex(v, 6) == "03 " + opcode + FormatHex(v, 6);
    assert InstructionBody(tsi, cl) == Ok("03 " + opcode + FormatHex(v, 6));
  }
}
