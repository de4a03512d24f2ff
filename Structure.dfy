/**
  The data shapes of the assembler: a command-table entry as read from text
  (`CommandDto`), a validated command (`Command`), a classified source line
  (`CodeLine`) and a symbol-table entry (`SymbolicName`); and the validating
  constructor `Command(CommandDto)`.
*/
module Structure {
  import opened Errors
  import opened Text
  import opened StringChecker

  /** Three strings taken verbatim from one line of the command table. */
  datatype CommandDto = CommandDto(name: string, code: string, length: string)

  /** An instruction: its mnemonic, its 6-bit opcode and its length in bytes. */
  datatype Command = Command(name: string, code: int, length: int)

  /** A classified line: label, mnemonic or directive, and up to two operands. */
  datatype CodeLine = CodeLine(labelName: Option<string>, mnemonic: string,
                               firstOperand: Option<string>, secondOperand: Option<string>)

  /** A symbol-table (TSI) entry. */
  datatype SymbolicName = SymbolicName(name: string, address: int)

  /** What the constructor guarantees about every command it builds. */
  predicate ValidCommand(c: Command) {
    IsValidName(c.name) && IsLatinLetter(c.name[0]) &&
    0 <= c.code < 64 && (c.length == 1 || c.length == 2 || c.length == 4)
  }

  predicate CodeInRange(code: int) { 0 <= code < 64 }

  predicate LengthInRange(length: int) { 1 <= length <= 4 && length != 3 }

  /**
    The constructor `Command(CommandDto)`: checks the name, then parses and
    checks the code, then the length, so the first failing check decides the
    error. The name is kept as written.
  */
  function NewCommand(dto: CommandDto): (r: Result<Command>)
    ensures r.Ok? ==> ValidCommand(r.value) && r.value.name == dto.name &&
                      ParseHex(dto.code) == Some(r.value.code) &&
                      ParseHex(dto.length) == Some(r.value.length)
    ensures r.Ok? <==> IsValidName(dto.name) && IsLatinLetter(dto.name[0]) &&
                       ParseHex(dto.code).Some? && CodeInRange(ParseHex(dto.code).value) &&
                       ParseHex(dto.length).Some? && LengthInRange(ParseHex(dto.length).value)
    ensures r == Err(EmptyName) <==> dto.name == []
    ensures r == Err(NameStart) <==> |dto.name| > 0 && !IsLatinLetter(dto.name[0])
    ensures r == Err(NameChars) <==> |dto.name| > 0 && IsLatinLetter(dto.name[0]) && !IsValidName(dto.name)
    ensures r.Err? && IsValidName(dto.name) && IsLatinLetter(dto.name[0]) ==>
              r.error in {CodeFormat, CodeRange, LengthFormat, LengthRange}
    ensures r == Err(CodeFormat) ==> ParseHex(dto.code).None?
    ensures r == Err(CodeRange) ==> ParseHex(dto.code).Some? && !CodeInRange(ParseHex(dto.code).value)
    ensures r.Err? && r.error in {LengthFormat, LengthRange} ==>
              ParseHex(dto.code).Some? && CodeInRange(ParseHex(dto.code).value)
    ensures r == Err(LengthFormat) ==> ParseHex(dto.length).None?
    ensures r == Err(LengthRange) ==> ParseHex(dto.length).Some? && !LengthInRange(ParseHex(dto.length).value)
  {
    var name := dto.name;
    if |name| == 0 then Err(EmptyName)
    else if !IsLatinLetter(name[0]) then Err(NameStart)
    else if !IsValidName(name) then Err(NameChars)
    else
      match ParseHex(dto.code)
      case None => Err(CodeFormat)
      case Some(code) =>
        if !CodeInRange(code) then Err(CodeRange)
        else
          match ParseHex(dto.length)
          case None => Err(LengthFormat)
          case Some(length) =>
            if !LengthInRange(length) then Err(LengthRange)
            else Ok(Command(name, code, length))
  }

  /** Writing a valid command's code and length in hexadecimal and constructing it again gives it back. */
  lemma NewCommandRoundTrip(c: Command)
    requires ValidCommand(c)
    ensures NewCommand(CommandDto(c.name, HexString(c.code), HexString(c.length))) == Ok(c)
  {
    PadHexRoundTrip(c.code, 0);
    PadHexRoundTrip(c.length, 0);
  }
}
