/**
  The first pass (`Assembler.FirstPass`) as a function of the instruction
  table, the symbol table it starts from and the token lines: the state it
  walks through (`ip`, `startAddress`, `endAddress`, the START/END flags, the
  symbol table and the emitted lines), what one line does to that state, and
  the properties of the whole walk. The method of `Assembler` that runs the
  pass in place is proved equal to `FirstPass` below.
*/
module Pass1 {
  import opened Errors
  import opened Text
  import opened StringChecker
  import opened Structure
  import opened Syntax

  /** The fields and locals of the pass: `ip`, `startAddress`, `endAddress`, `startFlag`, `endFlag`, `TSI`, `firstPassCode`. */
  datatype State = State(ip: int, start: int, end: int, startSeen: bool, endSeen: bool,
                         tsi: seq<SymbolicName>, out: seq<string>)

  /** The pass resets the three counters but keeps the symbol table it is given. */
  function Init(tsi: seq<SymbolicName>): State {
    State(0, 0, 0, false, false, tsi, [])
  }

  /** What a line that passed every check does: allocate `size` bytes, open the program at `address`, or close it. */
  datatype Effect =
    | Emit(text: string, size: int)
    | Begin(address: int, text: string)
    | Finish(entry: int)

  /** A finished walk, or the error that stopped it with the state the fields were left in. */
  datatype Outcome = Done(state: State) | Failed(state: State, error: Error)

  /** The line an effect writes to `firstPassCode`: END writes an empty one. */
  function EffectLine(e: Effect): string {
    match e
    case Emit(text, _) => text
    case Begin(_, text) => text
    case Finish(_) => ""
  }

  /** Every effect appends exactly its line and leaves the symbol table alone. */
  function Apply(s: State, e: Effect): (s': State)
    ensures s'.out == s.out + [EffectLine(e)] && s'.tsi == s.tsi
    ensures e.Emit? ==> s'.ip == s.ip + e.size && s'.start == s.start && s'.end == s.end &&
                        s'.startSeen == s.startSeen && s'.endSeen == s.endSeen
  {
    match e
    case Emit(text, size) => s.(ip := s.ip + size, out := s.out + [text])
    case Begin(address, text) => s.(ip := address, start := address, startSeen := true, out := s.out + [text])
    case Finish(entry) => s.(end := entry, endSeen := true, out := s.out + [""])
  }

  /** `{ip:X6}`, the address column of an emitted line. */
  function Address(ip: int): string {
    FormatHex(ip, 6)
  }

  /** `OverflowCheck(ip + size)` followed by the allocation. */
  function Allocate(s: State, size: int, text: string): (r: Result<Effect>)
    ensures r.Ok? <==> InAddressRange(s.ip + size)
    ensures r.Ok? ==> r.value == Emit(text, size)
    ensures r.Err? ==> r.error == MemoryOverflow
  {
    if InAddressRange(s.ip + size) then Ok(Emit(text, size)) else Err(MemoryOverflow)
  }

  /** The checks for exactly one operand: a missing one first, then a second one. */
  function SingleOperand(cl: CodeLine): (r: Result<string>)
    ensures r.Ok? <==> cl.firstOperand.Some? && cl.secondOperand.None?
    ensures r.Ok? ==> r.value == cl.firstOperand.value
    ensures r.Err? ==> r.error == (if cl.firstOperand.None? then MissingOperand else ExtraOperand)
  {
    if cl.firstOperand.None? then Err(MissingOperand)
    else if cl.secondOperand.Some? then Err(ExtraOperand)
    else Ok(cl.firstOperand.value)
  }

  /** What an accepted effect guarantees about the state it is applied to. */
  predicate Allowed(s: State, e: Effect) {
    match e
    case Emit(_, size) => 0 <= size && (InAddressRange(s.ip) ==> InAddressRange(s.ip + size))
    case Begin(address, _) => s.ip == 0 && !s.startSeen && 0 < address <= MaxAddress
    case Finish(entry) => s.startSeen && !s.endSeen && (InAddressRange(entry) || entry == s.start)
  }

  /** The single operand is a decimal number in lo..hi. */
  predicate DecOperandIn(cl: CodeLine, lo: int, hi: int) {
    cl.firstOperand.Some? && ParseDec(cl.firstOperand.value).Some? &&
    lo <= ParseDec(cl.firstOperand.value).value <= hi
  }

  // ---------------------------------------------------------------------------
  // Directives

  /**
    START: one operand, first in the program, a non-zero decimal address in
    range, and a label (the program name); the line is `name START address`.
  */
  function TranslateStart(s: State, cl: CodeLine): (r: Result<Effect>)
    ensures r.Ok? <==>
              cl.firstOperand.Some? && cl.secondOperand.None? && s.ip == 0 && !s.startSeen &&
              ParseDec(cl.firstOperand.value).Some? &&
              0 < ParseDec(cl.firstOperand.value).value <= MaxAddress && cl.labelName.Some?
    ensures r.Ok? ==> r.value == Begin(ParseDec(cl.firstOperand.value).value,
                                       cl.labelName.value + " " + cl.mnemonic + " " +
                                       FormatHex(ParseDec(cl.firstOperand.value).value, 6))
    ensures r.Ok? ==> Allowed(s, r.value)
  {
    var op :- SingleOperand(cl);
    if s.ip != 0 || s.startSeen then Err(DuplicateStart)
    else
      match ParseDec(op)
      case None => Err(NotANumber)
      case Some(address) =>
        if !InAddressRange(address) then Err(MemoryOverflow)
        else if address == 0 then Err(ZeroStart)
        else if cl.labelName.None? then Err(StartWithoutLabel)
        else Ok(Begin(address, cl.labelName.value + " " + cl.mnemonic + " " + FormatHex(address, 6)))
  }

  /** WORD: one decimal operand in 1..MaxAddress, three bytes. */
  function TranslateWord(s: State, cl: CodeLine): (r: Result<Effect>)
    ensures r.Ok? <==> cl.secondOperand.None? && DecOperandIn(cl, 1, MaxAddress) && InAddressRange(s.ip + 3)
    ensures cl.secondOperand.None? && DecOperandIn(cl, 1, MaxAddress) && !InAddressRange(s.ip + 3) ==>
              r == Err(MemoryOverflow)
    ensures r.Ok? ==> r.value.Emit? && r.value.size == 3 && Allowed(s, r.value)
    ensures r.Ok? ==> cl.firstOperand.Some? && ParseDec(cl.firstOperand.value).Some?
    ensures r.Ok? ==> var v := ParseDec(cl.firstOperand.value).value;
              0 < v <= MaxAddress && r.value.text == Address(s.ip) + " " + cl.mnemonic + " " + FormatHex(v, 6)
  {
    var op :- SingleOperand(cl);
    match ParseDec(op)
    case None => Err(NotANumber)
    case Some(v) =>
      if v <= 0 || v > MaxAddress then Err(OutOfRange)
      else Allocate(s, 3, Address(s.ip) + " " + cl.mnemonic + " " + FormatHex(v, 6))
  }

  /**
    BYTE: a decimal byte 0..255 takes one byte; else a `C"…"` literal takes
    as many bytes as `Trim('C').Trim('"')` leaves characters and is copied
    as written; else an `X"…"` literal takes as many bytes as it has hex
    digits and is copied upper-cased.
  */
  function TranslateByte(s: State, cl: CodeLine): (r: Result<Effect>)
    ensures r.Ok? <==> cl.firstOperand.Some? && cl.secondOperand.None? && ByteSize(cl.firstOperand.value).Some? &&
                       InAddressRange(s.ip + ByteSize(cl.firstOperand.value).value)
    ensures (cl.firstOperand.Some? && cl.secondOperand.None? && ByteSize(cl.firstOperand.value).Some? &&
             !InAddressRange(s.ip + ByteSize(cl.firstOperand.value).value)) ==> r == Err(MemoryOverflow)
    ensures r.Ok? ==> r.value.Emit? && Allowed(s, r.value)
    ensures r.Ok? ==> cl.firstOperand.Some? && cl.secondOperand.None?
    ensures r.Ok? ==> var op := cl.firstOperand.value;
              match ParseDec(op)
              case Some(v) => 0 <= v <= 255 && r.value.size == 1 &&
                              r.value.text == Address(s.ip) + " " + cl.mnemonic + " " + FormatHex(v, 2)
              case None =>
                (IsCString(op) && r.value.size == |CSymbolsPass1(op)| &&
                 r.value.text == Address(s.ip) + " " + cl.mnemonic + " " + op) ||
                (!IsCString(op) && IsXString(op) && r.value.size == |XSymbols(op)| &&
                 r.value.text == Address(s.ip) + " " + cl.mnemonic + " " + Upper(op))
    ensures r.Err? && cl.firstOperand.Some? && cl.secondOperand.None? ==>
              r.error in {OutOfRange, MemoryOverflow, InvalidOperand}
  {
    var op :- SingleOperand(cl);
    match ParseDec(op)
    case Some(v) =>
      if v < 0 || v > 255 then Err(OutOfRange)
      else Allocate(s, 1, Address(s.ip) + " " + cl.mnemonic + " " + FormatHex(v, 2))
    case None =>
      if IsCString(op) then
        Allocate(s, |CSymbolsPass1(op)|, Address(s.ip) + " " + cl.mnemonic + " " + op)
      else if IsXString(op) then
        Allocate(s, |XSymbols(op)|, Address(s.ip) + " " + cl.mnemonic + " " + Upper(op))
      else Err(InvalidOperand)
  }

  /** The bytes a BYTE operand takes, when it is one of the three accepted forms. */
  function ByteSize(op: string): Option<int> {
    match ParseDec(op)
    case Some(v) => if 0 <= v <= 255 then Some(1) else None
    case None =>
      if IsCString(op) then Some(|CSymbolsPass1(op)|)
      else if IsXString(op) then Some(|XSymbols(op)|)
      else None
  }

  /** RESW (`unit` 3) and RESB (`unit` 1): a count 1..255 of words or bytes. */
  function TranslateReserve(s: State, cl: CodeLine, unit: int): (r: Result<Effect>)
    requires unit == 1 || unit == 3
    ensures r.Ok? <==> cl.secondOperand.None? && DecOperandIn(cl, 1, 255) &&
                       InAddressRange(s.ip + ParseDec(cl.firstOperand.value).value * unit)
    ensures (cl.secondOperand.None? && DecOperandIn(cl, 1, 255) &&
             !InAddressRange(s.ip + ParseDec(cl.firstOperand.value).value * unit)) ==> r == Err(MemoryOverflow)
    ensures r.Ok? ==> r.value.Emit? && Allowed(s, r.value)
    ensures r.Ok? ==> cl.firstOperand.Some? && ParseDec(cl.firstOperand.value).Some?
    ensures r.Ok? ==> var n := ParseDec(cl.firstOperand.value).value;
              1 <= n <= 255 && r.value.size == n * unit &&
              r.value.text == Address(s.ip) + " " + cl.mnemonic + " " + FormatHex(n, 2)
  {
    var op :- SingleOperand(cl);
    match ParseDec(op)
    case None => Err(NotANumber)
    case Some(n) =>
      if n <= 0 || n > 255 then Err(OutOfRange)
      else Allocate(s, n * unit, Address(s.ip) + " " + cl.mnemonic + " " + FormatHex(n, 2))
  }

  /**
    END: at most one operand, after START, only once; the entry point is the
    operand (a decimal address in range) or else the start address. The
    range check 0..MaxAddress is that of the C# code, and it makes the
    `OverflowCheck` that follows it always pass.
  */
  function TranslateEnd(s: State, cl: CodeLine): (r: Result<Effect>)
    ensures r.Ok? <==>
              cl.secondOperand.None? && s.startSeen && !s.endSeen &&
              (cl.firstOperand.Some? ==> ParseDec(cl.firstOperand.value).Some? &&
                                         InAddressRange(ParseDec(cl.firstOperand.value).value))
    ensures r.Ok? ==> r.value.Finish? && Allowed(s, r.value)
    ensures r.Ok? ==> r.value.entry == if cl.firstOperand.None? then s.start else ParseDec(cl.firstOperand.value).value
    ensures r.Err? && cl.secondOperand.None? && !s.startSeen ==> r.error == EndWithoutStart
  {
    if cl.secondOperand.Some? then Err(ExtraOperand)
    else if !s.startSeen then Err(EndWithoutStart)
    else if s.endSeen then Err(DuplicateEnd)
    else
      match cl.firstOperand
      case None => Ok(Finish(s.start))
      case Some(op) =>
        match ParseDec(op)
        case None => Err(NotANumber)
        case Some(address) =>
          if !InAddressRange(address) then Err(OutOfRange) else Ok(Finish(address))
  }

  // ---------------------------------------------------------------------------
  // Instructions

  /** `AvailibleCommands.Find(c => c.Name.ToUpper() == name)`: the first command of that name. */
  function FindCommand(cmds: seq<Command>, name: string): (r: Option<Command>)
    ensures r.None? <==> forall k | 0 <= k < |cmds| :: Upper(cmds[k].name) != name
    ensures r.Some? ==> exists k | 0 <= k < |cmds| ::
              (cmds[k] == r.value && Upper(cmds[k].name) == name &&
               forall j | 0 <= j < k :: Upper(cmds[j].name) != name)
  {
    if |cmds| == 0 then None
    else if Upper(cmds[0].name) == name then Some(cmds[0])
    else
      var r := FindCommand(cmds[1..], name);
      assert r.Some? ==> exists k | 0 <= k < |cmds[1..]| :: cmds[1..][k] == r.value && cmds[k + 1] == r.value;
      r
  }

  /**
    The operands an instruction of table length 1, 2 or 4 accepts: none; two
    registers or one decimal byte; one label or one decimal address.
  */
  predicate OperandsFit(cmds: seq<Command>, cl: CodeLine, length: int) {
    if length == 1 then cl.firstOperand.None?
    else if length == 2 then
      cl.firstOperand.Some? &&
      (if cl.secondOperand.Some? then IsRegister(cl.firstOperand.value) && IsRegister(cl.secondOperand.value)
       else DecOperandIn(cl, 0, 255))
    else
      cl.firstOperand.Some? && cl.secondOperand.None? &&
      (IsLabel(cmds, cl.firstOperand.value) || DecOperandIn(cl, 0, MaxAddress))
  }

  /**
    An instruction of length 1 (no operand), 2 (two registers, or one
    decimal byte) or 4 (a label, addressing mode 1, or a decimal address,
    mode 0). The opcode byte is the 6-bit code shifted left by two with the
    mode in the low bits. A table entry of another length emits an empty
    line and allocates nothing.
  */
  function TranslateCommand(cmds: seq<Command>, s: State, cl: CodeLine, c: Command): (r: Result<Effect>)
    ensures c.length in {1, 2, 4} ==> (r.Ok? <==> OperandsFit(cmds, cl, c.length) && InAddressRange(s.ip + c.length))
    ensures c.length in {1, 2, 4} && OperandsFit(cmds, cl, c.length) && !InAddressRange(s.ip + c.length) ==>
              r == Err(MemoryOverflow)
    ensures r.Ok? ==> r.value.Emit? && Allowed(s, r.value)
    ensures r.Ok? && c.length in {1, 2, 4} ==> r.value.size == c.length
    ensures r.Ok? && c.length !in {1, 2, 4} ==> r.value == Emit("", 0)
    ensures r.Ok? && c.length == 1 ==> cl.firstOperand.None? && r.value.text == Address(s.ip) + " " + FormatHex(c.code * 4, 2)
    ensures r.Ok? && c.length in {2, 4} ==> cl.firstOperand.Some?
    ensures r.Ok? && c.length == 2 ==>
              var op1 := cl.firstOperand.value;
              if cl.secondOperand.Some? then
                r.value.text == Address(s.ip) + " " + FormatHex(c.code * 4, 2) + " " + op1 + " " + cl.secondOperand.value
              else
                DecOperandIn(cl, 0, 255) &&
                r.value.text == Address(s.ip) + " " + FormatHex(c.code * 4, 2) + " " + FormatHex(ParseDec(op1).value, 2)
    ensures r.Ok? && c.length == 4 ==>
              var op := cl.firstOperand.value;
              cl.secondOperand.None? &&
              (if IsLabel(cmds, op) then r.value.text == Address(s.ip) + " " + FormatHex(c.code * 4 + 1, 2) + " " + op
               else ParseDec(op).Some? && InAddressRange(ParseDec(op).value) &&
                    r.value.text == Address(s.ip) + " " + FormatHex(c.code * 4, 2) + " " + FormatHex(ParseDec(op).value, 6))
  {
    var opcode := FormatHex(c.code * 4, 2);
    if c.length == 1 then
      if cl.firstOperand.Some? then Err(ExtraOperand)
      else Allocate(s, 1, Address(s.ip) + " " + opcode)
    else if c.length == 2 then
      match cl.firstOperand
      case None => Err(MissingOperand)
      case Some(op1) =>
        match cl.secondOperand
        case Some(op2) =>
          if IsRegister(op1) && IsRegister(op2) then
            Allocate(s, 2, Address(s.ip) + " " + opcode + " " + op1 + " " + op2)
          else Err(ExpectedRegisters)
        case None =>
          match ParseDec(op1)
          case None => Err(NotANumber)
          case Some(v) =>
            if v < 0 || v > 255 then Err(OutOfRange)
            else Allocate(s, 2, Address(s.ip) + " " + opcode + " " + FormatHex(v, 2))
    else if c.length == 4 then
      var op :- SingleOperand(cl);
      if IsLabel(cmds, op) then
        Allocate(s, 4, Address(s.ip) + " " + FormatHex(c.code * 4 + 1, 2) + " " + op)
      else
        match ParseDec(op)
        case None => Err(InvalidOperand)
        case Some(v) =>
          if v < 0 || v > MaxAddress then Err(InvalidOperand)
          else Allocate(s, 4, Address(s.ip) + " " + opcode + " " + FormatHex(v, 6))
    else Ok(Emit("", 0))
  }

  /**
    The command part of a line: a directive first (a directive name that no
    switch case spells emits an empty line), then an instruction of the
    table, else an unknown command.
  */
  function Translate(cmds: seq<Command>, s: State, cl: CodeLine): (r: Result<Effect>)
    ensures r.Ok? ==> Allowed(s, r.value)
    ensures r.Ok? && r.value.Begin? ==> cl.mnemonic == "START"
    ensures r.Ok? && r.value.Finish? ==> cl.mnemonic == "END"
    ensures !IsDirective(cl.mnemonic) && !IsCommand(cmds, cl.mnemonic) ==> r == Err(UnknownCommand)
  {
    var m := cl.mnemonic;
    if IsDirective(m) then
      if m == "START" then TranslateStart(s, cl)
      else if m == "WORD" then TranslateWord(s, cl)
      else if m == "BYTE" then TranslateByte(s, cl)
      else if m == "RESW" then TranslateReserve(s, cl, 3)
      else if m == "RESB" then TranslateReserve(s, cl, 1)
      else if m == "END" then TranslateEnd(s, cl)
      else Ok(Emit("", 0))
    else if IsCommand(cmds, m) then
      match FindCommand(cmds, m)
      case None => Err(UnknownCommand)
      case Some(c) => TranslateCommand(cmds, s, cl, c)
    else Err(UnknownCommand)
  }

  // ---------------------------------------------------------------------------
  // Lines and the whole pass

  /** A label is recorded at the current `ip` once START has been seen (`PushToTSI`). */
  function Record(s: State, cl: CodeLine): (s': State)
    ensures s'.tsi == if cl.labelName.Some? && s.startSeen then s.tsi + [SymbolicName(cl.labelName.value, s.ip)] else s.tsi
    ensures s' == s.(tsi := s'.tsi)
  {
    if cl.labelName.Some? && s.startSeen then s.(tsi := s.tsi + [SymbolicName(cl.labelName.value, s.ip)])
    else s
  }

  /**
    One line: classify it, reject a label already in the symbol table
    (ignoring case), record the label, then translate the command part. A
    recorded label stays in the table when the translation fails.
  */
  function Step(cmds: seq<Command>, s: State, line: seq<string>): (o: Outcome)
    ensures GetCodeLineFromSource(cmds, line).Err? ==> o == Failed(s, GetCodeLineFromSource(cmds, line).error)
    ensures o.Done? ==> |o.state.out| == |s.out| + 1 && o.state.out[..|s.out|] == s.out && s.tsi <= o.state.tsi
    ensures o.Failed? ==> o.state == s.(tsi := o.state.tsi) && s.tsi <= o.state.tsi
  {
    match GetCodeLineFromSource(cmds, line)
    case Err(e) => Failed(s, e)
    case Ok(cl) =>
      if cl.labelName.Some? && InTsi(s.tsi, cl.labelName.value) then Failed(s, DuplicateLabel)
      else
        var s1 := Record(s, cl);
        match Translate(cmds, s1, cl)
        case Err(e) => Failed(s1, e)
        case Ok(eff) => Done(Apply(s1, eff))
  }

  /**
    The loop over the lines: code before START (a non-zero `ip` without the
    START flag) and an `ip` out of range are rejected before each line, the
    lines after END are skipped, and running out of lines without END is an
    error.
  */
  function Run(cmds: seq<Command>, s: State, lines: seq<seq<string>>): (o: Outcome)
    ensures s.out <= o.state.out && |o.state.out| <= |s.out| + |lines|
    ensures s.tsi <= o.state.tsi
    decreases |lines|
  {
    if |lines| == 0 then
      if s.endSeen then Done(s) else Failed(s, MissingEntryPoint)
    else if !s.startSeen && s.ip != 0 then Failed(s, MissingStart)
    else if s.startSeen && !InAddressRange(s.ip) then Failed(s, MemoryOverflow)
    else if s.endSeen then Done(s)
    else
      match Step(cmds, s, lines[0])
      case Failed(s', e) => Failed(s', e)
      case Done(s') => Run(cmds, s', lines[1..])
  }

  /** `FirstPass(lines)` on an assembler whose table is `cmds` and whose symbol table is `tsi`. */
  function FirstPass(cmds: seq<Command>, tsi: seq<SymbolicName>, lines: seq<seq<string>>): (o: Outcome)
    ensures tsi <= o.state.tsi
    ensures |o.state.out| <= |lines|
  {
    Run(cmds, Init(tsi), lines)
  }

  // ---------------------------------------------------------------------------
  // Properties

  /** The invariant of the walk: `ip` in range, START before END, START's address at most `ip`, the entry point in range. */
  predicate Good(s: State) {
    InAddressRange(s.ip) &&
    (s.endSeen ==> s.startSeen) &&
    (s.startSeen ==> 0 < s.start <= s.ip) &&
    (s.endSeen ==> InAddressRange(s.end))
  }

  lemma StepKeepsGood(cmds: seq<Command>, s: State, line: seq<string>)
    requires Good(s) && !s.endSeen
    ensures Good(Step(cmds, s, line).state)
    ensures Step(cmds, s, line).state.start == s.start || !s.startSeen
    ensures s.startSeen ==> s.ip <= Step(cmds, s, line).state.ip
  {
    match GetCodeLineFromSource(cmds, line)
    case Err(_) =>
    case Ok(cl) =>
      if !(cl.labelName.Some? && InTsi(s.tsi, cl.labelName.value)) {
        var s1 := Record(s, cl);
        match Translate(cmds, s1, cl)
        case Err(_) =>
        case Ok(eff) => assert Allowed(s1, eff);
      }
  }

  /** `ip` never leaves 0..MaxAddress, and once START is seen its address stays below `ip`. */
  lemma {:induction false} RunKeepsGood(cmds: seq<Command>, s: State, lines: seq<seq<string>>)
    requires Good(s)
    ensures Good(Run(cmds, s, lines).state)
    ensures s.startSeen ==> Run(cmds, s, lines).state.start == s.start && s.ip <= Run(cmds, s, lines).state.ip
    decreases |lines|
  {
    if |lines| > 0 && !(!s.startSeen && s.ip != 0) && !s.endSeen {
      StepKeepsGood(cmds, s, lines[0]);
      match Step(cmds, s, lines[0])
      case Failed(_, _) =>
      case Done(s') => RunKeepsGood(cmds, s', lines[1..]);
    }
  }

  /**
    A first pass that succeeds has seen START and END, ends with `ip` in
    startAddress..MaxAddress and a non-zero start, and has an entry point in
    0..MaxAddress (which the second pass compares with `ip`).
  */
  lemma FirstPassSucceeds(cmds: seq<Command>, tsi: seq<SymbolicName>, lines: seq<seq<string>>)
    ensures var o := FirstPass(cmds, tsi, lines);
            InAddressRange(o.state.ip) &&
            (o.Done? ==> o.state.startSeen && o.state.endSeen && 0 < o.state.start <= o.state.ip &&
                         InAddressRange(o.state.end))
  {
    RunKeepsGood(cmds, Init(tsi), lines);
    RunDoneHasEnd(cmds, Init(tsi), lines);
  }

  lemma {:induction false} RunDoneHasEnd(cmds: seq<Command>, s: State, lines: seq<seq<string>>)
    requires Good(s)
    ensures Run(cmds, s, lines).Done? ==> Run(cmds, s, lines).state.endSeen
    decreases |lines|
  {
    if |lines| > 0 && !(!s.startSeen && s.ip != 0) && !s.endSeen {
      StepKeepsGood(cmds, s, lines[0]);
      match Step(cmds, s, lines[0])
      case Failed(_, _) =>
      case Done(s') => RunDoneHasEnd(cmds, s', lines[1..]);
    }
  }

  /** Lines after a successful END change nothing: appending lines to a program that assembles leaves the result alone. */
  lemma {:induction false} LinesAfterEndSkipped(cmds: seq<Command>, s: State, lines: seq<seq<string>>, rest: seq<seq<string>>)
    requires Good(s)
    requires Run(cmds, s, lines).Done?
    ensures Run(cmds, s, lines + rest) == Run(cmds, s, lines)
    decreases |lines|
  {
    if |lines| == 0 {
      assert lines + rest == rest;
    } else if !(!s.startSeen && s.ip != 0) && !s.endSeen {
      var o := Step(cmds, s, lines[0]);
      assert (lines + rest)[0] == lines[0];
      assert (lines + rest)[1..] == lines[1..] + rest;
      StepKeepsGood(cmds, s, lines[0]);
      if o.Done? {
        LinesAfterEndSkipped(cmds, o.state, lines[1..], rest);
      }
    } else {
      assert (lines + rest)[0] == lines[0];
    }
  }

  /** No two symbol-table entries have names equal ignoring case. */
  predicate UniqueNames(tsi: seq<SymbolicName>) {
    forall i, j | 0 <= i < j < |tsi| :: Upper(tsi[i].name) != Upper(tsi[j].name)
  }

  /** The entries from `from` on are labels written upper-case, with addresses in lo..hi. */
  predicate Recorded(cmds: seq<Command>, tsi: seq<SymbolicName>, from: nat, lo: int, hi: int) {
    forall k | from <= k < |tsi| ::
      IsLabel(cmds, tsi[k].name) && Upper(tsi[k].name) == tsi[k].name && lo <= tsi[k].address <= hi
  }

  /** What the walk adds to the symbol table, as an invariant of a state from `from` entries on. */
  predicate TableAdded(cmds: seq<Command>, s: State, from: nat) {
    from <= |s.tsi| &&
    (s.startSeen ==> Recorded(cmds, s.tsi, from, s.start, s.ip)) &&
    (!s.startSeen ==> |s.tsi| == from)
  }

  /** Recording a fresh label keeps the invariant and the distinctness of names. */
  lemma RecordTable(cmds: seq<Command>, s: State, line: seq<string>, cl: CodeLine, from: nat)
    requires Good(s) && TableAdded(cmds, s, from)
    requires GetCodeLineFromSource(cmds, line) == Ok(cl)
    requires !(cl.labelName.Some? && InTsi(s.tsi, cl.labelName.value))
    ensures TableAdded(cmds, Record(s, cl), from)
    ensures s.tsi <= Record(s, cl).tsi
    ensures UniqueNames(s.tsi) ==> UniqueNames(Record(s, cl).tsi)
  {
    if cl.labelName.Some? && s.startSeen {
      var name := cl.labelName.value;
      assert name == Upper(line[0]);
      UpperLabelIsLabel(cmds, line[0]);
      UpperIdempotent(line[0]);
      var t := Record(s, cl).tsi;
      assert t == s.tsi + [SymbolicName(name, s.ip)];
      assert forall k | 0 <= k < |s.tsi| :: Upper(s.tsi[k].name) != Upper(name);
    }
  }

  /** An allowed effect keeps the invariant and leaves the symbol table alone. */
  lemma ApplyTable(cmds: seq<Command>, s: State, e: Effect, from: nat)
    requires Good(s) && !s.endSeen && TableAdded(cmds, s, from) && Allowed(s, e)
    ensures TableAdded(cmds, Apply(s, e), from)
    ensures Apply(s, e).tsi == s.tsi
  {
  }

  lemma StepTable(cmds: seq<Command>, s: State, line: seq<string>, from: nat)
    requires Good(s) && !s.endSeen && TableAdded(cmds, s, from)
    ensures TableAdded(cmds, Step(cmds, s, line).state, from)
    ensures s.tsi <= Step(cmds, s, line).state.tsi
    ensures UniqueNames(s.tsi) ==> UniqueNames(Step(cmds, s, line).state.tsi)
  {
    match GetCodeLineFromSource(cmds, line)
    case Err(_) =>
    case Ok(cl) =>
      if !(cl.labelName.Some? && InTsi(s.tsi, cl.labelName.value)) {
        RecordTable(cmds, s, line, cl, from);
        var s1 := Record(s, cl);
        match Translate(cmds, s1, cl)
        case Err(_) =>
        case Ok(eff) => ApplyTable(cmds, s1, eff, from);
      }
  }

  lemma {:induction false} RunTable(cmds: seq<Command>, s: State, lines: seq<seq<string>>, from: nat)
    requires Good(s) && TableAdded(cmds, s, from)
    ensures TableAdded(cmds, Run(cmds, s, lines).state, from)
    ensures s.tsi <= Run(cmds, s, lines).state.tsi
    ensures UniqueNames(s.tsi) ==> UniqueNames(Run(cmds, s, lines).state.tsi)
    decreases |lines|
  {
    if |lines| > 0 && !(!s.startSeen && s.ip != 0) && !s.endSeen {
      StepTable(cmds, s, lines[0], from);
      StepKeepsGood(cmds, s, lines[0]);
      match Step(cmds, s, lines[0])
      case Failed(_, _) =>
      case Done(s') => RunTable(cmds, s', lines[1..], from);
    }
  }

  /**
    The symbol table after the pass, whether it succeeds or fails, starts
    with the table it was given; every entry it adds is a label, upper-cased,
    whose address lies between the START address and the final `ip`; and it
    keeps names distinct ignoring case when they were distinct before.
  */
  lemma FirstPassSymbols(cmds: seq<Command>, tsi: seq<SymbolicName>, lines: seq<seq<string>>)
    ensures var o := FirstPass(cmds, tsi, lines);
            tsi <= o.state.tsi &&
            (o.state.startSeen ==> Recorded(cmds, o.state.tsi, |tsi|, o.state.start, o.state.ip)) &&
            (!o.state.startSeen ==> o.state.tsi == tsi) &&
            (UniqueNames(tsi) ==> UniqueNames(o.state.tsi))
  {
    RunTable(cmds, Init(tsi), lines, |tsi|);
  }

  /** A label that the symbol table already holds, ignoring case, stops the pass at its line. */
  lemma DuplicateLabelRejected(cmds: seq<Command>, s: State, line: seq<string>)
    requires GetCodeLineFromSource(cmds, line).Ok?
    requires var cl := GetCodeLineFromSource(cmds, line).value; cl.labelName.Some? && InTsi(s.tsi, line[0])
    ensures Step(cmds, s, line) == Failed(s, DuplicateLabel)
  {
    var cl := GetCodeLineFromSource(cmds, line).value;
    UpperIdempotent(line[0]);
    assert Upper(cl.labelName.value) == Upper(line[0]);
  }

  /** The label of the START line is never recorded: the START flag is still clear when labels are processed. */
  lemma StartLabelNotRecorded(cmds: seq<Command>, s: State, line: seq<string>)
    requires !s.startSeen
    ensures Step(cmds, s, line).state.tsi == s.tsi
  {
    match GetCodeLineFromSource(cmds, line)
    case Err(_) =>
    case Ok(cl) =>
      assert Record(s, cl) == s;
  }

  /**
    Once START has been seen, a new label is recorded at the `ip` the line
    starts at, before the line's own allocation.
  */
  lemma LabelRecordedAtIp(cmds: seq<Command>, s: State, line: seq<string>)
    requires s.startSeen && GetCodeLineFromSource(cmds, line).Ok?
    requires var cl := GetCodeLineFromSource(cmds, line).value; cl.labelName.Some? && !InTsi(s.tsi, cl.labelName.value)
    ensures Step(cmds, s, line).state.tsi == s.tsi + [SymbolicName(Upper(line[0]), s.ip)]
  {
  }

  // ---------------------------------------------------------------------------
  // Missing START and END

  /**
    Code before START: a first line that allocates bytes without opening the
    program makes the check before the next line fail with `MissingStart`.
  */
  lemma CodeBeforeStartRejected(cmds: seq<Command>, tsi: seq<SymbolicName>, lines: seq<seq<string>>)
    requires |lines| >= 2
    requires var o := Step(cmds, Init(tsi), lines[0]); o.Done? && !o.state.startSeen && o.state.ip != 0
    ensures FirstPass(cmds, tsi, lines) == Failed(Step(cmds, Init(tsi), lines[0]).state, MissingStart)
  {
    var s' := Step(cmds, Init(tsi), lines[0]).state;
    assert Run(cmds, Init(tsi), lines) == Run(cmds, s', lines[1..]);
  }

  /** A line the classifier reads as END. */
  predicate EndLine(cmds: seq<Command>, line: seq<string>) {
    GetCodeLineFromSource(cmds, line).Ok? && GetCodeLineFromSource(cmds, line).value.mnemonic == "END"
  }

  /** Only an END line sets the END flag. */
  lemma StepEnd(cmds: seq<Command>, s: State, line: seq<string>)
    requires !s.endSeen && !EndLine(cmds, line)
    ensures !Step(cmds, s, line).state.endSeen
  {
    match GetCodeLineFromSource(cmds, line)
    case Err(_) =>
    case Ok(cl) =>
      if !(cl.labelName.Some? && InTsi(s.tsi, cl.labelName.value)) {
        var s1 := Record(s, cl);
        match Translate(cmds, s1, cl)
        case Err(_) =>
        case Ok(eff) => assert !eff.Finish?;
      }
  }

  /** Without an END line there is no successful pass. */
  lemma {:induction false} MissingEndFails(cmds: seq<Command>, s: State, lines: seq<seq<string>>)
    requires !s.endSeen
    requires forall k | 0 <= k < |lines| :: !EndLine(cmds, lines[k])
    ensures Run(cmds, s, lines).Failed?
    decreases |lines|
  {
    if |lines| > 0 && !(!s.startSeen && s.ip != 0) && !(s.startSeen && !InAddressRange(s.ip)) {
      StepEnd(cmds, s, lines[0]);
      match Step(cmds, s, lines[0])
      case Failed(_, _) =>
      case Done(s') =>
        assert forall k | 0 <= k < |lines[1..]| :: lines[1..][k] == lines[k + 1];
        MissingEndFails(cmds, s', lines[1..]);
    }
  }

  /**
    A program that assembles once an END line is appended, but has none of
    its own, is reported with `MissingEntryPoint`.
  */
  lemma {:induction false} MissingEndReported(cmds: seq<Command>, s: State, lines: seq<seq<string>>, endLine: seq<string>)
    requires !s.endSeen
    requires forall k | 0 <= k < |lines| :: !EndLine(cmds, lines[k])
    requires Run(cmds, s, lines + [endLine]).Done?
    ensures Run(cmds, s, lines).Failed? && Run(cmds, s, lines).error == MissingEntryPoint
    decreases |lines|
  {
    if |lines| > 0 {
      assert (lines + [endLine])[0] == lines[0];
      assert (lines + [endLine])[1..] == lines[1..] + [endLine];
      StepEnd(cmds, s, lines[0]);
      var s' := Step(cmds, s, lines[0]).state;
      assert forall k | 0 <= k < |lines[1..]| :: lines[1..][k] == lines[k + 1];
      MissingEndReported(cmds, s', lines[1..], endLine);
    }
  }

  // ---------------------------------------------------------------------------
  // The emitted lines

  /** The address column `{ip:X6} ` of an emitted line, read back. */
  function AddressOf(t: string): Option<int> {
    if |t| >= 7 && t[6] == ' ' then ParseHex(t[..6]) else None
  }

  /** An emitted line that is empty (END, an unlisted directive) or carries an address in lo..hi. */
  predicate Addressed(t: string, lo: int, hi: int) {
    t == "" || (AddressOf(t).Some? && lo <= AddressOf(t).value <= hi)
  }

  /** The START line: the program name, `START` and the start address. */
  predicate StartLine(t: string, address: int) {
    var suffix := " START " + Address(address);
    |suffix| <= |t| && t[|t| - |suffix|..] == suffix
  }

  lemma AddressRead(a: int, rest: string)
    requires InAddressRange(a)
    ensures AddressOf(Address(a) + " " + rest) == Some(a)
  {
    assert Pow16(6) == 16777216;
    PadHexWidth(a, 6);
    PadHexRoundTrip(a, 6);
    var t := Address(a) + " " + rest;
    assert t[..6] == Address(a);
  }

  /** Reading `Address(a) + " " + x + " " + y` back gives `a`. */
  lemma AddressRead2(a: int, x: string, y: string)
    requires InAddressRange(a)
    ensures AddressOf(Address(a) + " " + x + " " + y) == Some(a)
  {
    assert Address(a) + " " + x + " " + y == Address(a) + " " + (x + " " + y);
    AddressRead(a, x + " " + y);
  }

  lemma WordLine(s: State, cl: CodeLine)
    requires InAddressRange(s.ip) && TranslateWord(s, cl).Ok?
    ensures AddressOf(TranslateWord(s, cl).value.text) == Some(s.ip)
  {
    AddressRead2(s.ip, cl.mnemonic, FormatHex(ParseDec(cl.firstOperand.value).value, 6));
  }

  lemma ByteLine(s: State, cl: CodeLine)
    requires InAddressRange(s.ip) && TranslateByte(s, cl).Ok?
    ensures AddressOf(TranslateByte(s, cl).value.text) == Some(s.ip)
  {
    var op := cl.firstOperand.value;
    match ParseDec(op)
    case Some(v) => AddressRead2(s.ip, cl.mnemonic, FormatHex(v, 2));
    case None =>
      AddressRead2(s.ip, cl.mnemonic, op);
      AddressRead2(s.ip, cl.mnemonic, Upper(op));
  }

  lemma ReserveLine(s: State, cl: CodeLine, unit: int)
    requires unit == 1 || unit == 3
    requires InAddressRange(s.ip) && TranslateReserve(s, cl, unit).Ok?
    ensures AddressOf(TranslateReserve(s, cl, unit).value.text) == Some(s.ip)
  {
    AddressRead2(s.ip, cl.mnemonic, FormatHex(ParseDec(cl.firstOperand.value).value, 2));
  }

  lemma CommandLine(cmds: seq<Command>, s: State, cl: CodeLine, c: Command)
    requires InAddressRange(s.ip) && TranslateCommand(cmds, s, cl, c).Ok?
    ensures Addressed(TranslateCommand(cmds, s, cl, c).value.text, s.ip, s.ip)
  {
    var opcode := FormatHex(c.code * 4, 2);
    if c.length == 1 {
      AddressRead(s.ip, opcode);
    } else if c.length == 2 {
      var op1 := cl.firstOperand.value;
      if cl.secondOperand.Some? {
        var t := Address(s.ip) + " " + opcode + " " + op1 + " " + cl.secondOperand.value;
        assert t == Address(s.ip) + " " + (opcode + " " + op1 + " " + cl.secondOperand.value);
        AddressRead(s.ip, opcode + " " + op1 + " " + cl.secondOperand.value);
      } else {
        AddressRead2(s.ip, opcode, FormatHex(ParseDec(op1).value, 2));
      }
    } else if c.length == 4 {
      var op := cl.firstOperand.value;
      if IsLabel(cmds, op) {
        AddressRead2(s.ip, FormatHex(c.code * 4 + 1, 2), op);
      } else {
        AddressRead2(s.ip, opcode, FormatHex(ParseDec(op).value, 6));
      }
    }
  }

  /** Every line an instruction or a directive other than START emits starts with the `ip` it was translated at. */
  lemma TranslateLine(cmds: seq<Command>, s: State, cl: CodeLine)
    requires InAddressRange(s.ip) && Translate(cmds, s, cl).Ok?
    ensures var e := Translate(cmds, s, cl).value;
            if e.Begin? then StartLine(e.text, e.address)
            else Addressed(EffectLine(e), s.ip, s.ip)
  {
    var e := Translate(cmds, s, cl).value;
    var m := cl.mnemonic;
    if IsDirective(m) {
      if m == "START" {
        StartTranslated(s, cl);
      } else if m == "WORD" {
        WordLine(s, cl);
      } else if m == "BYTE" {
        ByteLine(s, cl);
      } else if m == "RESW" {
        ReserveLine(s, cl, 3);
      } else if m == "RESB" {
        ReserveLine(s, cl, 1);
      }
    } else {
      CommandLine(cmds, s, cl, FindCommand(cmds, m).value);
    }
  }

  lemma StartTranslated(s: State, cl: CodeLine)
    requires cl.mnemonic == "START" && TranslateStart(s, cl).Ok?
    ensures var e := TranslateStart(s, cl).value; e.Begin? && StartLine(e.text, e.address)
  {
    var e := TranslateStart(s, cl).value;
    var suffix := " START " + Address(e.address);
    assert e.text == cl.labelName.value + suffix;
  }

  /** One accepted line: the START line, or a line addressed between the old and the new `ip`. */
  lemma StepLine(cmds: seq<Command>, s: State, line: seq<string>)
    requires Good(s) && !s.endSeen && Step(cmds, s, line).Done?
    ensures var s' := Step(cmds, s, line).state;
            var t := s'.out[|s.out|];
            if s'.startSeen && !s.startSeen then StartLine(t, s'.start) && s'.ip == s'.start
            else s'.startSeen == s.startSeen && Addressed(t, s.ip, s'.ip)
  {
    var cl := GetCodeLineFromSource(cmds, line).value;
    var s1 := Record(s, cl);
    var eff := Translate(cmds, s1, cl).value;
    TranslateLine(cmds, s1, cl);
    assert Step(cmds, s, line).state == Apply(s1, eff);
  }

  /** Lines from `from` on are addressed within lo..hi. */
  predicate AddressedFrom(out: seq<string>, from: nat, lo: int, hi: int) {
    forall k | from <= k < |out| :: Addressed(out[k], lo, hi)
  }

  /** After START, every emitted line is addressed between the START address and the current `ip`. */
  lemma {:induction false} RunAddresses(cmds: seq<Command>, s: State, lines: seq<seq<string>>, from: nat)
    requires Good(s) && s.startSeen && from <= |s.out| && AddressedFrom(s.out, from, s.start, s.ip)
    ensures AddressedFrom(Run(cmds, s, lines).state.out, from, s.start, Run(cmds, s, lines).state.ip)
    decreases |lines|
  {
    if |lines| > 0 && !s.endSeen {
      match Step(cmds, s, lines[0])
      case Failed(_, _) =>
      case Done(s') =>
        StepLine(cmds, s, lines[0]);
        StepKeepsGood(cmds, s, lines[0]);
        assert forall k | from <= k < |s.out| :: s'.out[k] == s.out[k];
        RunAddresses(cmds, s', lines[1..], from);
    }
  }

  /**
    The shape of `firstPassCode`: the lines before the START line are
    addressed 0 (they allocate nothing), line `n` is the START line, and
    every later line is empty or addressed within start..ip.
  */
  predicate Layout(out: seq<string>, n: int, start: int, ip: int) {
    0 <= n < |out| && StartLine(out[n], start) &&
    AddressedFrom(out[..n], 0, 0, 0) && AddressedFrom(out, n + 1, start, ip)
  }

  lemma {:induction false} RunBeforeStart(cmds: seq<Command>, s: State, lines: seq<seq<string>>)
    requires Good(s) && !s.startSeen && s.ip == 0 && AddressedFrom(s.out, 0, 0, 0)
    ensures var o := Run(cmds, s, lines);
            o.Done? ==> exists n | |s.out| <= n :: Layout(o.state.out, n, o.state.start, o.state.ip)
    decreases |lines|
  {
    var o := Run(cmds, s, lines);
    if |lines| > 0 && o.Done? {
      var s' := Step(cmds, s, lines[0]).state;
      assert o == Run(cmds, s', lines[1..]);
      StepLine(cmds, s, lines[0]);
      StepKeepsGood(cmds, s, lines[0]);
      var n := |s.out|;
      if s'.startSeen {
        RunAddresses(cmds, s', lines[1..], n + 1);
        RunKeepsGood(cmds, s', lines[1..]);
        assert o.state.out[..n + 1] == s'.out;
        assert o.state.out[..n] == s.out;
        assert Layout(o.state.out, n, o.state.start, o.state.ip);
      } else {
        assert s'.ip == 0;
        assert AddressedFrom(s'.out, 0, 0, 0);
        RunBeforeStart(cmds, s', lines[1..]);
      }
    }
  }

  /**
    Every address a successful first pass writes lies between the START
    address and the final `ip`: the lines before START are addressed 0, and
    every line after it is empty or addressed within start..ip.
  */
  lemma FirstPassAddresses(cmds: seq<Command>, tsi: seq<SymbolicName>, lines: seq<seq<string>>)
    ensures var o := FirstPass(cmds, tsi, lines);
            o.Done? ==> exists n :: Layout(o.state.out, n, o.state.start, o.state.ip)
  {
    RunBeforeStart(cmds, Init(tsi), lines);
  }
}
