/**
  The `Assembler` object: its instruction table, its symbol table (TSI) and
  the counters `ip`, `startAddress` and `endAddress` that the first pass
  updates in place and the second pass reads. The passes are proved equal
  to the functions `Pass1.FirstPass` and `Pass2.SecondPass`.
*/
module AssemblerClass {
  import opened Errors
  import opened Text
  import opened Structure
  import opened Syntax
  import opened StringChecker
  import Pass1
  import Pass2

  /** The table an assembler starts with. */
  const DefaultCommands: seq<Command> := [
    Command("JMP", 1, 4),
    Command("LOADR1", 2, 4),
    Command("LOADR2", 3, 4),
    Command("ADD", 4, 2),
    Command("SAVER1", 5, 4),
    Command("INT", 6, 2)
  ]

  /**
    `newAvailibleCommandsDto.Select(c => new Command(c)).ToList()`: the first
    DTO that fails decides the error (see `ConvertAllSucceeds` and
    `ConvertAllFirstError`).
  */
  function ConvertAll(dtos: seq<CommandDto>): (r: Result<seq<Command>>)
    ensures r.Ok? ==> |r.value| == |dtos|
    ensures r.Err? ==> r.error in {EmptyName, NameStart, NameChars, CodeFormat, CodeRange, LengthFormat, LengthRange}
    decreases |dtos|
  {
    if |dtos| == 0 then Ok([])
    else
      var cmds :- ConvertAll(dtos[..|dtos| - 1]);
      var c :- NewCommand(dtos[|dtos| - 1]);
      Ok(cmds + [c])
  }

  /** The conversion succeeds exactly when every DTO converts, and then the k-th command is DTO k's. */
  lemma {:induction false} ConvertAllSucceeds(dtos: seq<CommandDto>)
    ensures ConvertAll(dtos).Ok? <==> forall k | 0 <= k < |dtos| :: NewCommand(dtos[k]).Ok?
    ensures ConvertAll(dtos).Ok? ==> forall k | 0 <= k < |dtos| :: NewCommand(dtos[k]) == Ok(ConvertAll(dtos).value[k])
    decreases |dtos|
  {
    if |dtos| > 0 {
      var n := |dtos| - 1;
      var init := dtos[..n];
      ConvertAllSucceeds(init);
      assert forall k | 0 <= k < n :: init[k] == dtos[k];
      if ConvertAll(init).Ok? && NewCommand(dtos[n]).Ok? {
        assert ConvertAll(dtos).value == ConvertAll(init).value + [NewCommand(dtos[n]).value];
      }
    }
  }

  /** A failing conversion reports the error of the first DTO that fails. */
  lemma {:induction false} ConvertAllFirstError(dtos: seq<CommandDto>)
    ensures ConvertAll(dtos).Err? ==> exists k | 0 <= k < |dtos| ::
              NewCommand(dtos[k]) == Err(ConvertAll(dtos).error) && forall j | 0 <= j < k :: NewCommand(dtos[j]).Ok?
    decreases |dtos|
  {
    if |dtos| > 0 {
      var init := dtos[..|dtos| - 1];
      ConvertAllFirstError(init);
      ConvertAllSucceeds(init);
      assert forall k | 0 <= k < |init| :: init[k] == dtos[k];
    }
  }

  /** An error in converting a prefix is the error of the whole. */
  lemma {:induction false} ConvertAllKeepError(dtos: seq<CommandDto>, i: nat)
    requires i <= |dtos| && ConvertAll(dtos[..i]).Err?
    ensures ConvertAll(dtos) == ConvertAll(dtos[..i])
    decreases |dtos|
  {
    if i == |dtos| {
      assert dtos[..i] == dtos;
    } else {
      var init := dtos[..|dtos| - 1];
      assert init[..i] == dtos[..i];
      ConvertAllKeepError(init, i);
    }
  }

  /** No two names are equal ignoring case. */
  predicate NamesDistinct(cmds: seq<Command>) {
    forall i, j | 0 <= i < j < |cmds| :: Upper(cmds[i].name) != Upper(cmds[j].name)
  }

  /** No two codes are equal. */
  predicate CodesDistinct(cmds: seq<Command>) {
    forall i, j | 0 <= i < j < |cmds| :: cmds[i].code != cmds[j].code
  }

  /** The table `SetAvailibleCommands` installs: every DTO converted, then the names checked, then the codes. */
  function CommandTable(dtos: seq<CommandDto>): (r: Result<seq<Command>>)
    ensures r.Ok? ==> ConvertAll(dtos) == r && NamesDistinct(r.value) && CodesDistinct(r.value)
    ensures r == Err(DuplicateName) ==> ConvertAll(dtos).Ok? && !NamesDistinct(ConvertAll(dtos).value)
    ensures r == Err(DuplicateCode) ==>
              ConvertAll(dtos).Ok? && NamesDistinct(ConvertAll(dtos).value) && !CodesDistinct(ConvertAll(dtos).value)
    ensures ConvertAll(dtos).Err? ==> r == ConvertAll(dtos)
  {
    var cmds :- ConvertAll(dtos);
    if !NamesDistinct(cmds) then Err(DuplicateName)
    else if !CodesDistinct(cmds) then Err(DuplicateCode)
    else Ok(cmds)
  }

  /**
    An installed table has one valid command per DTO, with the DTO's name
    as written, and no two commands share a name (ignoring case) or a code;
    a DTO that fails to convert is reported before any duplicate.
  */
  lemma CommandTableValid(dtos: seq<CommandDto>)
    ensures var r := CommandTable(dtos);
            r.Ok? ==> |r.value| == |dtos| && NamesDistinct(r.value) && CodesDistinct(r.value) &&
                      forall k | 0 <= k < |dtos| :: ValidCommand(r.value[k]) && r.value[k].name == dtos[k].name
    ensures var r := CommandTable(dtos);
            r.Err? && r.error in {DuplicateName, DuplicateCode} ==> forall k | 0 <= k < |dtos| :: NewCommand(dtos[k]).Ok?
  {
    ConvertAllSucceeds(dtos);
    ConvertAllFirstError(dtos);
    var r := CommandTable(dtos);
    if r.Ok? {
      var cmds := ConvertAll(dtos).value;
      forall k | 0 <= k < |dtos| ensures ValidCommand(cmds[k]) && cmds[k].name == dtos[k].name {
        assert NewCommand(dtos[k]) == Ok(cmds[k]);
      }
    }
  }

  /** The default table passes the checks `SetAvailibleCommands` makes. */
  lemma DefaultCommandsValid()
    ensures NamesDistinct(DefaultCommands) && CodesDistinct(DefaultCommands)
    ensures forall k | 0 <= k < |DefaultCommands| :: ValidCommand(DefaultCommands[k])
  {
    DefaultNamesUpper();
    DefaultNamesDistinct();
    DefaultCodesDistinct();
  }

  lemma DefaultNamesDistinct()
    ensures forall i, j | 0 <= i < j < |DefaultCommands| :: DefaultCommands[i].name != DefaultCommands[j].name
  {
    assert "LOADR1"[5] != "LOADR2"[5];
  }

  lemma DefaultCodesDistinct()
    ensures CodesDistinct(DefaultCommands)
  {
    assert forall k | 0 <= k < |DefaultCommands| :: DefaultCommands[k].code == k + 1;
  }

  /** The default names are already upper case and valid. */
  lemma DefaultNamesUpper()
    ensures forall k | 0 <= k < |DefaultCommands| ::
              Upper(DefaultCommands[k].name) == DefaultCommands[k].name && ValidCommand(DefaultCommands[k])
  {
    forall k | 0 <= k < |DefaultCommands|
      ensures Upper(DefaultCommands[k].name) == DefaultCommands[k].name && ValidCommand(DefaultCommands[k])
    {
      var name := DefaultCommands[k].name;
      if k == 0 {
        assert name == "JMP";
      } else if k == 1 {
        assert name == "LOADR1";
      } else if k == 2 {
        assert name == "LOADR2";
      } else if k == 3 {
        assert name == "ADD";
      } else if k == 4 {
        assert name == "SAVER1";
      } else {
        assert name == "INT";
      }
      UpperCaseName(name);
    }
  }

  lemma UpperCaseName(name: string)
    requires |name| > 0 && 'A' <= name[0] <= 'Z'
    requires forall i | 0 <= i < |name| :: 'A' <= name[i] <= 'Z' || '0' <= name[i] <= '9'
    ensures Upper(name) == name && IsValidName(name) && IsLatinLetter(name[0])
  {
    UpperOfUpper(name);
  }

  /** `All(x => nhs.Add(x.Name.ToUpper()))`: stops at the first name already seen. */
  method AllNamesUnique(cmds: seq<Command>) returns (unique: bool)
    ensures unique == NamesDistinct(cmds)
  {
    var seen: set<string> := {};
    for i := 0 to |cmds|
      invariant seen == set k | 0 <= k < i :: Upper(cmds[k].name)
      invariant NamesDistinct(cmds[..i])
    {
      var name := Upper(cmds[i].name);
      if name in seen {
        var k :| 0 <= k < i && Upper(cmds[k].name) == name;
        return false;
      }
      seen := seen + {name};
    }
    assert cmds[..|cmds|] == cmds;
    return true;
  }

  /** `All(x => chs.Add(x.Code))`: stops at the first code already seen. */
  method AllCodesUnique(cmds: seq<Command>) returns (unique: bool)
    ensures unique == CodesDistinct(cmds)
  {
    var seen: set<int> := {};
    for i := 0 to |cmds|
      invariant seen == set k | 0 <= k < i :: cmds[k].code
      invariant CodesDistinct(cmds[..i])
    {
      var code := cmds[i].code;
      if code in seen {
        var k :| 0 <= k < i && cmds[k].code == code;
        return false;
      }
      seen := seen + {code};
    }
    assert cmds[..|cmds|] == cmds;
    return true;
  }

  class Assembler {
    var ip: int
    var startAddress: int
    var endAddress: int
    /** `AvailibleCommands` */
    var commands: seq<Command>
    /** `TSI` */
    var tsi: seq<SymbolicName>

    constructor()
      ensures ip == 0 && startAddress == 0 && endAddress == 0
      ensures commands == DefaultCommands && tsi == []
    {
      ip := 0;
      startAddress := 0;
      endAddress := 0;
      commands := DefaultCommands;
      tsi := [];
    }

    /**
      `SetAvailibleCommands`: converts the DTOs, then checks name and code
      uniqueness; the table is replaced as a whole on success and left alone
      on any error.
    */
    method SetAvailibleCommands(dtos: seq<CommandDto>) returns (err: Option<Error>)
      modifies this
      ensures CommandTable(dtos).Ok? ==> err == None && commands == CommandTable(dtos).value
      ensures CommandTable(dtos).Err? ==> err == Some(CommandTable(dtos).error) && commands == old(commands)
      ensures ip == old(ip) && startAddress == old(startAddress) && endAddress == old(endAddress) && tsi == old(tsi)
    {
      var converted: seq<Command> := [];
      for i := 0 to |dtos|
        invariant ConvertAll(dtos[..i]) == Ok(converted)
        invariant commands == old(commands)
      {
        assert dtos[..i + 1][..i] == dtos[..i];
        match NewCommand(dtos[i])
        case Err(e) =>
          ConvertAllKeepError(dtos, i + 1);
          return Some(e);
        case Ok(c) =>
          converted := converted + [c];
      }
      assert dtos[..|dtos|] == dtos;
      var namesUnique := AllNamesUnique(converted);
      if !namesUnique {
        return Some(DuplicateName);
      }
      var codesUnique := AllCodesUnique(converted);
      if !codesUnique {
        return Some(DuplicateCode);
      }
      commands := converted;
      return None;
    }

    method ClearTSI()
      modifies this
      ensures tsi == []
      ensures ip == old(ip) && startAddress == old(startAddress) && endAddress == old(endAddress) && commands == old(commands)
    {
      tsi := [];
    }

    method PushToTSI(name: string, address: int)
      modifies this
      ensures tsi == old(tsi) + [SymbolicName(name, address)]
      ensures ip == old(ip) && startAddress == old(startAddress) && endAddress == old(endAddress) && commands == old(commands)
    {
      tsi := tsi + [SymbolicName(name, address)];
    }

    /** The pass state the fields and the locals of `FirstPass` make up. */
    function Snapshot(startFlag: bool, endFlag: bool, out: seq<string>): Pass1.State
      reads this
    {
      Pass1.State(ip, startAddress, endAddress, startFlag, endFlag, tsi, out)
    }

    /**
      One pass over one line, in place: classify it, reject a label already
      in the symbol table, record the label once START has been seen, then
      apply the line's effect to the counters, the flags and the output.
    */
    method ProcessLine(line: seq<string>, startFlag: bool, endFlag: bool, out: seq<string>)
      returns (err: Option<Error>, startAfter: bool, endAfter: bool, outAfter: seq<string>)
      modifies this
      ensures var o := Pass1.Step(commands, old(Snapshot(startFlag, endFlag, out)), line);
              Snapshot(startAfter, endAfter, outAfter) == o.state &&
              err == (if o.Done? then None else Some(o.error))
      ensures commands == old(commands)
    {
      err, startAfter, endAfter, outAfter := None, startFlag, endFlag, out;
      ghost var before := Snapshot(startFlag, endFlag, out);
      match GetCodeLineFromSource(commands, line)
      case Err(e) =>
        return Some(e), startAfter, endAfter, outAfter;
      case Ok(cl) =>
        if cl.labelName.Some? {
          if InTsi(tsi, cl.labelName.value) {
            return Some(DuplicateLabel), startAfter, endAfter, outAfter;
          } else if startFlag {
            PushToTSI(cl.labelName.value, ip);
          }
        }
        assert Snapshot(startFlag, endFlag, out) == Pass1.Record(before, cl);
        match Pass1.Translate(commands, Snapshot(startFlag, endFlag, out), cl)
        case Err(e) =>
          return Some(e), startAfter, endAfter, outAfter;
        case Ok(effect) =>
          startAfter, endAfter, outAfter := ApplyEffect(effect, startFlag, endFlag, out);
    }

    /** Applies what a line does to the counters, the flags and the output. */
    method ApplyEffect(effect: Pass1.Effect, startFlag: bool, endFlag: bool, out: seq<string>)
      returns (startAfter: bool, endAfter: bool, outAfter: seq<string>)
      modifies this
      ensures Snapshot(startAfter, endAfter, outAfter) == Pass1.Apply(old(Snapshot(startFlag, endFlag, out)), effect)
      ensures commands == old(commands)
    {
      startAfter, endAfter := startFlag, endFlag;
      match effect
      case Emit(text, size) =>
        ip := ip + size;
        outAfter := out + [text];
      case Begin(address, text) =>
        startAfter := true;
        ip := address;
        startAddress := address;
        outAfter := out + [text];
      case Finish(entry) =>
        endAddress := entry;
        endAfter := true;
        outAfter := out + [""];
    }

    /**
      `FirstPass`: resets the counters, then walks the lines, checking the
      START/END order and `ip` before each line and processing it in place.
      When it fails, the fields keep the values they had reached.
    */
    method FirstPass(lines: seq<seq<string>>) returns (r: Result<seq<string>>)
      modifies this
      ensures var o := Pass1.FirstPass(old(commands), old(tsi), lines);
              ip == o.state.ip && startAddress == o.state.start && endAddress == o.state.end &&
              tsi == o.state.tsi && r == (if o.Done? then Ok(o.state.out) else Err(o.error))
      ensures commands == old(commands)
    {
      var out: seq<string> := [];
      startAddress := 0;
      endAddress := 0;
      ip := 0;
      var startFlag := false;
      var endFlag := false;
      var i := 0;
      while i < |lines|
        invariant 0 <= i <= |lines|
        invariant commands == old(commands)
        invariant Pass1.FirstPass(commands, old(tsi), lines) ==
                  Pass1.Run(commands, Snapshot(startFlag, endFlag, out), lines[i..])
        decreases |lines| - i
      {
        if !startFlag && ip != 0 {
          return Err(MissingStart);
        }
        if startFlag && !InAddressRange(ip) {
          return Err(MemoryOverflow);
        }
        if endFlag {
          break;
        }
        var err;
        err, startFlag, endFlag, out := ProcessLine(lines[i], startFlag, endFlag, out);
        if err.Some? {
          return Err(err.value);
        }
        assert lines[i..][1..] == lines[i + 1..];
        i := i + 1;
      }
      if !endFlag {
        return Err(MissingEntryPoint);
      }
      return Ok(out);
    }

    /**
      `SecondPass`: one record per line, then the entry point checked
      against `startAddress`..`ip` and written as the E record. It reads the
      counters the last first pass left and changes nothing.
    */
    method SecondPass(lines: seq<seq<string>>) returns (r: Result<seq<string>>)
      ensures r == Pass2.SecondPass(tsi, ip, startAddress, endAddress, lines)
    {
      var out: seq<string> := [];
      for i := 0 to |lines|
        invariant Pass2.Records(Pass2.Translator(tsi, ip, startAddress), lines[..i]) == Ok(out)
      {
        var record := Pass2.LineRecord(tsi, ip, startAddress, i, lines[i]);
        Pass2.RecordsExtend(Pass2.Translator(tsi, ip, startAddress), lines, i);
        if record.Err? {
          Pass2.RecordsKeepError(Pass2.Translator(tsi, ip, startAddress), lines, i + 1);
          return Err(record.error);
        }
        out := out + [record.value];
      }
      assert lines[..|lines|] == lines;
      if endAddress < startAddress || endAddress > ip {
        return Err(InvalidEntryPoint);
      }
      return Ok(out + ["E " + FormatHex(endAddress, 6)]);
    }
  }

  // ---------------------------------------------------------------------------
  // Worked examples

  lemma HexColumns()
    ensures FormatHex(0x100, 6) == "000100" && FormatHex(64, 6) == "000040"
    ensures FormatHex(0x103, 6) == "000103" && FormatHex(0x107, 6) == "000107"
  {
    assert HexString(0x100) == "100";
    assert HexString(64) == "40";
    assert HexString(0x103) == "103";
    assert HexString(0x107) == "107";
  }

  lemma HexBytes()
    ensures FormatHex(5, 2) == "05" && FormatHex(2, 2) == "02"
    ensures AsciiHex("HI") == "4849"
  {
    assert HexString(5) == "5";
    assert HexString(2) == "2";
    assert HexString(72) == "48";
    assert HexString(73) == "49";
    assert "HI"[..1] == "H";
    assert AsciiHex("H") == "48";
  }

  /** `WORD 64` at 0x100: the first pass writes `000100 WORD 000040` and allocates three bytes. */
  lemma WordExample(tsi: seq<SymbolicName>)
    ensures Pass1.TranslateWord(Pass1.State(0x100, 0x100, 0, true, false, tsi, []), CodeLine(None, "WORD", Some("64"), None)) ==
              Ok(Pass1.Emit("000100 WORD 000040", 3))
  {
    SixtyFour();
    HexColumns();
    assert Pass1.Address(0x100) + " " + "WORD" + " " + FormatHex(64, 6) == "000100 WORD 000040";
  }

  /** The second pass turns `000100 WORD 000040` into `T 000100 03 000040`. */
  lemma WordRecordExample(tsi: seq<SymbolicName>, ip: int, start: int)
    ensures Pass2.LineRecord(tsi, ip, start, 1, ["000100", "WORD", "000040"]) == Ok("T 000100 03 000040")
  {
    HexColumns();
    assert ["000100", "WORD", "000040"] == [FormatHex(0x100, 6), "WORD", "000040"];
    assert Upper("WORD") == "WORD";
    Pass2.WordRecord(tsi, ip, start, 1, 0x100, "WORD", "000040");
    WordText();
  }

  lemma WordText()
    ensures Pass2.TRecord("000100", "03 " + "000040") == "T 000100 03 000040"
  {
    assert "03 " + "000040" == "03 000040";
  }

  lemma SixtyFour()
    ensures ParseDec("64") == Some(64)
  {
    assert AllDigits("64");
    assert "64"[..1] == "6";
    assert DecNat("6") == 6;
    assert DecNat("64") == 64;
  }

  lemma HiIsCString()
    ensures IsCString("C\"HI\"") && ParseDec("C\"HI\"").None?
  {
    var op := "C\"HI\"";
    assert |op| == 5 && op[0] == 'C' && op[1] == '"' && op[4] == '"';
    assert UpperChar(op[0]) == 'C';
    assert forall i | 1 <= i < |op| :: op[i] as int <= 127;
    assert !IsDigitChar(op[0]) && op[0] != '-';
  }

  lemma HiMeasured()
    ensures CSymbolsPass1("C\"HI\"") == "HI" && CSymbolsPass2("C\"HI\"") == "HI"
  {
    assert "C\"HI\"" == "C\"" + "HI" + "\"";
    UpperCaseCStringMeasuredAlike("HI");
  }

  /** `BYTE C"HI"` allocates two bytes, and the second pass writes their length and codes: `02 4849`. */
  lemma ByteExample(tsi: seq<SymbolicName>)
    ensures var o := Pass1.TranslateByte(Pass1.State(0x100, 0x100, 0, true, false, tsi, []),
                                         CodeLine(None, "BYTE", Some("C\"HI\""), None));
            o.Ok? && o.value.size == 2
    ensures Pass2.ByteBody(Some("C\"HI\"")) == Ok("02 4849")
  {
    HiAllocated(tsi);
    HiRecorded();
  }

  /**
    `BYTE C"""` allocates no byte in the first pass, yet the second pass
    writes one, the quote's code: `01 22`.
  */
  lemma QuoteExample()
    ensures Pass1.ByteSize("C\"\"\"") == Some(0)
    ensures Pass2.ByteBody(Some("C\"\"\"")) == Ok("01 22")
  {
    var op := "C\"\"\"";
    QuoteLiteralMeasuredApart();
    assert !IsDigitChar(op[0]) && !AllDigits(op);
    QuoteRecorded();
  }

  lemma QuoteRecorded()
    ensures Pass2.ByteBody(Some("C\"\"\"")) == Ok("01 22")
  {
    var op := "C\"\"\"";
    QuoteLiteralMeasuredApart();
    Pass2.QuotedNotHex(op);
    assert Pass2.ByteBody(Some(op)) == Ok(FormatHex(|"\""|, 2) + " " + AsciiHex("\""));
    QuoteBytes();
  }

  lemma QuoteBytes()
    ensures FormatHex(1, 2) + " " + AsciiHex("\"") == "01 22"
  {
    assert HexString(1) == "1" && HexString(34) == "22";
    assert AsciiHex("\"") == "22";
  }

  lemma HiAllocated(tsi: seq<SymbolicName>)
    ensures var o := Pass1.TranslateByte(Pass1.State(0x100, 0x100, 0, true, false, tsi, []),
                                         CodeLine(None, "BYTE", Some("C\"HI\""), None));
            o.Ok? && o.value.size == 2
  {
    var cl := CodeLine(None, "BYTE", Some("C\"HI\""), None);
    HiSize();
    assert InAddressRange(0x100 + 2);
    var o := Pass1.TranslateByte(Pass1.State(0x100, 0x100, 0, true, false, tsi, []), cl);
    assert o.Ok?;
    HiIsCString();
    HiMeasured();
    assert o.value.size == |CSymbolsPass1("C\"HI\"")|;
  }

  lemma HiSize()
    ensures Pass1.ByteSize("C\"HI\"") == Some(2)
  {
    HiIsCString();
    HiMeasured();
  }

  lemma HiRecorded()
    ensures Pass2.ByteBody(Some("C\"HI\"")) == Ok("02 4849")
  {
    var op := "C\"HI\"";
    HiIsCString();
    HiMeasured();
    Pass2.QuotedNotHex(op);
    assert Pass2.ByteBody(Some(op)) == Ok(FormatHex(|"HI"|, 2) + " " + AsciiHex("HI"));
    HexBytes();
    PayloadText();
  }

  lemma PayloadText()
    ensures "02" + " " + "4849" == "02 4849"
  {
  }

  /** `L1` is a label for the default table: no instruction or directive is called that, and it is no register. */
  lemma L1IsLabel()
    ensures IsLabel(DefaultCommands, "L1")
  {
    DefaultNamesUpper();
    assert Upper("L1") == "L1";
    forall k | 0 <= k < |DefaultCommands| ensures Upper(DefaultCommands[k].name) != "L1" {
      assert DefaultCommands[k].name[0] != 'L' || |DefaultCommands[k].name| != 2;
    }
  }

  /** `JMP L1` at 0x103: the first pass writes `000103 05 L1` (opcode 1, mode 1) and allocates four bytes. */
  lemma JumpExample()
    ensures Pass1.TranslateCommand(DefaultCommands, Pass1.State(0x103, 0x100, 0, true, false, [], []),
                                   CodeLine(None, "JMP", Some("L1"), None), DefaultCommands[0]) ==
              Ok(Pass1.Emit("000103 05 L1", 4))
  {
    L1IsLabel();
    HexColumns();
    HexBytes();
    assert Pass1.Address(0x103) + " " + FormatHex(1 * 4 + 1, 2) + " " + "L1" == "000103 05 L1";
  }

  lemma L1Found()
    ensures FindSymbol([SymbolicName("L1", 0x107)], "L1") == Some(SymbolicName("L1", 0x107))
  {
    assert Upper("L1") == "L1";
  }

  /** With L1 at 0x107, the second pass turns `000103 05 L1` into `T 000103 04 05000107`. */
  lemma JumpRecordExample(ip: int, start: int)
    ensures Pass2.LineRecord([SymbolicName("L1", 0x107)], ip, start, 1, ["000103", "05", "L1"]) ==
              Ok("T 000103 04 05000107")
  {
    var tsi := [SymbolicName("L1", 0x107)];
    var general := [FormatHex(0x103, 6), FormatHex(1 * 4 + 1, 2), "L1"];
    assert Pass2.LineRecord(tsi, ip, start, 1, general) ==
             Ok(Pass2.TRecord(FormatHex(0x103, 6), "04 " + FormatHex(1 * 4 + 1, 2) + FormatHex(0x107, 6))) by {
      L1Found();
      Pass2.LabelOperandResolved(tsi, ip, start, 1, 0x103, 1, "L1");
    }
    assert FormatHex(0x103, 6) == "000103" && FormatHex(1 * 4 + 1, 2) == "05" && FormatHex(0x107, 6) == "000107" by {
      HexColumns();
      HexBytes();
    }
    assert general == ["000103", "05", "L1"];
    JumpText();
  }

  lemma JumpText()
    ensures Pass2.TRecord("000103", "04 " + "05" + "000107") == "T 000103 04 05000107"
  {
    assert "04 " + "05" + "000107" == "04 05000107";
  }
}
