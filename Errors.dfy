/**
  Error results of the assembler. Every `AssemblerException` the C# code throws
  becomes an `Err` carrying one of the kinds below (the message text is not
  modelled); `Failure` stands for exceptions of other types (a format error of
  the runtime's number parser, an index out of range).
*/
module Errors {

  datatype Option<+T> = None | Some(value: T)

  datatype Error =
    // table set-up and instruction definitions
    | BadLineFormat        // instruction-table line without exactly three tokens
    | EmptyName            // command name without characters
    | NameStart            // command name not starting with a Latin letter
    | NameChars            // command name with a character other than a Latin letter or digit
    | CodeFormat           // command code not a hexadecimal integer
    | CodeRange            // command code outside 0..63
    | LengthFormat         // command length not a hexadecimal integer
    | LengthRange          // command length other than 1, 2 or 4
    | DuplicateName        // two command names equal ignoring case
    | DuplicateCode        // two command codes equal
    // classification
    | MalformedLine        // no grammar rule of the classifier applies
    // first pass
    | MissingStart         // code before START
    | DuplicateStart       // START not first, or repeated
    | MissingOperand       // an operand the directive or instruction needs is absent
    | ExtraOperand         // more operands than the directive or instruction takes
    | NotANumber           // operand that the decimal parser rejects
    | OutOfRange           // operand value outside the allowed range
    | ZeroStart            // START 0
    | StartWithoutLabel    // START without a program name
    | EndWithoutStart      // END before START
    | DuplicateEnd         // second END
    | DuplicateLabel       // label already in the symbol table
    | MemoryOverflow       // address outside 0..16777215
    | InvalidOperand       // operand of the wrong shape
    | ExpectedRegisters    // two operands that are not both registers
    | UnknownCommand       // neither a directive nor an instruction
    | MissingEntryPoint    // no END
    // second pass
    | EmptyOperand         // instruction operand absent
    | UndefinedSymbol      // label not in the symbol table
    | UnknownAddressingMode
    | InvalidEntryPoint    // END address outside startAddress..ip
    // exceptions that are not assembler exceptions
    | Failure

  datatype Result<+T> = Ok(value: T) | Err(error: Error) {
    predicate IsFailure() { Err? }

    function PropagateFailure<U>(): Result<U>
      requires Err?
    {
      Err(error)
    }

    function Extract(): T
      requires Ok?
    {
      value
    }
  }
}
