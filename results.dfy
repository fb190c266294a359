/** Failures of the assembler. Every exception the assembler can raise becomes
    an `Error` value carried by `Result`; a failed step aborts the run. */
module Results {

  /** Which of the three C-command mapping tables a lookup went to. */
  datatype Field = Comp | Dest | Jump

  datatype Error =
    | SymbolNotFound(symbol: string)           // SymbolTable.GetAddress on an unbound name
    | IndexOutOfRange                          // string indexing past the end
    | SubstringOutOfRange(start: int, length: int)  // String.Substring with a bad range
    | UnknownMnemonic(field: Field, text: string)   // key missing from a mapping table
    | Overflow(value: int)                     // Convert.ToInt16 outside -32768..32767
    | BitArrayTooLong                          // GetIntFromBitArray on more than 16 bits

  datatype Result<+T> = Ok(value: T) | Err(error: Error) {
    predicate IsFailure() { Err? }

    function PropagateFailure<U>(): Result<U>
      requires Err?
    {
      Err(error)
    }

    function Extract(): T
      requires Ok?
    {
      value
    }
  }
}
