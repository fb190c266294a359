/** The assembler's symbol table: a mutable map from names to addresses,
    seeded with the reserved names of the Hack platform. */
module Symbols {
  import opened Results

  /** Name of general-purpose register k, "R0" .. "R15". */
  function RegisterName(k: nat): string
    requires k < 16
  {
    if k < 10 then ['R', ('0' as int + k) as char]
    else ['R', '1', ('0' as int + k - 10) as char]
  }

  /** The 23 bindings the table starts with. */
  function ReservedSymbols(): map<string, int> {
    map[
      "SP" := 0, "LCL" := 1, "ARG" := 2, "THIS" := 3, "THAT" := 4,
      "R0" := 0, "R1" := 1, "R2" := 2, "R3" := 3, "R4" := 4, "R5" := 5,
      "R6" := 6, "R7" := 7, "R8" := 8, "R9" := 9, "R10" := 10, "R11" := 11,
      "R12" := 12, "R13" := 13, "R14" := 14, "R15" := 15,
      "SCREEN" := 16384, "KBD" := 24576]
  }

  /** The reserved names are exactly the sixteen registers R0..R15 bound to
      their own number, the segment bases SP, LCL, ARG, THIS, THAT bound to 0..4,
      and the memory-mapped SCREEN and KBD. */
  lemma ReservedSymbolsLayout()
    ensures forall k :: 0 <= k < 16 ==>
      RegisterName(k) in ReservedSymbols() && ReservedSymbols()[RegisterName(k)] == k
    ensures ReservedSymbols()["SP"] == 0 && ReservedSymbols()["LCL"] == 1
    ensures ReservedSymbols()["ARG"] == 2 && ReservedSymbols()["THIS"] == 3
    ensures ReservedSymbols()["THAT"] == 4
    ensures ReservedSymbols()["SCREEN"] == 0x4000 && ReservedSymbols()["KBD"] == 0x6000
  {
    forall k | 0 <= k < 16
      ensures RegisterName(k) in ReservedSymbols() && ReservedSymbols()[RegisterName(k)] == k
    {
      if k < 10 {
        LowRegister(k);
      } else {
        HighRegister(k);
      }
    }
  }

  lemma LowRegister(k: nat)
    requires k < 10
    ensures RegisterName(k) in ReservedSymbols() && ReservedSymbols()[RegisterName(k)] == k
  {
    if k == 0 { assert RegisterName(k) == "R0"; }
    else if k == 1 { assert RegisterName(k) == "R1"; }
    else if k == 2 { assert RegisterName(k) == "R2"; }
    else if k == 3 { assert RegisterName(k) == "R3"; }
    else if k == 4 { assert RegisterName(k) == "R4"; }
    else if k == 5 { assert RegisterName(k) == "R5"; }
    else if k == 6 { assert RegisterName(k) == "R6"; }
    else if k == 7 { assert RegisterName(k) == "R7"; }
    else if k == 8 { assert RegisterName(k) == "R8"; }
    else { assert RegisterName(k) == "R9"; }
  }

  lemma HighRegister(k: nat)
    requires 10 <= k < 16
    ensures RegisterName(k) in ReservedSymbols() && ReservedSymbols()[RegisterName(k)] == k
  {
    if k == 10 { assert RegisterName(k) == "R10"; }
    else if k == 11 { assert RegisterName(k) == "R11"; }
    else if k == 12 { assert RegisterName(k) == "R12"; }
    else if k == 13 { assert RegisterName(k) == "R13"; }
    else if k == 14 { assert RegisterName(k) == "R14"; }
    else { assert RegisterName(k) == "R15"; }
  }

  /** Lookup-or-fail on a table value: the failure names the missing symbol. */
  function Lookup(table: map<string, int>, symbol: string): (r: Result<int>)
    ensures r.Ok? <==> symbol in table
    ensures r.Ok? ==> r.value == table[symbol]
    ensures r.Err? ==> r.error == SymbolNotFound(symbol)
  {
    if symbol in table then Ok(table[symbol]) else Err(SymbolNotFound(symbol))
  }

  class SymbolTable {
    var symbols: map<string, int>

    /** A new table holds exactly the reserved bindings, added one by one
        (`InitDefaultSymbols`). */
    constructor ()
      ensures symbols == ReservedSymbols()
    {
      var m: map<string, int> := map[];
      m := m["SP" := 0];
      m := m["LCL" := 1];
      m := m["ARG" := 2];
      m := m["THIS" := 3];
      m := m["THAT" := 4];
      m := m["R0" := 0];
      m := m["R1" := 1];
      m := m["R2" := 2];
      m := m["R3" := 3];
      m := m["R4" := 4];
      m := m["R5" := 5];
      m := m["R6" := 6];
      m := m["R7" := 7];
      m := m["R8" := 8];
      m := m["R9" := 9];
      m := m["R10" := 10];
      m := m["R11" := 11];
      m := m["R12" := 12];
      m := m["R13" := 13];
      m := m["R14" := 14];
      m := m["R15" := 15];
      m := m["SCREEN" := 16384];
      m := m["KBD" := 24576];
      symbols := m;
    }

    /** Insert or overwrite: afterwards `symbol` is bound to `address`, every
        other binding is as before, and no name is lost. */
    method AddEntry(symbol: string, address: int)
      modifies this
      ensures symbols == old(symbols)[symbol := address]
      ensures Contains(symbol) && GetAddress(symbol) == Ok(address)
      ensures symbols.Keys == old(symbols.Keys) + {symbol}
      ensures forall other :: other != symbol ==> GetAddress(other) == old(GetAddress(other))
      ensures old(GetAddress(symbol)) == Ok(address) ==> symbols == old(symbols)
    {
      symbols := symbols[symbol := address];
    }

    function Contains(symbol: string): (b: bool)
      reads this
      ensures b <==> Lookup(symbols, symbol).Ok?
    {
      symbol in symbols
    }

    /** Fails exactly for the names the table does not contain. */
    function GetAddress(symbol: string): (r: Result<int>)
      reads this
      ensures r.Err? <==> !Contains(symbol)
      ensures r.Ok? ==> r.value == symbols[symbol]
    {
      Lookup(symbols, symbol)
    }
  }
}
