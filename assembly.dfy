/** The two passes together: pass 1 fills a fresh symbol table with the
    labels, pass 2 normalises the instructions and the translator encodes
    them against that table, allocating variables from address 16. */
module Assembly {
  import opened Results
  import opened Text
  import opened Symbols
  import opened Parsing
  import opened Translation

  /** The state the translator starts from after pass 1 on a fresh table. */
  function StartState(lines: seq<string>): TranslatorState {
    TranslatorState(LabelTable(lines, ReservedSymbols()), 16)
  }

  /** The names the source declares as labels. */
  function LabelDeclarations(lines: seq<string>): set<string> {
    set k | 0 <= k < |lines| && IsDeclarationLine(lines[k]) :: DeclaredName(lines[k])
  }

  /** The whole assembly of a source text. */
  function Assemble(lines: seq<string>): Translated {
    Translate(Instructions(lines), StartState(lines))
  }

  /** One symbol table shared by a parser and a translator, as their
      constructors are built for: the translator sees the labels pass 1
      bound and allocates its variables in the same table. */
  method AssembleLines(lines: seq<string>) returns (r: Result<seq<seq<byte>>>)
    ensures r == Output(Assemble(lines))
  {
    var table := new SymbolTable();
    var parser := new Parser(table);
    var instructions := parser.Parse(lines);
    var translator := new Translator(table);
    r := translator.ConvertInstructionsToBinary(instructions);
  }

  /** Pass 1 and pass 2 agree: a reference to a label declared (last) at line
      j emits the number of instructions before line j, which is the index
      of the instruction that follows the declaration.  This holds for an
      upper-case label (an L-command) and for any other non-numeric one (an
      A-command whose name the table already holds). */
  lemma LabelReference(lines: seq<string>, x: string, j: nat, i: nat)
    requires j < |lines| && IsDeclarationLine(lines[j]) && DeclaredName(lines[j]) == x
    requires forall k :: j < k < |lines| && IsDeclarationLine(lines[k]) ==> DeclaredName(lines[k]) != x
    requires x != [] && !AllDigits(x)
    requires i < |Instructions(lines)| && Instructions(lines)[i] == "@" + x
    requires Assemble(lines).words.Ok?
    ensures |Assemble(lines).words.value| == |Instructions(lines)|
      && Assemble(lines).words.value[i] == InstructionCount(lines[..j])
  {
    var items := Instructions(lines);
    var st := StartState(lines);
    var t := Translate(items, st);
    LabelBinding(lines, ReservedSymbols(), x, j);
    TranslatePreservesBindings(items, st);
    TranslateWords(items, st);
    var item := items[i];
    assert item[1..] == x && item[0] == '@';
    assert IsVariable(item) by {
      assert StartsWith(item, "@");
    }
    assert Encodes(item, t.state.table, t.words.value[i]);
  }

  /** Variables are numbered from 16 in order of first use, skipping names
      that are labels or reserved; those keep their addresses. */
  lemma VariablesFromSixteen(lines: seq<string>)
    requires Assemble(lines).words.Ok?
    ensures var d := NewVariables(Instructions(lines), StartState(lines).table.Keys);
      Assemble(lines).state.variableBaseAddress == 16 + |d|
      && (forall k :: 0 <= k < |d| ==>
            d[k] !in ReservedSymbols() && d[k] in Assemble(lines).state.table
            && Assemble(lines).state.table[d[k]] == 16 + k)
      && forall name :: name in ReservedSymbols() && name !in LabelDeclarations(lines) ==>
        name in Assemble(lines).state.table && Assemble(lines).state.table[name] == ReservedSymbols()[name]
  {
    var items := Instructions(lines);
    var st := StartState(lines);
    TranslateAllocates(items, st);
    TranslatePreservesBindings(items, st);
    NewVariablesDistinct(items, st.table.Keys);
    LabelTableGrows(lines, ReservedSymbols());
    forall name | name in ReservedSymbols() && name !in LabelDeclarations(lines)
      ensures name in st.table && st.table[name] == ReservedSymbols()[name]
    {
      LabelTableUndeclared(lines, ReservedSymbols(), name);
    }
  }

  /** Lines that pass through pass 2 unchanged. */
  predicate PlainLine(line: string) {
    line != [] && line[0] != '(' && IsTrimmed(line) && forall k :: 0 <= k < |line| ==> line[k] != '/'
  }

  /** Every line is plain. */
  predicate AllPlain(lines: seq<string>) {
    lines == [] || (AllPlain(lines[..|lines| - 1]) && PlainLine(lines[|lines| - 1]))
  }

  /** Plain lines come out of pass 2 as they are. */
  lemma {:induction false} PlainLines(lines: seq<string>)
    requires AllPlain(lines)
    ensures Instructions(lines) == lines
  {
    if lines != [] {
      var prefix, last := lines[..|lines| - 1], lines[|lines| - 1];
      PlainLines(prefix);
      PlainLineAppended(prefix, last);
      assert prefix + [last] == lines;
    }
  }

  /** Appending a plain line appends it to pass 2's output. */
  lemma PlainLineAppended(prefix: seq<string>, last: string)
    requires PlainLine(last)
    ensures Instructions(prefix + [last]) == Instructions(prefix) + [last]
  {
    PlainInstructionLine(last);
    assert (prefix + [last])[..|prefix|] == prefix;
  }

  const AddSource: seq<string> := ["// Computes R0 = 2 + 3", "", "@2", "D=A", "@3", "D=D+A", "@0", "M=D"]
  const AddInstructions: seq<string> := ["@2", "D=A", "@3", "D=D+A", "@0", "M=D"]

  /** Pass 1 binds nothing and pass 2 drops the comment and the blank line. */
  lemma AddProgramPasses()
    ensures Instructions(AddSource) == AddInstructions
    ensures StartState(AddSource) == TranslatorState(ReservedSymbols(), 16)
  {
    AddProgramInstructions();
    AddProgramUndeclared();
    LabelTableWithoutDeclarations(AddSource, ReservedSymbols());
  }

  /** Pass 2 keeps the six instruction lines as they are. */
  lemma AddProgramInstructions()
    ensures Instructions(AddSource) == AddInstructions
  {
    var head, tail := AddSource[..2], AddSource[2..];
    assert AddSource == head + tail;
    assert tail == AddInstructions;
    InstructionsAppend(head, tail);
    AddHeaderSkipped();
    AddInstructionsPlain();
    PlainLines(tail);
  }

  /** No line of the program declares a label. */
  lemma AddProgramUndeclared()
    ensures forall k :: 0 <= k < |AddSource| ==> !IsDeclarationLine(AddSource[k])
  {
    forall k | 0 <= k < |AddSource|
      ensures !IsSymbolDeclaration(AddSource[k])
    {
      assert AddSource[k] != [] ==> AddSource[k][0] != '(';
    }
  }

  /** The program's comment line and blank line are skipped. */
  lemma AddHeaderSkipped()
    ensures Instructions(AddSource[..2]) == []
    ensures IsSkippedLine(AddSource[0]) && IsSkippedLine(AddSource[1])
  {
    var head := AddSource[..2];
    assert IsCommentLine(head[0]) by {
      assert head[0][..2] == "//";
    }
    assert IsEmptyLine(head[1]);
    assert head[..1][..0] == [];
    assert Instructions(head[..1]) == [];
    assert head[..1] == head[..|head| - 1];
  }

  /** The program's instructions are plain lines. */
  lemma AddInstructionsPlain()
    ensures AllPlain(AddInstructions)
  {
    assert forall k :: 0 <= k < |AddInstructions| ==> PlainLine(AddInstructions[k]);
    PlainEach(AddInstructions);
  }

  /** Lines that are plain one by one are all plain. */
  lemma {:induction false} PlainEach(lines: seq<string>)
    requires forall k :: 0 <= k < |lines| ==> PlainLine(lines[k])
    ensures AllPlain(lines)
  {
    if lines != [] {
      var prefix := lines[..|lines| - 1];
      assert forall k :: 0 <= k < |prefix| ==> prefix[k] == lines[k];
      PlainEach(prefix);
    }
  }

  /** The textbook's first program, adding 2 and 3 into RAM[0], assembles to
      the words the textbook lists. */
  lemma AddProgram()
    ensures Assemble(AddSource).words == Ok(AddWords)
  {
    AddProgramPasses();
    AddProgramWords(StartState(AddSource));
  }

  const AddWords: seq<int> := [2, 0xEC10, 3, 0xE090, 0, 0xE308]

  /** The program names no symbol, so it encodes the same from any state. */
  lemma AddProgramWords(st: TranslatorState)
    ensures Translate(AddInstructions, st) == Translated(Ok(AddWords), st)
  {
    forall i | 0 <= i < |AddInstructions|
      ensures Step(AddInstructions[i], st) == Emitted(Ok(AddWords[i]), st)
    {
      AddProgramStep(st, i);
    }
    SilentRun(AddInstructions, AddWords, st);
  }

  /** Each instruction of the program on its own. */
  lemma AddProgramStep(st: TranslatorState, i: nat)
    requires i < |AddInstructions|
    ensures Step(AddInstructions[i], st) == Emitted(Ok(AddWords[i]), st)
  {
    if i == 0 {
      SingleDigitStep('2', st);
    } else if i == 1 {
      StepDEqualsA(st);
    } else if i == 2 {
      SingleDigitStep('3', st);
    } else if i == 3 {
      StepDEqualsDPlusA(st);
    } else if i == 4 {
      SingleDigitStep('0', st);
    } else {
      StepMEqualsD(st);
    }
  }

  /** Instructions that each emit a word and leave the state alone emit
      those words in order. */
  lemma {:induction false} SilentRun(items: seq<string>, words: seq<int>, st: TranslatorState)
    requires |items| == |words|
    requires forall i :: 0 <= i < |items| ==> Step(items[i], st) == Emitted(Ok(words[i]), st)
    ensures Translate(items, st) == Translated(Ok(words), st)
  {
    if items != [] {
      SilentRun(items[1..], words[1..], st);
      assert [words[0]] + words[1..] == words;
    }
  }

  /** The codes the program's C-commands use. */
  lemma AddProgramCodes()
    ensures BigEndianValue(CompCmdMapping["A"]) == 48
    ensures BigEndianValue(CompCmdMapping["D+A"]) == 2
    ensures BigEndianValue(CompCmdMapping["D"]) == 12
    ensures BigEndianValue(DestCmdMapping["M"]) == 1
    ensures BigEndianValue(DestCmdMapping["D"]) == 2
  {
    BigEndianOfSeven(CompCmdMapping["A"]);
    BigEndianOfSeven(CompCmdMapping["D+A"]);
    BigEndianOfSeven(CompCmdMapping["D"]);
    BigEndianOfThree(DestCmdMapping["M"]);
    BigEndianOfThree(DestCmdMapping["D"]);
  }

  lemma AddProgramTexts()
    ensures "D" + "=" + "A" == "D=A" && "D" + "=" + "D+A" == "D=D+A" && "M" + "=" + "D" == "M=D"
  {
  }

  lemma StepDEqualsA(st: TranslatorState)
    ensures Step("D=A", st) == Emitted(Ok(0xEC10), st)
  {
    AddProgramCodes();
    DestCompStep("D", "A", st);
    AddProgramTexts();
  }

  lemma StepDEqualsDPlusA(st: TranslatorState)
    ensures Step("D=D+A", st) == Emitted(Ok(0xE090), st)
  {
    AddProgramCodes();
    DestCompStep("D", "D+A", st);
    AddProgramTexts();
  }

  lemma StepMEqualsD(st: TranslatorState)
    ensures Step("M=D", st) == Emitted(Ok(0xE308), st)
  {
    AddProgramCodes();
    DestCompStep("M", "D", st);
    AddProgramTexts();
  }

  /** `@d` for a single digit d is the literal d and changes nothing. */
  lemma SingleDigitStep(d: char, st: TranslatorState)
    requires '0' <= d <= '9'
    ensures Step(['@', d], st) == Emitted(Ok(d as int - '0' as int), st)
  {
    var item := ['@', d];
    assert item[1..] == [d];
    assert CommandTypeIs(item) == Ok(A);
    assert AllDigits([d]) && !IsVariable(item);
    assert DecimalValue([d]) == d as int - '0' as int by {
      assert [d][..0] == [];
    }
    assert ParseInt16([d]) == Ok(d as int - '0' as int);
    assert Step(item, st) == ACmdStep(item, st);
  }

  /** `dest=comp` is a C-command and changes nothing. */
  lemma DestCompStep(dest: string, comp: string, st: TranslatorState)
    requires IsPlainField(dest) && IsPlainField(comp) && dest != []
    requires dest in DestCmdMapping && comp in CompCmdMapping
    ensures Step(dest + "=" + comp, st)
      == Emitted(Ok(0xE000 + BigEndianValue(CompCmdMapping[comp]) * 64 + BigEndianValue(DestCmdMapping[dest]) * 8), st)
  {
    var item := dest + "=" + comp;
    assert item[0] == dest[0];
    assert CommandTypeIs(item) == Ok(C);
    assert Step(item, st) == Emitted(ConvertCCmd(item), st);
    DestCompCommand(dest, comp);
  }
}
