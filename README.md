# Hack assembler core in Dafny

This project models the core of a two-pass assembler for the Hack machine
language, the 16-bit computer of *The Elements of Computing Systems*
(Nisan and Schocken). Section 4.2 of that book defines the instruction
format and section 6.2 defines the translation rules. The model covers
the assembler's three core classes:

- **SymbolTable** (`symbol_table.dfy`, module `Symbols`). A class holding a
  `map<string, int>`. It is seeded with the 23 reserved names (`SP`, `LCL`,
  `ARG`, `THIS`, `THAT`, `R0`..`R15`, `SCREEN`, `KBD`). It supports
  insert-or-overwrite (`AddEntry`), membership (`Contains`) and
  lookup-or-fail (`GetAddress`).
- **Parser** (`parser.dfy`, module `Parsing`). A class whose `FirstPass`
  binds each `(LABEL)` declaration to the number of instruction lines
  before it. Its `SecondPass` drops blank, comment and declaration lines,
  strips trailing `//` comments and trims what is left. Its static helpers
  classify a command as A, C or L and split a C-command into its dest,
  comp and jump text.
- **Translator** (`translator.dfy`, module `Translation`). A class whose
  `ConvertInstructionsToBinary` turns each instruction into one 16-bit word,
  stored as two little-endian bytes:
  - A-commands take a literal, or a name that gets allocated an address
    from 16 upwards when it is new.
  - L-commands (`@` followed by an upper-case letter) are only looked up.
  - C-commands are `111`, then the comp code (7 bits), the dest code
    (3 bits) and the jump code (3 bits), taken from three fixed tables.

Two more modules support these:

- `results.dfy` (module `Results`) gives the `Result` type that stands for
  the exceptions.
- `text.dfy` (module `Text`) gives the few .NET string operations the code
  relies on: `IndexOf`, `StartsWith`, `Trim`, and digit, upper-case and
  white-space tests.

`assembly.dfy` (module `Assembly`) puts the classes together the way their
constructors are designed to be used: one `SymbolTable`, shared by a
`Parser` and then a `Translator`. No caller in the files shown does this.
`Program.cs` calls a `Parser.ParseFile` that `Parser.cs` does not define.

Each method that changes state is specified by a function:

- `FirstPass` by `LabelTable`;
- `SecondPass` by `Instructions`;
- `ConvertInstructionsToBinary` and `ConvertACmd` by `Translate` and
  `ACmdStep`, over a `TranslatorState` (the table plus the next free
  variable address).

The lemmas next to those functions state what the source promises.

Exceptions become `Err` values of `Results.Error`:

- a missing symbol;
- an index or `Substring` out of range;
- an unknown mnemonic;
- an `Int16` overflow;
- a bit array that is too long.

A run that throws becomes a run that returns `Err`. The state it leaves
behind is the state at the point of the throw. For example, a variable
allocated just before `Convert.ToInt16` fails stays allocated.

## Quirks of the code, modelled as written

Each of these is behaviour of the code itself, and the model keeps it.

- **Comp field.** `GetCompCmd` passes the index of `;` to `Substring` as a
  length, not as an end (`Parser.cs:158`). So with both `=` and `;`
  present, the comp text is not the text between them.
  - `D=D+1;JGT` yields `D+1;J`.
  - Any command with `=` before `;` fails to encode, either out of range or
    as an unknown comp mnemonic.
  - `CompOfFullCommand` and `DestAndJumpTogetherFail` state this.
- **Empty comp.** The comp table has no `""` key, although the dest and
  jump tables do (`Translator.cs:182-209`). So a C-command with an empty
  comp part, such as `D=`, fails as an unknown comp mnemonic.
- **Upper-case operands.** An operand starting with an upper-case letter is
  an L-command. It is resolved through the table only and never allocated,
  so an undeclared one fails (`Parser.cs:119-132`,
  `Translator.cs:103-106`).
- **Literal overflow.** A literal A-operand above 32767 fails, because
  `Convert.ToInt16` throws (`Translator.cs:69`).
- **Raw-line classification.** Blank, comment and declaration detection look
  at the raw, untrimmed line.
  - An indented comment is emitted as an (empty after stripping) instruction.
  - An indented or commented declaration is kept as an instruction.
  - `RawLineClassification` states this.

## Model

| member | source | states |
|---|---|---|
| `Symbols.ReservedSymbolsLayout` | SymbolTable.cs:14-39 | `R0`..`R15` are bound to 0..15, `SP`, `LCL`, `ARG`, `THIS`, `THAT` to 0..4, `SCREEN` to 16384 and `KBD` to 24576 |
| `Symbols.Lookup` | SymbolTable.cs:51-60 | lookup succeeds exactly for present names, returns their binding, and otherwise fails naming the symbol |
| `Symbols.SymbolTable.constructor` | SymbolTable.cs:8-39 | a new table holds exactly the reserved bindings |
| `Symbols.SymbolTable.AddEntry` | SymbolTable.cs:41-44 | insert or overwrite. Afterwards the name is contained and bound to the address. Every other name's lookup is unchanged. The key set grows by exactly that name. Repeating an existing binding leaves the table unchanged |
| `Symbols.SymbolTable.Contains` | SymbolTable.cs:46-49 | true exactly when lookup of the name succeeds |
| `Symbols.SymbolTable.GetAddress` | SymbolTable.cs:51-60 | fails exactly when `Contains` is false, and otherwise returns the bound address |
| `Text.IndexOf` | Parser.cs:109 | the first index at which the pattern occurs, or -1 exactly when it occurs nowhere |
| `Text.Trim` | Parser.cs:52 | the result has no white space at either end. It is the slice of the input that starts where `TrimStart` stops (`TrimStart`'s contract: only white space comes before that point), and only white space follows it |
| `Parsing.RawLineClassification` | Parser.cs:58-71 | classification looks at the raw line: on sample lines, an indented comment, an indented declaration and a declaration followed by a comment are all instruction lines |
| `Parsing.EmptyLineTrimsToNothing` | Parser.cs:58-61 | `IsEmptyLine` (`IsNullOrWhiteSpace`) holds exactly when trimming the line leaves nothing |
| `Parsing.CommentLineMarker` | Parser.cs:63-66 | `IsCommentLine` holds exactly when the line's first `//` is at index 0 |
| `Parsing.SymbolDeclarationBinds` | Parser.cs:68-71 | a line that starts with `(` and ends with `)` is a declaration line of the first pass, is not an instruction line, and `GetSymbol` succeeds on it |
| `Parsing.VariableOperands` | Parser.cs:94-105 | `IsVariable` holds exactly for an A- or L-command whose operand has a character that is not a digit. Every L-command is a variable |
| `Parsing.IsLabel` | Parser.cs:73-76 | fails exactly on the empty operand (indexing its first character) |
| `Parsing.IsAllDigits` | Parser.cs:83-92 | the loop returns true exactly when every character is a digit, so true for "" |
| `Parsing.ParseCommentOut` | Parser.cs:107-117 | a line whose first `//` is at index 0, or that has none, is returned unchanged. Otherwise the result has length `IndexOf(line, "//")`: it is exactly the part of the line before the first `//`, and contains no `//` |
| `Parsing.CommandTypeIs` | Parser.cs:119-132 | L exactly for `@` followed by an upper-case letter. A exactly for `@` followed by anything else. C exactly for the empty command or one not starting with `@`. A bare `@` fails |
| `Parsing.ACommandOperand` | Parser.cs:94-105 | for an A-command, `IsVariable` holds exactly when the operand is not all digits. Otherwise the operand is a non-empty digit string |
| `Parsing.GetSymbol` | Parser.cs:134-137 | succeeds on every declaration line. The piece it returns contains no parenthesis |
| `Parsing.GetSymbolOfDeclaration` | Parser.cs:134-137 | `(X)` is a declaration and yields exactly X when X has no parentheses |
| `Parsing.GetDestCmd` | Parser.cs:139-149 | non-empty exactly when the first `=` is past index 0. It is then the prefix before that `=` and contains no `=` |
| `Parsing.GetCompCmd` | Parser.cs:151-162 | with no `=` and no `;` past index 0, the whole command. With `=` (at any index) but no `;` past index 0, dest + `=` + comp rebuilds the command. With the first `;` past index 0 and no `=`, comp + `;` + jump rebuilds the command |
| `Parsing.GetJumpCmd` | Parser.cs:164-174 | non-empty only when the first `;` is past index 0. It is then exactly the text after the first `;`: the text before that `;`, the `;` and the result rebuild the command |
| `Parsing.FieldsOfCompOnly` | Parser.cs:139-174 | a command without `=` or `;` has empty dest and jump and is all comp |
| `Parsing.FieldsOfDestAndComp` | Parser.cs:139-174 | `dest=comp` splits into exactly dest, comp and an empty jump |
| `Parsing.FieldsOfCompAndJump` | Parser.cs:139-174 | `comp;jump` splits into an empty dest, exactly comp and exactly jump |
| `Parsing.CompWithDestAndJump` | Parser.cs:151-162 | with `=` before `;`, the comp text either fails or contains `;` |
| `Parsing.CompOfFullCommand` | Parser.cs:158 | `D=D+1;JGT` splits into dest `D`, comp `D+1;J` and jump `JGT` |
| `Parsing.InstructionsAppend` | Parser.cs:41-56 | the second pass is line by line: the output for a text split in two is the two outputs concatenated |
| `Parsing.LabelTableWithoutDeclarations` | Parser.cs:20-39 | a text without declaration lines leaves the table as it was |
| `Parsing.PlainInstructionLine` | Parser.cs:45-53 | a trimmed line without `/` that does not open with `(` is an instruction line and is emitted unchanged |
| `Parsing.InstructionsCount` | Parser.cs:20-56 | the first pass's final counter equals the number of lines the second pass emits |
| `Parsing.NormalizedLine` | Parser.cs:52 | a non-comment line comes out trimmed and without `//` |
| `Parsing.InstructionsNormalized` | Parser.cs:41-56 | every emitted instruction is trimmed and contains no `//` |
| `Parsing.InstructionAt` | Parser.cs:41-56 | about `Instructions`, the function the second pass is proved against: the instruction line at index j is emitted, normalised, at position "number of instruction lines before j", the address the first pass counted there |
| `Parsing.CountAcrossNonInstructions` | Parser.cs:26-37 | blank, comment and declaration lines do not advance the address counter |
| `Parsing.LabelBinding` | Parser.cs:31-34 | about `LabelTable`, the function the first pass is proved against: the last declaration of a name binds it to the number of instruction lines before that declaration (the last declaration wins) |
| `Parsing.LabelTableUndeclared` | Parser.cs:20-39 | a name no line declares keeps its binding, or its absence |
| `Parsing.LabelTableGrows` | Parser.cs:20-39 | the first pass never removes a name |
| `Parsing.LabelTableIdempotent` | Parser.cs:20-39 | running the first pass a second time over the same lines, on the table the first run produced, leaves that table unchanged |
| `Parsing.LabelTargetsNextInstruction` | Parser.cs:20-56 | a label's address is the position in the second pass's output of the first instruction after its declaration, or the output length when none follows |
| `Parsing.Parser.constructor` | Parser.cs:9-12 | the parser works on the table it is given |
| `Parsing.Parser.Parse` | Parser.cs:14-18 | the table becomes the label table of the lines. The result is the second pass's output, with one entry per instruction line |
| `Parsing.Parser.FirstPass` | Parser.cs:20-39 | the loop leaves the table equal to `LabelTable` of the lines over the old table. Its invariant keeps the address counter equal to the number of instruction lines read |
| `Parsing.Parser.SecondPass` | Parser.cs:41-56 | the loop returns exactly `Instructions` of the lines |
| `Translation.LittleEndianOfReverse` | Translator.cs:98-100 | reversing a bit array and reading it from bit 0 upwards gives the value of the array read most significant bit first |
| `Translation.GetIntFromBitArray` | Translator.cs:158-167 | succeeds exactly for arrays of at most 16 bits |
| `Translation.ToInt16` | Translator.cs:65 | succeeds exactly for values in [-32768, 32767] and then returns the value unchanged |
| `Translation.ParseInt16` | Translator.cs:68-69 | a digit string converts exactly when its decimal value is at most 32767, and then to that value |
| `Translation.ConvertToBytes` | Translator.cs:147-155 | two bytes, low byte first, that together give the value modulo 2^16 (the value itself for a 16-bit word) |
| `Translation.DestTableEncodesIndex` | Translator.cs:219-239 | about the constant `DestCmdMapping`: the k-th dest mnemonic (`""`, M, D, MD, A, AM, AD, AMD) is coded as k in 3 big-endian bits, and there are no other keys |
| `Translation.JumpTableEncodesIndex` | Translator.cs:243-263 | about the constant `JumpCmdMapping`: the k-th jump mnemonic (`""`, JGT, JEQ, JGE, JLT, JNE, JLE, JMP) is coded as k in 3 bits, and there are no other keys |
| `Translation.DestTableMatchesRegisters` | Translator.cs:225-234 | the three dest bits say whether A, D and M are named, in that order |
| `Translation.JumpTableMatchesConditions` | Translator.cs:249-258 | the three jump bits say whether the mnemonic jumps on a negative, a zero and a positive output |
| `Translation.CompTableShape` | Translator.cs:175-215 | about the constant `CompCmdMapping`: `""` is not a comp key. Every code has 7 bits. The first bit (a) is set exactly for mnemonics that read M. No key contains `;` |
| `Translation.ConvertCompCmd` | Translator.cs:108-119 | succeeds exactly when the comp text is a key of the comp table. The code then has 7 bits, the first (a) set exactly when the comp text reads M. An unknown comp fails naming it |
| `Translation.ConvertDestCmd` | Translator.cs:121-132 | succeeds exactly for the eight dest mnemonics. The three bits then say whether A, D and M are named. Otherwise it fails naming the dest text |
| `Translation.ConvertJumpCmd` | Translator.cs:134-145 | succeeds exactly for the eight jump mnemonics. The three bits then say whether it jumps on a negative, a zero and a positive output. Otherwise it fails naming the jump text |
| `Translation.ConvertLCmd` | Translator.cs:103-106 | succeeds exactly when the label is bound to a value within Int16, and then yields that value. An unbound label fails naming it |
| `Translation.ACmdStep` | Translator.cs:55-70 | any word it yields is within Int16. For a variable the name ends up bound, and the word is its bound address. A literal leaves the table and next address unchanged |
| `Translation.ConvertCCmdLayout` | Translator.cs:72-101 | specifies `ConvertCCmd`: a C-command encodes exactly when all three fields are table keys. An unknown comp is reported first. The word is then `0xE000 + comp*64 + dest*8 + jump`, so bits 15..13 are set |
| `Translation.CCommandWord` | Translator.cs:78-100 | the 16-element array `111 comp dest jump`, reversed and read from bit 0, has value `0xE000 + comp*64 + dest*8 + jump` |
| `Translation.DestCompCommand` | Translator.cs:72-145 | `dest=comp` encodes to `0xE000 + comp*64 + dest*8`, with jump code 0 |
| `Translation.DestAndJumpTogetherFail` | Translator.cs:108-119 | a C-command with `=` before `;` never encodes |
| `Translation.ToBytes` | Translator.cs:14-53 | one pair of bytes per word, in order |
| `Translation.StepState` | Translator.cs:55-66 | about `Step`, one iteration of the loop: only an A-command naming a variable missing from the table changes the state. It binds the name to the next free address and advances that address |
| `Translation.TranslatePreservesBindings` | Translator.cs:55-66 | no binding is ever changed or removed and the next free address never decreases, whether the run succeeds or fails |
| `Translation.NewVariablesDistinct` | Translator.cs:59-63 | the names a run allocates are pairwise distinct and none was in the table before |
| `Translation.TranslateAllocates` | Translator.cs:55-66 | after a successful run, the k-th new name in order of first use is bound to the start address + k, with no gaps. The key set grows by exactly those names. The next free address ends just past them |
| `Translation.TranslateWords` | Translator.cs:14-53 | about `Translate`, the function the loop is proved against: a successful run emits one word per instruction, in order. Each word is its instruction's encoding under the final table: the C encoding, the bound address of a name, or a literal's value; A- and L-words are within Int16 |
| `Translation.TranslateFailsIffSomeStepFails` | Translator.cs:14-53 | a run fails exactly when some instruction fails in the state reached just before it |
| `Translation.TranslateStopsAtFirstFailure` | Translator.cs:14-53 | when every instruction before index i succeeds and instruction i fails, the run fails with instruction i's error and leaves the state that instruction leaves (a variable it allocated stays allocated) |
| `Translation.LiteralACommand` | Translator.cs:68-69 | a digit operand n leaves the state alone. It fails with an overflow exactly when n > 32767. Otherwise it encodes to n, whose high byte is below 128 (bit 15 clear) |
| `Translation.LabelCommand` | Translator.cs:103-106 | an L-command never allocates. It fails naming the symbol when the label is unbound, and otherwise yields the label's address when that fits in Int16 |
| `Translation.Translator.constructor` | Translator.cs:9-12 | the translator works on the given table, and the next variable address starts at 16 |
| `Translation.Translator.ConvertInstructionsToBinary` | Translator.cs:14-53 | the loop returns exactly the bytes of `Translate`'s words, or its first failure. The table and next address end as `Translate` leaves them |
| `Translation.Translator.ConvertACmd` | Translator.cs:55-70 | the word and the new table and address are those of `ACmdStep`. A new variable is allocated before `Convert.ToInt16` is applied |
| `Assembly.AssembleLines` | Parser.cs:14-18 | a parser and a translator sharing one fresh table produce exactly the bytes of `Translate` over the second pass's output, starting from the label table and address 16 |
| `Assembly.LabelReference` | Parser.cs:31-37 | a reference to a declared non-numeric label emits the number of instructions before its (last) declaration, which is the index of the instruction that follows it |
| `Assembly.VariablesFromSixteen` | Translator.cs:55-66 | variables are numbered 16, 17, … in order of first use and are never reserved names. Reserved names that are not redeclared as labels keep their addresses |
| `Assembly.AddProgramPasses` | Parser.cs:41-56 | for the textbook's Add program, the first pass binds nothing and the second pass drops the comment and the blank line |
| `Assembly.AddProgram` | Translator.cs:14-53 | the Add program assembles to `2, 0xEC10, 3, 0xE090, 0, 0xE308` |
| `Assembly.AddProgramWords` | Translator.cs:14-53 | the Add program names no symbol, so it encodes to those words from any state and leaves the state unchanged |

## Left out

- Reading the input file (`File.ReadLines`, `Parser.cs:24,45`). Both passes
  take the lines as a `seq<string>` argument. Both read the same lines.
- Writing the bytes to disk. This happens outside the files modelled.
- `Program.cs` is not part of this model. It is an earlier version of the
  assembler that redefines `Parser` and `SymbolTable`, and its `Main` is
  command-line plumbing.
- The `default` branch of the switch in `ConvertInstructionsToBinary`
  (`Translator.cs:44-47`). `CommandTypeIs` only ever returns A, C or L, so
  it cannot be reached.
- `HasMoreCommands` (`Parser.cs:78-81`). Nothing calls it.
- The internals of .NET `BitArray`, `Array.Reverse` and `CopyTo`
  (`Translator.cs:98-100,163-166`). Only their net effect is modelled, as
  integer arithmetic on bit sequences.
- Unicode rules. `Char.IsUpper`, `Char.IsDigit`, `IsNullOrWhiteSpace` and
  `Trim` use their ASCII subsets. `StartsWith` and `IndexOf` compare
  ordinally.
- UTF-16 code units. A Dafny `char` is a Unicode scalar value, while C#
  `Substring`, `IndexOf` and `Length` count UTF-16 code units. Indices and
  lengths therefore differ for text outside the Basic Multilingual Plane,
  for example the lengths `GetCompCmd` passes to `Substring`.
- Exception types and messages. Failures are `Err` values carrying an
  `Error` case, not the message text.
- The publicly settable `Symbols` properties (`SymbolTable.cs:62`,
  `Parser.cs:176`, `Translator.cs:171`). Only the table they expose is
  modelled.
- `Dictionary.Add` throws on a duplicate key during seeding. The 23 reserved
  names are distinct, so seeding is modelled as map updates.
- Convert.ToInt16 on a string: only its behaviour on non-empty digit
  strings is modelled. Only those strings reach it (`ACommandOperand`).
