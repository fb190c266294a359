/** The parser: classifies raw source lines, binds labels in a first pass and
    produces the list of normalised instructions in a second pass.  Its static
    helpers classify a command and split a C-command into its fields. */
module Parsing {
  import opened Results
  import opened Text
  import opened Symbols

  /** A-command (`@value`), C-command (`dest=comp;jump`) or L-command
      (`@Label`, an operand starting with an upper-case letter). */
  datatype CommandType = A | C | L

  // ---------------------------------------------------------------------
  // Classification of raw lines (no trimming happens before these checks)
  // ---------------------------------------------------------------------

  /** `string.IsNullOrWhiteSpace`. */
  predicate IsEmptyLine(line: string) {
    forall i :: 0 <= i < |line| ==> IsWhiteSpace(line[i])
  }

  predicate IsCommentLine(line: string) {
    StartsWith(line, "//")
  }

  predicate IsSymbolDeclaration(line: string) {
    |line| > 0 && line[0] == '(' && line[|line| - 1] == ')'
  }

  /** Lines both passes skip outright. */
  predicate IsSkippedLine(line: string) {
    IsEmptyLine(line) || IsCommentLine(line)
  }

  /** Lines that bind a label in the first pass. */
  predicate IsDeclarationLine(line: string) {
    !IsSkippedLine(line) && IsSymbolDeclaration(line)
  }

  /** Lines that become an instruction: they advance the first pass's
      address counter and appear in the second pass's output. */
  predicate IsInstructionLine(line: string) {
    !IsSkippedLine(line) && !IsSymbolDeclaration(line)
  }

  /** Comment and declaration detection look at the raw line, so an indented
      comment or an indented or commented declaration counts as an
      instruction line. */
  lemma RawLineClassification()
    ensures IsInstructionLine("  // note")
    ensures IsInstructionLine(" (LOOP)")
    ensures IsInstructionLine("(LOOP) // loop start")
    ensures IsDeclarationLine("(LOOP)") && IsSkippedLine("// note") && IsSkippedLine(" \t")
  {
    assert "  // note"[0] == ' ' && "  // note"[2] == '/';
    assert " (LOOP)"[0] == ' ' && " (LOOP)"[1] == '(';
    assert "(LOOP) // loop start"[0] == '(' && "(LOOP) // loop start"[19] == 't';
    assert "(LOOP)"[0] == '(';
    assert " \t"[0] == ' ' && " \t"[1] == '\t';
  }

  /** `IsNullOrWhiteSpace` holds exactly when trimming leaves nothing. */
  lemma EmptyLineTrimsToNothing(line: string)
    ensures IsEmptyLine(line) <==> Trim(line) == []
  {
    var t := TrimStart(line);
    assert t != [] ==> t[0] == line[|line| - |t|];
  }

  /** A comment line is exactly one whose first `//` is at index 0, the
      marker `ParseCommentOut` leaves in place. */
  lemma CommentLineMarker(line: string)
    ensures IsCommentLine(line) <==> IndexOf(line, "//") == 0
  {
    if IsCommentLine(line) {
      assert OccursAt(line, "//", 0);
    }
  }

  /** A line that opens with `(` and closes with `)` is neither blank nor a
      comment, so it always binds a label and never becomes an instruction. */
  lemma SymbolDeclarationBinds(line: string)
    requires IsSymbolDeclaration(line)
    ensures IsDeclarationLine(line) && !IsInstructionLine(line) && GetSymbol(line).Ok?
  {
    assert line[0] == '(';
    assert |line| >= 2 ==> line[..2][0] == '(';
  }

  // ---------------------------------------------------------------------
  // Static helpers
  // ---------------------------------------------------------------------

  /** `Char.IsUpper(input[0])`; indexing an empty string fails. */
  function IsLabel(input: string): (r: Result<bool>)
    ensures r.Err? <==> input == []
  {
    if input == [] then Err(IndexOutOfRange) else Ok(IsUpper(input[0]))
  }

  /** `IsAllDigits`: a loop with an early return, proved against `AllDigits`. */
  method IsAllDigits(input: string) returns (b: bool)
    ensures b <==> AllDigits(input)
  {
    for i := 0 to |input|
      invariant forall k :: 0 <= k < i ==> IsDigit(input[k])
    {
      if !IsDigit(input[i]) {
        return false;
      }
    }
    return true;
  }

  /** An `@` command whose operand is not all digits names a symbol. */
  predicate IsVariable(command: string) {
    StartsWith(command, "@") && !AllDigits(command[1..])
  }

  /** `IsVariable` holds for `@` followed by an operand with a non-digit in
      it: every L-command and exactly the symbolic A-commands. */
  lemma VariableOperands(command: string)
    ensures IsVariable(command) <==>
      (CommandTypeIs(command) == Ok(A) || CommandTypeIs(command) == Ok(L))
      && exists k :: 1 <= k < |command| && !IsDigit(command[k])
    ensures CommandTypeIs(command) == Ok(L) ==> IsVariable(command)
  {
    if IsVariable(command) {
      var k :| 0 <= k < |command[1..]| && !IsDigit(command[1..][k]);
      assert !IsDigit(command[k + 1]);
    }
    if exists k :: 1 <= k < |command| && !IsDigit(command[k]) {
      var k :| 1 <= k < |command| && !IsDigit(command[k]);
      assert command[1..][k - 1] == command[k];
      if |command| > 0 && command[0] == '@' {
        assert command[..1] == "@";
      }
    }
    if CommandTypeIs(command) == Ok(L) {
      assert command[1..][0] == command[1];
      assert command[..1] == "@";
    }
  }

  /** Drops a trailing `//` comment.  A marker at index 0 is left in place. */
  function ParseCommentOut(line: string): (r: string)
    ensures IndexOf(line, "//") <= 0 ==> r == line
    ensures IndexOf(line, "//") > 0 ==>
      |r| == IndexOf(line, "//") && r == line[..|r|] && IndexOf(r, "//") == -1
  {
    var commentLocation := IndexOf(line, "//");
    if commentLocation > 0 then
      NoOccurrenceBeforeFirst(line, "//", commentLocation);
      line[..commentLocation]
    else
      line
  }

  /** `@` followed by an upper-case letter is an L-command, any other `@`
      command an A-command, everything else a C-command; a bare `@` fails
      when its missing operand is inspected. */
  function CommandTypeIs(command: string): (r: Result<CommandType>)
    ensures r.Err? <==> command == "@"
    ensures r == Ok(L) <==> |command| >= 2 && command[0] == '@' && IsUpper(command[1])
    ensures r == Ok(A) <==> |command| >= 2 && command[0] == '@' && !IsUpper(command[1])
    ensures r == Ok(C) <==> command == [] || command[0] != '@'
  {
    if StartsWith(command, "@") then
      var isLabel :- IsLabel(command[1..]);
      Ok(if isLabel then L else A)
    else
      Ok(C)
  }

  /** An A-command's operand is either a symbol (`IsVariable`) or a non-empty
      string of digits. */
  lemma ACommandOperand(command: string)
    requires CommandTypeIs(command) == Ok(A)
    ensures IsVariable(command) <==> !AllDigits(command[1..])
    ensures !IsVariable(command) ==> |command[1..]| > 0 && AllDigits(command[1..])
  {
  }

  predicate IsParen(c: char) { c == '(' || c == ')' }

  /** Index of the first parenthesis at or after `from`, or `|s|`. */
  function NextParen(s: string, from: nat): (r: nat)
    requires from <= |s|
    ensures from <= r <= |s|
    ensures r < |s| ==> IsParen(s[r])
    ensures forall k :: from <= k < r ==> !IsParen(s[k])
    decreases |s| - from
  {
    if from == |s| || IsParen(s[from]) then from else NextParen(s, from + 1)
  }

  /** `symbol.Split('(', ')')[1]`: the text between the first parenthesis and
      the next one (or the end); a line without parentheses has no second
      piece. */
  function GetSymbol(symbol: string): (r: Result<string>)
    ensures IsSymbolDeclaration(symbol) ==> r.Ok?
    ensures r.Ok? ==> forall k :: 0 <= k < |r.value| ==> !IsParen(r.value[k])
  {
    var first := NextParen(symbol, 0);
    if first == |symbol| then Err(IndexOutOfRange)
    else
      var next := NextParen(symbol, first + 1);
      Ok(symbol[first + 1..next])
  }

  /** A declaration `(X)` binds exactly X when X has no parentheses. */
  lemma GetSymbolOfDeclaration(x: string)
    requires forall k :: 0 <= k < |x| ==> !IsParen(x[k])
    ensures IsSymbolDeclaration("(" + x + ")")
    ensures GetSymbol("(" + x + ")") == Ok(x)
  {
    var s := "(" + x + ")";
    assert NextParen(s, 0) == 0;
    assert forall k :: 1 <= k < |x| + 1 ==> s[k] == x[k - 1];
    assert s[1..|x| + 1] == x;
  }

  /** The text before the first `=`, or "" when there is none (or it is at
      index 0). */
  function GetDestCmd(command: string): (r: string)
    ensures r != [] <==> IndexOf(command, "=") > 0
    ensures r != [] ==> |r| < |command| && command[|r|] == '=' && r == command[..|r|]
    ensures IndexOf(r, "=") == -1
  {
    var end := IndexOf(command, "=");
    if end > 0 then
      NoOccurrenceBeforeFirst(command, "=", end);
      command[..end]
    else
      assert forall i :: !OccursAt("", "=", i);
      []
  }

  /** As written: the index of `;` is passed to `Substring` as a LENGTH, so
      with both `=` and `;` present the slice starts after `=` and runs for
      as many characters as precede `;`, failing when that overruns. */
  function GetCompCmd(command: string): (r: Result<string>)
    ensures IndexOf(command, "=") == -1 && IndexOf(command, ";") <= 0 ==> r == Ok(command)
    ensures IndexOf(command, "=") >= 0 && IndexOf(command, ";") <= 0 ==>
      r.Ok? && GetDestCmd(command) + "=" + r.value == command
    ensures IndexOf(command, "=") == -1 && IndexOf(command, ";") > 0 ==>
      r.Ok? && r.value + ";" + GetJumpCmd(command) == command
  {
    var start := IndexOf(command, "=") + 1;
    var end := IndexOf(command, ";");
    if end > 0 then
      if start + end <= |command| then
        Ok(command[start..start + end])
      else Err(SubstringOutOfRange(start, end))
    else
      Ok(command[start..])
  }

  /** The text after the first `;`, or "" when there is none (or it is at
      index 0). */
  function GetJumpCmd(command: string): (r: string)
    ensures r != [] ==> IndexOf(command, ";") > 0
    ensures IndexOf(command, ";") > 0 ==>
      |r| < |command| && command[|command| - |r| - 1] == ';' && r == command[|command| - |r|..]
    ensures IndexOf(command, ";") > 0 ==> command[..IndexOf(command, ";")] + ";" + r == command
  {
    var start := IndexOf(command, ";") + 1;
    if start > 1 then
      assert command[start - 1..start] == ";";
      assert command == command[..start - 1] + [command[start - 1]] + command[start..];
      command[start..]
    else []
  }

  /** No `=` and no `;` in `s`. */
  predicate IsPlainField(s: string) {
    forall k :: 0 <= k < |s| ==> s[k] != '=' && s[k] != ';'
  }

  lemma PlainFieldHasNoMarkers(s: string)
    requires IsPlainField(s)
    ensures IndexOf(s, "=") == -1 && IndexOf(s, ";") == -1
  {
    OccursAtChar(s, '=');
    OccursAtChar(s, ';');
  }

  /** A command without `=` or `;` is all comp. */
  lemma FieldsOfCompOnly(comp: string)
    requires IsPlainField(comp)
    ensures GetDestCmd(comp) == "" && GetCompCmd(comp) == Ok(comp) && GetJumpCmd(comp) == ""
  {
    PlainFieldHasNoMarkers(comp);
  }

  /** `dest=comp` splits at the `=`. */
  lemma FieldsOfDestAndComp(dest: string, comp: string)
    requires IsPlainField(dest) && IsPlainField(comp) && dest != []
    ensures GetDestCmd(dest + "=" + comp) == dest
    ensures GetCompCmd(dest + "=" + comp) == Ok(comp)
    ensures GetJumpCmd(dest + "=" + comp) == ""
  {
    var s := dest + "=" + comp;
    PlainFieldHasNoMarkers(dest);
    FirstMarker(dest, "=", comp);
    OccursAtChar(s, ';');
    assert s[..|dest|] == dest && s[|dest| + 1..] == comp;
  }

  /** `comp;jump` splits at the `;`. */
  lemma FieldsOfCompAndJump(comp: string, jump: string)
    requires IsPlainField(comp) && IsPlainField(jump) && comp != []
    ensures GetDestCmd(comp + ";" + jump) == ""
    ensures GetCompCmd(comp + ";" + jump) == Ok(comp)
    ensures GetJumpCmd(comp + ";" + jump) == jump
  {
    var s := comp + ";" + jump;
    PlainFieldHasNoMarkers(comp);
    FirstMarker(comp, ";", jump);
    OccursAtChar(s, '=');
    assert s[..|comp|] == comp && s[|comp| + 1..] == jump;
  }

  /** In `a + m + b`, where the one-character marker `m` does not occur in
      `a`, the first occurrence of `m` is at `|a|`. */
  lemma FirstMarker(a: string, m: string, b: string)
    requires |m| == 1 && IndexOf(a, m) == -1
    ensures IndexOf(a + m + b, m) == |a|
  {
    var s := a + m + b;
    assert OccursAt(s, m, |a|) by { assert s[|a|..|a| + 1] == m; }
    forall i | 0 <= i < |a| ensures !OccursAt(s, m, i) {
      assert s[i..i + 1] == a[i..i + 1];
      assert !OccursAt(a, m, i);
    }
  }

  /** With `=` before `;`, the comp text either overruns the command or
      contains the `;` itself. */
  lemma CompWithDestAndJump(command: string)
    requires 0 <= IndexOf(command, "=") < IndexOf(command, ";")
    ensures GetCompCmd(command).Ok? ==> IndexOf(GetCompCmd(command).value, ";") >= 0
  {
    var start := IndexOf(command, "=") + 1;
    var end := IndexOf(command, ";");
    if start + end <= |command| {
      var r := command[start..start + end];
      assert command[end..end + 1][0] == command[end] == ';';
      assert r[end - start] == command[end];
      assert r[end - start..end - start + 1] == [';'];
      assert OccursAt(r, ";", end - start);
    }
  }

  /** The command the C-command splitter mangles: `D=D+1;JGT` yields the comp
      text "D+1;J" instead of "D+1". */
  lemma CompOfFullCommand()
    ensures GetDestCmd("D=D+1;JGT") == "D"
    ensures GetCompCmd("D=D+1;JGT") == Ok("D+1;J")
    ensures GetJumpCmd("D=D+1;JGT") == "JGT"
  {
    var s := "D=D+1;JGT";
    assert s[0..1] == ['D'] && s[1..2] == ['='];
    assert OccursAt(s, "=", 1) && !OccursAt(s, "=", 0);
    assert s[5..6] == [';'];
    assert OccursAt(s, ";", 5);
    assert s[2..7] == "D+1;J";
    forall i | 0 <= i < 5 ensures !OccursAt(s, ";", i) { assert s[i..i + 1][0] == s[i]; }
  }

  // ---------------------------------------------------------------------
  // What the two passes compute
  // ---------------------------------------------------------------------

  /** Number of instruction lines: the first pass's final address counter. */
  function InstructionCount(lines: seq<string>): nat {
    if lines == [] then 0
    else InstructionCount(lines[..|lines| - 1]) + (if IsInstructionLine(lines[|lines| - 1]) then 1 else 0)
  }

  function DeclaredName(line: string): string
    requires IsDeclarationLine(line)
  {
    GetSymbol(line).value
  }

  /** The table after the first pass over `lines`, starting from `table`:
      each declaration binds its name to the number of instruction lines
      before it, later declarations overwriting earlier ones. */
  function LabelTable(lines: seq<string>, table: map<string, int>): map<string, int> {
    if lines == [] then table
    else
      var prefix := lines[..|lines| - 1];
      var line := lines[|lines| - 1];
      if IsDeclarationLine(line) then LabelTable(prefix, table)[DeclaredName(line) := InstructionCount(prefix)]
      else LabelTable(prefix, table)
  }

  /** What the second pass makes of one instruction line. */
  function NormalizeLine(line: string): string {
    Trim(ParseCommentOut(line))
  }

  /** The second pass's output: the normalised instruction lines in order. */
  function Instructions(lines: seq<string>): seq<string> {
    if lines == [] then []
    else
      var prefix := lines[..|lines| - 1];
      var line := lines[|lines| - 1];
      Instructions(prefix) + (if IsInstructionLine(line) then [NormalizeLine(line)] else [])
  }

  // ---------------------------------------------------------------------
  // Properties of the two passes
  // ---------------------------------------------------------------------

  /** Both passes go line by line: a text split in two is processed as the
      two halves one after the other. */
  lemma {:induction false} InstructionsAppend(a: seq<string>, b: seq<string>)
    ensures Instructions(a + b) == Instructions(a) + Instructions(b)
  {
    if b != [] {
      var front := b[..|b| - 1];
      InstructionsAppend(a, front);
      InstructionsAppendStep(a, front, b[|b| - 1], a + b, b);
    } else {
      assert a + b == a;
    }
  }

  /** The induction step: one more line at the end of the second half adds
      that line's output at the end of both sides. */
  lemma InstructionsAppendStep(a: seq<string>, front: seq<string>, last: string, ab: seq<string>, b: seq<string>)
    requires ab == a + front + [last] && b == front + [last]
    requires Instructions(a + front) == Instructions(a) + Instructions(front)
    ensures Instructions(ab) == Instructions(a) + Instructions(b)
  {
    InstructionsSnoc(a + front, last);
    InstructionsSnoc(front, last);
  }

  /** One more line adds that line's output, if any, at the end. */
  lemma InstructionsSnoc(lines: seq<string>, line: string)
    ensures Instructions(lines + [line]) ==
      Instructions(lines) + (if IsInstructionLine(line) then [NormalizeLine(line)] else [])
  {
    assert (lines + [line])[..|lines|] == lines;
  }

  /** A text without declarations leaves the table as it was. */
  lemma {:induction false} LabelTableWithoutDeclarations(lines: seq<string>, table: map<string, int>)
    requires forall k :: 0 <= k < |lines| ==> !IsDeclarationLine(lines[k])
    ensures LabelTable(lines, table) == table
  {
    if lines != [] {
      LabelTableWithoutDeclarations(lines[..|lines| - 1], table);
    }
  }

  /** A line that carries no `/`, no white space at either end and does not
      open with `(` is an instruction line and passes through unchanged. */
  lemma PlainInstructionLine(line: string)
    requires line != [] && line[0] != '(' && IsTrimmed(line)
    requires forall k :: 0 <= k < |line| ==> line[k] != '/'
    ensures IsInstructionLine(line) && NormalizeLine(line) == line
  {
    AbsentFirstChar(line, "//");
    TrimOfTrimmed(line);
  }

  /** Both passes skip the same lines, so the first pass's final counter is
      the number of instructions the second pass emits. */
  lemma {:induction false} InstructionsCount(lines: seq<string>)
    ensures |Instructions(lines)| == InstructionCount(lines)
  {
    if lines != [] {
      InstructionsCount(lines[..|lines| - 1]);
    }
  }

  /** A normalised line is trimmed, and has no `//` unless the raw line was
      a comment line. */
  lemma NormalizedLine(line: string)
    requires !IsCommentLine(line)
    ensures IsTrimmed(NormalizeLine(line))
    ensures IndexOf(NormalizeLine(line), "//") == -1
  {
    CommentFreeAfterParseCommentOut(line);
    TrimKeepsAbsence(ParseCommentOut(line), "//");
  }

  /** Trimming cannot introduce a pattern the string lacks. */
  lemma TrimKeepsAbsence(s: string, pat: string)
    requires IndexOf(s, pat) == -1
    ensures IndexOf(Trim(s), pat) == -1
  {
    SliceKeepsAbsence(s, Trim(s), pat, |s| - |TrimStart(s)|);
  }

  /** A piece of `s` taken from index `lo` has no occurrence `s` lacks. */
  lemma SliceKeepsAbsence(s: string, t: string, pat: string, lo: nat)
    requires lo + |t| <= |s| && t == s[lo..lo + |t|]
    requires IndexOf(s, pat) == -1
    ensures IndexOf(t, pat) == -1
  {
    NoOccurrenceInSlice(s, pat, lo, lo + |t|);
  }

  lemma CommentFreeAfterParseCommentOut(line: string)
    requires !IsCommentLine(line)
    ensures IndexOf(ParseCommentOut(line), "//") == -1
  {
  }

  /** Every emitted instruction is trimmed and free of `//`. */
  lemma {:induction false} InstructionsNormalized(lines: seq<string>)
    ensures forall i :: 0 <= i < |Instructions(lines)| ==>
      IsTrimmed(Instructions(lines)[i]) && IndexOf(Instructions(lines)[i], "//") == -1
  {
    if lines != [] {
      var prefix := lines[..|lines| - 1];
      var line := lines[|lines| - 1];
      InstructionsNormalized(prefix);
      if IsInstructionLine(line) {
        NormalizedLine(line);
      }
    }
  }

  /** Order preservation: the instruction line at index j is emitted at
      position InstructionCount(lines[..j]), the address the first pass had
      counted when it reached that line. */
  lemma {:induction false} InstructionAt(lines: seq<string>, j: nat)
    requires j < |lines| && IsInstructionLine(lines[j])
    ensures InstructionCount(lines[..j]) < |Instructions(lines)|
    ensures Instructions(lines)[InstructionCount(lines[..j])] == NormalizeLine(lines[j])
  {
    var prefix := lines[..|lines| - 1];
    InstructionsCount(prefix);
    if j < |lines| - 1 {
      assert prefix[..j] == lines[..j];
      InstructionAt(prefix, j);
    } else {
      assert prefix == lines[..j];
    }
  }

  /** Lines that are not instruction lines do not move the counter. */
  lemma {:induction false} CountAcrossNonInstructions(lines: seq<string>, j: nat, k: nat)
    requires j <= k <= |lines|
    requires forall m :: j <= m < k ==> !IsInstructionLine(lines[m])
    ensures InstructionCount(lines[..k]) == InstructionCount(lines[..j])
    decreases k - j
  {
    if j < k {
      CountAcrossNonInstructions(lines, j, k - 1);
      assert lines[..k][..k - 1] == lines[..k - 1];
    }
  }

  /** Label binding: the last declaration of x, at index j, binds x to the
      number of instruction lines before it. */
  lemma {:induction false} LabelBinding(lines: seq<string>, table: map<string, int>, x: string, j: nat)
    requires j < |lines| && IsDeclarationLine(lines[j]) && DeclaredName(lines[j]) == x
    requires forall k :: j < k < |lines| && IsDeclarationLine(lines[k]) ==> DeclaredName(lines[k]) != x
    ensures x in LabelTable(lines, table)
    ensures LabelTable(lines, table)[x] == InstructionCount(lines[..j])
  {
    var prefix := lines[..|lines| - 1];
    if j < |lines| - 1 {
      assert prefix[..j] == lines[..j];
      LabelBinding(prefix, table, x, j);
    } else {
      assert prefix == lines[..j];
    }
  }

  /** A name no line declares keeps its binding (or its absence), and no
      existing name is lost. */
  lemma {:induction false} LabelTableUndeclared(lines: seq<string>, table: map<string, int>, x: string)
    requires forall k :: 0 <= k < |lines| && IsDeclarationLine(lines[k]) ==> DeclaredName(lines[k]) != x
    ensures x in LabelTable(lines, table) <==> x in table
    ensures x in table ==> LabelTable(lines, table)[x] == table[x]
  {
    if lines != [] {
      LabelTableUndeclared(lines[..|lines| - 1], table, x);
    }
  }

  /** The first pass only adds names. */
  lemma {:induction false} LabelTableGrows(lines: seq<string>, table: map<string, int>)
    ensures table.Keys <= LabelTable(lines, table).Keys
  {
    if lines != [] {
      LabelTableGrows(lines[..|lines| - 1], table);
    }
  }

  /** Running the first pass twice over the same lines gives the same table
      as running it once: each declared name is bound again to the same
      address, and every other name is left alone. */
  lemma LabelTableIdempotent(lines: seq<string>, table: map<string, int>)
    ensures LabelTable(lines, LabelTable(lines, table)) == LabelTable(lines, table)
  {
    var once := LabelTable(lines, table);
    var twice := LabelTable(lines, once);
    forall x
      ensures (x in twice <==> x in once) && (x in once ==> twice[x] == once[x])
    {
      if exists k :: 0 <= k < |lines| && IsDeclarationLine(lines[k]) && DeclaredName(lines[k]) == x {
        var j := LastDeclaration(lines, x);
        LabelBinding(lines, table, x, j);
        LabelBinding(lines, once, x, j);
      } else {
        LabelTableUndeclared(lines, once, x);
      }
    }
    assert twice.Keys == once.Keys;
  }

  /** The index of the last line that declares `x`, when one does. */
  lemma {:induction false} LastDeclaration(lines: seq<string>, x: string) returns (j: nat)
    requires exists k :: 0 <= k < |lines| && IsDeclarationLine(lines[k]) && DeclaredName(lines[k]) == x
    ensures j < |lines| && IsDeclarationLine(lines[j]) && DeclaredName(lines[j]) == x
    ensures forall k :: j < k < |lines| && IsDeclarationLine(lines[k]) ==> DeclaredName(lines[k]) != x
  {
    var last := |lines| - 1;
    if IsDeclarationLine(lines[last]) && DeclaredName(lines[last]) == x {
      j := last;
    } else {
      var prefix := lines[..last];
      var k :| 0 <= k < |lines| && IsDeclarationLine(lines[k]) && DeclaredName(lines[k]) == x;
      assert prefix[k] == lines[k];
      j := LastDeclaration(prefix, x);
      forall m | j < m < |lines| && IsDeclarationLine(lines[m])
        ensures DeclaredName(lines[m]) != x
      {
        if m < last {
          assert prefix[m] == lines[m];
        }
      }
    }
  }

  /** The point of the two passes: a label's address is the position, in the
      second pass's output, of the first instruction line after its (last)
      declaration, or one past the end when no instruction follows it. */
  lemma LabelTargetsNextInstruction(lines: seq<string>, table: map<string, int>, x: string, j: nat, k: nat)
    requires j < |lines| && IsDeclarationLine(lines[j]) && DeclaredName(lines[j]) == x
    requires forall m :: j < m < |lines| && IsDeclarationLine(lines[m]) ==> DeclaredName(lines[m]) != x
    requires j < k <= |lines|
    requires forall m :: j < m < k ==> !IsInstructionLine(lines[m])
    ensures x in LabelTable(lines, table)
    ensures k < |lines| && IsInstructionLine(lines[k]) ==>
      0 <= LabelTable(lines, table)[x] < |Instructions(lines)|
      && Instructions(lines)[LabelTable(lines, table)[x]] == NormalizeLine(lines[k])
    ensures k == |lines| ==> LabelTable(lines, table)[x] == |Instructions(lines)|
  {
    LabelBinding(lines, table, x, j);
    CountAcrossNonInstructions(lines, j, k);
    if k < |lines| && IsInstructionLine(lines[k]) {
      InstructionAt(lines, k);
    }
    if k == |lines| {
      InstructionsCount(lines);
      assert lines[..k] == lines;
    }
  }

  // ---------------------------------------------------------------------
  // The parser object
  // ---------------------------------------------------------------------

  class Parser {
    const symbols: SymbolTable

    constructor (symbolTable: SymbolTable)
      ensures symbols == symbolTable
    {
      symbols := symbolTable;
    }

    /** Both passes over the same lines. */
    method Parse(lines: seq<string>) returns (instructions: seq<string>)
      modifies symbols
      ensures symbols.symbols == LabelTable(lines, old(symbols.symbols))
      ensures instructions == Instructions(lines)
      ensures |instructions| == InstructionCount(lines)
    {
      FirstPass(lines);
      instructions := SecondPass(lines);
      InstructionsCount(lines);
    }

    /** Binds every declaration to the running address counter, which only
        instruction lines advance. */
    method FirstPass(lines: seq<string>)
      modifies symbols
      ensures symbols.symbols == LabelTable(lines, old(symbols.symbols))
    {
      var address := 0;
      var i := 0;
      while i < |lines|
        invariant 0 <= i <= |lines|
        invariant address == InstructionCount(lines[..i])
        invariant symbols.symbols == LabelTable(lines[..i], old(symbols.symbols))
      {
        var line := lines[i];
        assert lines[..i + 1][..i] == lines[..i];
        if IsEmptyLine(line) || IsCommentLine(line) {
        } else if IsSymbolDeclaration(line) {
          var name := GetSymbol(line);
          symbols.AddEntry(name.value, address);
        } else {
          address := address + 1;
        }
        i := i + 1;
      }
      assert lines[..i] == lines;
    }

    /** Keeps the instruction lines, without trailing comments and trimmed. */
    method SecondPass(lines: seq<string>) returns (result: seq<string>)
      ensures result == Instructions(lines)
    {
      result := [];
      var i := 0;
      while i < |lines|
        invariant 0 <= i <= |lines|
        invariant result == Instructions(lines[..i])
      {
        var line := lines[i];
        assert lines[..i + 1][..i] == lines[..i];
        if !(IsEmptyLine(line) || IsCommentLine(line) || IsSymbolDeclaration(line)) {
          result := result + [Trim(ParseCommentOut(line))];
        }
        i := i + 1;
      }
      assert lines[..i] == lines;
    }
  }
}
