/** The translator (second half of pass 2): turns each normalised instruction
    into a 16-bit Hack word, stored as two little-endian bytes, allocating
    addresses from 16 upwards for new variable names. */
module Translation {
  import opened Results
  import opened Text
  import opened Symbols
  import opened Parsing

  type byte = b: int | 0 <= b < 256

  // ---------------------------------------------------------------------
  // Bits and words
  // ---------------------------------------------------------------------

  function Bit(b: bool): nat { if b then 1 else 0 }

  function Pow2(n: nat): nat { if n == 0 then 1 else 2 * Pow2(n - 1) }

  /** Value of a bit string read most significant bit first, the order in
      which the mapping tables list their bits. */
  function BigEndianValue(bits: seq<bool>): nat {
    if bits == [] then 0 else 2 * BigEndianValue(bits[..|bits| - 1]) + Bit(bits[|bits| - 1])
  }

  /** Value of a `BitArray` copied into an integer: index 0 is bit 0. */
  function LittleEndianValue(bits: seq<bool>): nat {
    if bits == [] then 0 else Bit(bits[0]) + 2 * LittleEndianValue(bits[1..])
  }

  /** `Array.Reverse`. */
  function Reverse(bits: seq<bool>): (r: seq<bool>)
    ensures |r| == |bits|
  {
    if bits == [] then [] else [bits[|bits| - 1]] + Reverse(bits[..|bits| - 1])
  }

  lemma {:induction false} BigEndianBound(bits: seq<bool>)
    ensures BigEndianValue(bits) < Pow2(|bits|)
  {
    if bits != [] {
      BigEndianBound(bits[..|bits| - 1]);
    }
  }

  /** Reversing a bit string and reading it least significant bit first gives
      the value read most significant bit first. */
  lemma {:induction false} LittleEndianOfReverse(bits: seq<bool>)
    ensures LittleEndianValue(Reverse(bits)) == BigEndianValue(bits)
  {
    if bits != [] {
      var r := Reverse(bits);
      assert r[1..] == Reverse(bits[..|bits| - 1]);
      LittleEndianOfReverse(bits[..|bits| - 1]);
    }
  }

  /** Concatenation shifts the left part by the length of the right part. */
  lemma {:induction false} BigEndianAppend(a: seq<bool>, b: seq<bool>)
    ensures BigEndianValue(a + b) == BigEndianValue(a) * Pow2(|b|) + BigEndianValue(b)
  {
    if b != [] {
      var b' := b[..|b| - 1];
      BigEndianAppend(a, b');
      BigEndianAppendLast(a, b);
      ShiftStep(BigEndianValue(a), Pow2(|b'|), BigEndianValue(b'), Bit(b[|b| - 1]));
    } else {
      assert a + b == a;
    }
  }

  /** The last bit of `a + b` is the last bit of a non-empty `b`. */
  lemma BigEndianAppendLast(a: seq<bool>, b: seq<bool>)
    requires b != []
    ensures BigEndianValue(a + b) == 2 * BigEndianValue(a + b[..|b| - 1]) + Bit(b[|b| - 1])
    ensures BigEndianValue(b) == 2 * BigEndianValue(b[..|b| - 1]) + Bit(b[|b| - 1])
    ensures Pow2(|b|) == 2 * Pow2(|b| - 1)
  {
    assert (a + b)[..|a + b| - 1] == a + b[..|b| - 1];
    assert (a + b)[|a + b| - 1] == b[|b| - 1];
  }

  lemma ShiftStep(x: int, p: int, y: int, last: int)
    ensures 2 * (x * p + y) + last == x * (2 * p) + (2 * y + last)
  {
  }

  lemma BigEndianOfThree(bits: seq<bool>)
    requires |bits| == 3
    ensures BigEndianValue(bits) == 4 * Bit(bits[0]) + 2 * Bit(bits[1]) + Bit(bits[2])
  {
    var two, one := bits[..2], bits[..1];
    assert two[..1] == one && two[1] == bits[1];
    assert one[..0] == [] && one[0] == bits[0];
    assert BigEndianValue(one) == Bit(bits[0]);
    assert BigEndianValue(two) == 2 * Bit(bits[0]) + Bit(bits[1]);
  }

  lemma BigEndianOfSeven(bits: seq<bool>)
    requires |bits| == 7
    ensures BigEndianValue(bits) == 64 * Bit(bits[0]) + 32 * Bit(bits[1]) + 16 * Bit(bits[2])
      + 8 * Bit(bits[3]) + 4 * Bit(bits[4]) + 2 * Bit(bits[5]) + Bit(bits[6])
  {
    var v3, v4, v5, v6 := BigEndianValue(bits[..3]), BigEndianValue(bits[..4]),
      BigEndianValue(bits[..5]), BigEndianValue(bits[..6]);
    BigEndianOfThree(bits[..3]);
    assert bits[..3][0] == bits[0] && bits[..3][1] == bits[1] && bits[..3][2] == bits[2];
    BigEndianExtend(bits, 3);
    BigEndianExtend(bits, 4);
    BigEndianExtend(bits, 5);
    BigEndianExtend(bits, 6);
    assert bits[..7] == bits;
    FourMoreBits(v3, v4, v5, v6, BigEndianValue(bits), Bit(bits[3]), Bit(bits[4]), Bit(bits[5]), Bit(bits[6]));
  }

  /** Four doublings, each adding a bit, multiply the start by 16. */
  lemma FourMoreBits(v3: int, v4: int, v5: int, v6: int, v7: int, b3: int, b4: int, b5: int, b6: int)
    requires v4 == 2 * v3 + b3 && v5 == 2 * v4 + b4 && v6 == 2 * v5 + b5 && v7 == 2 * v6 + b6
    ensures v7 == 16 * v3 + 8 * b3 + 4 * b4 + 2 * b5 + b6
  {
  }

  /** One more bit doubles the value read so far and adds the bit. */
  lemma BigEndianExtend(bits: seq<bool>, n: nat)
    requires n < |bits|
    ensures BigEndianValue(bits[..n + 1]) == 2 * BigEndianValue(bits[..n]) + Bit(bits[n])
  {
    assert bits[..n + 1][..n] == bits[..n];
  }

  /** `GetIntFromBitArray`: at most 16 bits, bit i of the result from index i. */
  function GetIntFromBitArray(bits: seq<bool>): (r: Result<int>)
    ensures r.Ok? <==> |bits| <= 16
  {
    if |bits| > 16 then Err(BitArrayTooLong) else Ok(LittleEndianValue(bits))
  }

  /** `Convert.ToInt16` on an integer. */
  function ToInt16(value: int): (r: Result<int>)
    ensures r.Ok? <==> -0x8000 <= value < 0x8000
    ensures r.Ok? ==> r.value == value
  {
    if -0x8000 <= value < 0x8000 then Ok(value) else Err(Overflow(value))
  }

  /** `Convert.ToInt16` on a string of decimal digits. */
  function ParseInt16(digits: string): (r: Result<int>)
    requires AllDigits(digits)
    ensures r.Ok? <==> DecimalValue(digits) < 0x8000
    ensures r.Ok? ==> r.value == DecimalValue(digits)
  {
    ToInt16(DecimalValue(digits))
  }

  /** The low byte and the next byte of a 32-bit value: together they
      represent the value modulo 2^16 (the value itself for a 16-bit word). */
  function ConvertToBytes(value: int): (r: seq<byte>)
    ensures |r| == 2
    ensures r[0] as int + 256 * (r[1] as int) == value % 0x10000
  {
    var lo := value % 256;
    var hi := (value / 256) % 256;
    assert lo + 256 * hi == value % 0x10000 by { BytesOfWord(value); }
    [lo, hi]
  }

  lemma BytesOfWord(v: int)
    ensures v % 256 + 256 * ((v / 256) % 256) == v % 0x10000
  {
    var q := v / 256;
    assert v == 256 * q + v % 256;
    assert q == 256 * (q / 256) + q % 256;
    assert v == 0x10000 * (q / 256) + (256 * (q % 256) + v % 256);
    assert 0 <= 256 * (q % 256) + v % 256 < 0x10000;
  }

  // ---------------------------------------------------------------------
  // The three mapping tables
  // ---------------------------------------------------------------------

  const CompCmdMapping: map<string, seq<bool>> := map[
    "0" := [false, true, false, true, false, true, false],
    "1" := [false, true, true, true, true, true, true],
    "-1" := [false, true, true, true, false, true, false],
    "D" := [false, false, false, true, true, false, false],
    "A" := [false, true, true, false, false, false, false],
    "M" := [true, true, true, false, false, false, false],
    "!D" := [false, false, false, true, true, false, true],
    "!A" := [false, true, true, false, false, false, true],
    "!M" := [true, true, true, false, false, false, true],
    "-D" := [false, false, false, true, true, true, true],
    "-A" := [false, true, true, false, false, true, true],
    "-M" := [true, true, true, false, false, true, true],
    "D+1" := [false, false, true, true, true, true, true],
    "A+1" := [false, true, true, false, true, true, true],
    "M+1" := [true, true, true, false, true, true, true],
    "D-1" := [false, false, false, true, true, true, false],
    "A-1" := [false, true, true, false, false, true, false],
    "M-1" := [true, true, true, false, false, true, false],
    "D+A" := [false, false, false, false, false, true, false],
    "D+M" := [true, false, false, false, false, true, false],
    "D-A" := [false, false, true, false, false, true, true],
    "D-M" := [true, false, true, false, false, true, true],
    "A-D" := [false, false, false, false, true, true, true],
    "M-D" := [true, false, false, false, true, true, true],
    "D&A" := [false, false, false, false, false, false, false],
    "D&M" := [true, false, false, false, false, false, false],
    "D|A" := [false, false, true, false, true, false, true],
    "D|M" := [true, false, true, false, true, false, true]]

  const DestCmdMapping: map<string, seq<bool>> := map[
    "" := [false, false, false],
    "M" := [false, false, true],
    "D" := [false, true, false],
    "MD" := [false, true, true],
    "A" := [true, false, false],
    "AM" := [true, false, true],
    "AD" := [true, true, false],
    "AMD" := [true, true, true]]

  const JumpCmdMapping: map<string, seq<bool>> := map[
    "" := [false, false, false],
    "JGT" := [false, false, true],
    "JEQ" := [false, true, false],
    "JGE" := [false, true, true],
    "JLT" := [true, false, false],
    "JNE" := [true, false, true],
    "JLE" := [true, true, false],
    "JMP" := [true, true, true]]

  /** The dest and jump mnemonics in the order of their codes 0..7. */
  const DestMnemonics: seq<string> := ["", "M", "D", "MD", "A", "AM", "AD", "AMD"]
  const JumpMnemonics: seq<string> := ["", "JGT", "JEQ", "JGE", "JLT", "JNE", "JLE", "JMP"]

  /** The k-th dest mnemonic is coded as k in three bits; there are no others. */
  lemma DestTableEncodesIndex()
    ensures forall k :: 0 <= k < 8 ==>
      DestMnemonics[k] in DestCmdMapping && |DestCmdMapping[DestMnemonics[k]]| == 3
      && BigEndianValue(DestCmdMapping[DestMnemonics[k]]) == k
    ensures forall key :: key in DestCmdMapping ==> key in DestMnemonics
  {
    forall k | 0 <= k < 8
      ensures DestMnemonics[k] in DestCmdMapping && |DestCmdMapping[DestMnemonics[k]]| == 3
      && BigEndianValue(DestCmdMapping[DestMnemonics[k]]) == k
    {
      var bits := DestCmdMapping[DestMnemonics[k]];
      BigEndianOfThree(bits);
    }
  }

  /** The k-th jump mnemonic is coded as k in three bits; there are no others. */
  lemma JumpTableEncodesIndex()
    ensures forall k :: 0 <= k < 8 ==>
      JumpMnemonics[k] in JumpCmdMapping && |JumpCmdMapping[JumpMnemonics[k]]| == 3
      && BigEndianValue(JumpCmdMapping[JumpMnemonics[k]]) == k
    ensures forall key :: key in JumpCmdMapping ==> key in JumpMnemonics
  {
    forall k | 0 <= k < 8
      ensures JumpMnemonics[k] in JumpCmdMapping && |JumpCmdMapping[JumpMnemonics[k]]| == 3
      && BigEndianValue(JumpCmdMapping[JumpMnemonics[k]]) == k
    {
      var bits := JumpCmdMapping[JumpMnemonics[k]];
      BigEndianOfThree(bits);
    }
  }

  /** Reference meaning of the dest bits (section 4.2.3 of The Elements of
      Computing Systems): the three bits say whether A, D and M are stored. */
  lemma DestTableMatchesRegisters()
    ensures forall key :: key in DestCmdMapping ==>
      DestCmdMapping[key] == ['A' in key, 'D' in key, 'M' in key]
  {
  }

  /** Reference meaning of a jump mnemonic: does it jump for this ALU output? */
  function JumpCondition(mnemonic: string, out: int): bool {
    if mnemonic == "JGT" then out > 0
    else if mnemonic == "JEQ" then out == 0
    else if mnemonic == "JGE" then out >= 0
    else if mnemonic == "JLT" then out < 0
    else if mnemonic == "JNE" then out != 0
    else if mnemonic == "JLE" then out <= 0
    else mnemonic == "JMP"
  }

  /** The jump bits say whether to jump on a negative, a zero and a positive
      output, in that order. */
  lemma JumpTableMatchesConditions()
    ensures forall key :: key in JumpCmdMapping ==>
      JumpCmdMapping[key] == [JumpCondition(key, -1), JumpCondition(key, 0), JumpCondition(key, 1)]
  {
  }

  /** The comp table: seven bits per entry, the first (the `a` bit) set
      exactly for mnemonics that read M; neither "" nor any text with `;`
      is a key. */
  lemma CompTableShape()
    ensures "" !in CompCmdMapping
    ensures forall key :: key in CompCmdMapping ==>
      |CompCmdMapping[key]| == 7 && (CompCmdMapping[key][0] <==> 'M' in key) && ';' !in key
  {
  }

  // ---------------------------------------------------------------------
  // C-commands
  // ---------------------------------------------------------------------

  /** The comp bits: seven of them, the `a` bit set exactly when the comp
      text reads M.  An unknown comp text fails naming it. */
  function ConvertCompCmd(cmd: string): (r: Result<seq<bool>>)
    ensures r.Ok? <==> GetCompCmd(cmd).Ok? && GetCompCmd(cmd).value in CompCmdMapping
    ensures r.Ok? ==> |r.value| == 7 && (r.value[0] <==> 'M' in GetCompCmd(cmd).value)
    ensures GetCompCmd(cmd).Ok? && GetCompCmd(cmd).value !in CompCmdMapping ==>
      r == Err(UnknownMnemonic(Comp, GetCompCmd(cmd).value))
  {
    CompTableShape();
    var comp :- GetCompCmd(cmd);
    if comp in CompCmdMapping then Ok(CompCmdMapping[comp]) else Err(UnknownMnemonic(Comp, comp))
  }

  /** The dest bits: defined for the eight dest mnemonics, and then they say
      whether A, D and M are stored. */
  function ConvertDestCmd(cmd: string): (r: Result<seq<bool>>)
    ensures r.Ok? <==> GetDestCmd(cmd) in DestMnemonics
    ensures r.Ok? ==> r.value == ['A' in GetDestCmd(cmd), 'D' in GetDestCmd(cmd), 'M' in GetDestCmd(cmd)]
    ensures r.Err? ==> r.error == UnknownMnemonic(Dest, GetDestCmd(cmd))
  {
    DestTableEncodesIndex();
    DestTableMatchesRegisters();
    var dest := GetDestCmd(cmd);
    if dest in DestCmdMapping then Ok(DestCmdMapping[dest]) else Err(UnknownMnemonic(Dest, dest))
  }

  /** The jump bits: defined for the eight jump mnemonics, and then they say
      whether to jump on a negative, a zero and a positive output. */
  function ConvertJumpCmd(cmd: string): (r: Result<seq<bool>>)
    ensures r.Ok? <==> GetJumpCmd(cmd) in JumpMnemonics
    ensures r.Ok? ==> var j := GetJumpCmd(cmd);
      r.value == [JumpCondition(j, -1), JumpCondition(j, 0), JumpCondition(j, 1)]
    ensures r.Err? ==> r.error == UnknownMnemonic(Jump, GetJumpCmd(cmd))
  {
    JumpTableEncodesIndex();
    JumpTableMatchesConditions();
    var jump := GetJumpCmd(cmd);
    if jump in JumpCmdMapping then Ok(JumpCmdMapping[jump]) else Err(UnknownMnemonic(Jump, jump))
  }

  /** `111 comp dest jump`, read from the reversed bit array. */
  function ConvertCCmd(item: string): Result<int> {
    var comp :- ConvertCompCmd(item);
    var dest :- ConvertDestCmd(item);
    var jump :- ConvertJumpCmd(item);
    GetIntFromBitArray(Reverse([true, true, true] + comp + dest + jump))
  }

  /** A C-command encodes iff its three fields are in their tables, and then
      to 0xE000 + comp*64 + dest*8 + jump: bits 15..13 set, the 7-bit comp
      code in bits 12..6, dest in 5..3, jump in 2..0.  The comp field is
      looked up first. */
  lemma ConvertCCmdLayout(item: string)
    ensures ConvertCCmd(item).Ok? <==>
      GetCompCmd(item).Ok? && GetCompCmd(item).value in CompCmdMapping
      && GetDestCmd(item) in DestCmdMapping && GetJumpCmd(item) in JumpCmdMapping
    ensures GetCompCmd(item).Ok? && GetCompCmd(item).value !in CompCmdMapping ==>
      ConvertCCmd(item) == Err(UnknownMnemonic(Comp, GetCompCmd(item).value))
    ensures ConvertCCmd(item).Ok? ==>
      var c := BigEndianValue(CompCmdMapping[GetCompCmd(item).value]);
      var d := BigEndianValue(DestCmdMapping[GetDestCmd(item)]);
      var j := BigEndianValue(JumpCmdMapping[GetJumpCmd(item)]);
      c < 128 && d < 8 && j < 8
      && ConvertCCmd(item).value == 0xE000 + c * 64 + d * 8 + j
      && 0xE000 <= ConvertCCmd(item).value < 0x10000
  {
    CompTableShape();
    DestTableEncodesIndex();
    JumpTableEncodesIndex();
    if ConvertCCmd(item).Ok? {
      var comp := CompCmdMapping[GetCompCmd(item).value];
      var dest := DestCmdMapping[GetDestCmd(item)];
      var jump := JumpCmdMapping[GetJumpCmd(item)];
      CCommandWord(comp, dest, jump);
    }
  }

  /** The arithmetic behind the C-command layout. */
  lemma CCommandWord(comp: seq<bool>, dest: seq<bool>, jump: seq<bool>)
    requires |comp| == 7 && |dest| == 3 && |jump| == 3
    ensures var c, d, j := BigEndianValue(comp), BigEndianValue(dest), BigEndianValue(jump);
      c < 128 && d < 8 && j < 8
      && LittleEndianValue(Reverse([true, true, true] + comp + dest + jump)) == 0xE000 + c * 64 + d * 8 + j
  {
    var bits := [true, true, true] + comp + dest + jump;
    LittleEndianOfReverse(bits);
    BigEndianAppend([true, true, true] + comp + dest, jump);
    BigEndianAppend([true, true, true] + comp, dest);
    BigEndianAppend([true, true, true], comp);
    BigEndianBound(comp);
    BigEndianBound(dest);
    BigEndianBound(jump);
    assert Pow2(3) == 8 && Pow2(7) == 128;
    BigEndianOfThree([true, true, true]);
  }

  /** `dest=comp` encodes to 111, the comp code, the dest code and jump 000. */
  lemma DestCompCommand(dest: string, comp: string)
    requires IsPlainField(dest) && IsPlainField(comp) && dest != []
    requires dest in DestCmdMapping && comp in CompCmdMapping
    ensures ConvertCCmd(dest + "=" + comp)
      == Ok(0xE000 + BigEndianValue(CompCmdMapping[comp]) * 64 + BigEndianValue(DestCmdMapping[dest]) * 8)
  {
    FieldsOfDestAndComp(dest, comp);
    ConvertCCmdLayout(dest + "=" + comp);
    NoJumpCode();
  }

  /** An empty jump field is coded 000. */
  lemma NoJumpCode()
    ensures "" in JumpCmdMapping && BigEndianValue(JumpCmdMapping[""]) == 0
  {
    JumpTableEncodesIndex();
    assert JumpMnemonics[0] == "";
  }

  /** No comp mnemonic contains `;`, so a C-command with `=` before `;`
      (both dest and jump given) never encodes. */
  lemma DestAndJumpTogetherFail(item: string)
    requires 0 <= IndexOf(item, "=") < IndexOf(item, ";")
    ensures ConvertCCmd(item).Err?
  {
    CompWithDestAndJump(item);
    CompTableShape();
    var comp := GetCompCmd(item);
    if comp.Ok? {
      var i := IndexOf(comp.value, ";");
      assert comp.value[i..i + 1] == ";";
      assert comp.value[i] == ';';
      assert comp.value !in CompCmdMapping;
    }
  }

  // ---------------------------------------------------------------------
  // A- and L-commands and the translator's state
  // ---------------------------------------------------------------------

  /** The state the translator threads through pass 2: the symbol table's
      bindings and the next free variable address. */
  datatype TranslatorState = TranslatorState(table: map<string, int>, variableBaseAddress: int)

  /** The word (or failure) one instruction produces and the state after it. */
  datatype Emitted = Emitted(word: Result<int>, state: TranslatorState)

  /** `ConvertACmd`: a symbol operand is allocated the next free address if
      the table lacks it and is then looked up; a digit operand is its own
      value.  Both go through `Convert.ToInt16`. */
  function ACmdStep(item: string, st: TranslatorState): (r: Emitted)
    requires CommandTypeIs(item) == Ok(A)
    ensures r.word.Ok? ==> -0x8000 <= r.word.value < 0x8000
    ensures IsVariable(item) ==>
      item[1..] in r.state.table && (r.word.Ok? ==> r.word.value == r.state.table[item[1..]])
    ensures !IsVariable(item) ==> r.state == st
  {
    if IsVariable(item) then
      var name := item[1..];
      var st' := if name in st.table then st
                 else TranslatorState(st.table[name := st.variableBaseAddress], st.variableBaseAddress + 1);
      Emitted(ToInt16(st'.table[name]), st')
    else
      Emitted(ParseInt16(item[1..]), st)
  }

  /** `ConvertLCmd`: an upper-case operand is only looked up, never allocated. */
  function ConvertLCmd(item: string, table: map<string, int>): (r: Result<int>)
    requires CommandTypeIs(item) == Ok(L)
    ensures r.Ok? <==> item[1..] in table && -0x8000 <= table[item[1..]] < 0x8000
    ensures r.Ok? ==> r.value == table[item[1..]]
    ensures item[1..] !in table ==> r == Err(SymbolNotFound(item[1..]))
  {
    var address :- Lookup(table, item[1..]);
    ToInt16(address)
  }

  /** One iteration of `ConvertInstructionsToBinary`'s loop. */
  function Step(item: string, st: TranslatorState): Emitted {
    match CommandTypeIs(item)
    case Err(e) => Emitted(Err(e), st)
    case Ok(A) => ACmdStep(item, st)
    case Ok(C) => Emitted(ConvertCCmd(item), st)
    case Ok(L) => Emitted(ConvertLCmd(item, st.table), st)
  }

  /** The words of a whole run (or its first failure) and the final state. */
  datatype Translated = Translated(words: Result<seq<int>>, state: TranslatorState)

  function Translate(items: seq<string>, st: TranslatorState): Translated {
    if items == [] then Translated(Ok([]), st)
    else
      var first := Step(items[0], st);
      if first.word.Err? then Translated(Err(first.word.error), first.state)
      else
        var rest := Translate(items[1..], first.state);
        Translated(if rest.words.Ok? then Ok([first.word.value] + rest.words.value) else rest.words, rest.state)
  }

  /** A run from instruction i on is its first step followed by the rest. */
  lemma TranslateCons(items: seq<string>, i: nat, st: TranslatorState)
    requires i < |items|
    ensures Translate(items[i..], st) ==
      var first := Step(items[i], st);
      if first.word.Err? then Translated(Err(first.word.error), first.state)
      else Continue([first.word.value], Translate(items[i + 1..], first.state))
  {
    assert items[i..][1..] == items[i + 1..];
  }

  /** `prefix` already emitted in front of a run. */
  function Continue(prefix: seq<int>, t: Translated): Translated {
    Translated(if t.words.Ok? then Ok(prefix + t.words.value) else t.words, t.state)
  }

  lemma ContinueEmpty(t: Translated)
    ensures Continue([], t) == t
  {
    if t.words.Ok? {
      assert [] + t.words.value == t.words.value;
    }
  }

  lemma ContinueAppend(p: seq<int>, q: seq<int>, t: Translated)
    ensures Continue(p, Continue(q, t)) == Continue(p + q, t)
  {
    if t.words.Ok? {
      assert p + (q + t.words.value) == (p + q) + t.words.value;
    }
  }

  function ToBytes(words: seq<int>): (r: seq<seq<byte>>)
    ensures |r| == |words|
    ensures forall i :: 0 <= i < |words| ==> r[i] == ConvertToBytes(words[i])
  {
    if words == [] then [] else [ConvertToBytes(words[0])] + ToBytes(words[1..])
  }

  /** Appending a word appends its two bytes. */
  lemma ToBytesAppend(words: seq<int>, word: int)
    ensures ToBytes(words + [word]) == ToBytes(words) + [ConvertToBytes(word)]
  {
  }

  /** The words of a run as the bytes the translator returns. */
  function Output(t: Translated): Result<seq<seq<byte>>> {
    if t.words.Ok? then Ok(ToBytes(t.words.value)) else Err(t.words.error)
  }

  // ---------------------------------------------------------------------
  // Properties of a run
  // ---------------------------------------------------------------------

  /** Only an A-command naming a variable the table lacks changes the state:
      it binds the name to the next free address and advances that address.
      L- and C-commands, literals and known names leave the state alone. */
  lemma StepState(item: string, st: TranslatorState)
    ensures Step(item, st).state ==
      if CommandTypeIs(item) == Ok(A) && IsVariable(item) && item[1..] !in st.table
      then TranslatorState(st.table[item[1..] := st.variableBaseAddress], st.variableBaseAddress + 1)
      else st
  {
  }

  /** No binding is ever changed or removed and the next free address never
      decreases, whether the run succeeds or stops at a failure. */
  lemma {:induction false} TranslatePreservesBindings(items: seq<string>, st: TranslatorState)
    ensures var t := Translate(items, st).state;
      st.variableBaseAddress <= t.variableBaseAddress
      && forall name :: name in st.table ==> name in t.table && t.table[name] == st.table[name]
  {
    if items != [] {
      var first := Step(items[0], st);
      StepState(items[0], st);
      if first.word.Ok? {
        TranslatePreservesBindings(items[1..], first.state);
      }
    }
  }

  /** The variable names a run allocates, in order of first occurrence:
      A-command operands that are not all digits and not yet `known`. */
  function NewVariables(items: seq<string>, known: set<string>): seq<string> {
    if items == [] then []
    else
      var item := items[0];
      if CommandTypeIs(item) == Ok(A) && IsVariable(item) && item[1..] !in known
      then [item[1..]] + NewVariables(items[1..], known + {item[1..]})
      else NewVariables(items[1..], known)
  }

  /** Each new name is allocated once: the names are distinct and none was
      known before. */
  lemma {:induction false} NewVariablesDistinct(items: seq<string>, known: set<string>)
    ensures forall k :: 0 <= k < |NewVariables(items, known)| ==> NewVariables(items, known)[k] !in known
    ensures forall k, l :: 0 <= k < l < |NewVariables(items, known)| ==>
      NewVariables(items, known)[k] != NewVariables(items, known)[l]
  {
    if items != [] {
      var item := items[0];
      if CommandTypeIs(item) == Ok(A) && IsVariable(item) && item[1..] !in known {
        var d' := NewVariables(items[1..], known + {item[1..]});
        NewVariablesDistinct(items[1..], known + {item[1..]});
        var d := [item[1..]] + d';
        assert NewVariables(items, known) == d;
        forall k, l | 0 <= k < l < |d|
          ensures d[k] != d[l]
        {
          assert d[l] == d'[l - 1];
          if k > 0 {
            assert d[k] == d'[k - 1];
          }
        }
        forall k | 0 <= k < |d|
          ensures d[k] !in known
        {
          if k > 0 {
            assert d[k] == d'[k - 1];
          }
        }
      } else {
        assert NewVariables(items, known) == NewVariables(items[1..], known);
        NewVariablesDistinct(items[1..], known);
      }
    }
  }

  /** Variable allocation over a successful run: the k-th new name gets the
      k-th address from the starting one, with no gaps, existing bindings are
      kept, nothing else is bound, and the next free address ends just past
      the last one allocated. */
  lemma {:induction false} TranslateAllocates(items: seq<string>, st: TranslatorState)
    requires Translate(items, st).words.Ok?
    ensures Translate(items, st).state.variableBaseAddress
      == st.variableBaseAddress + |NewVariables(items, st.table.Keys)|
    ensures Translate(items, st).state.table.Keys
      == st.table.Keys + (set x | x in NewVariables(items, st.table.Keys))
    ensures forall k :: 0 <= k < |NewVariables(items, st.table.Keys)| ==>
      Translate(items, st).state.table[NewVariables(items, st.table.Keys)[k]] == st.variableBaseAddress + k
  {
    if items != [] {
      var item := items[0];
      var first := Step(item, st);
      StepState(item, st);
      var rest := items[1..];
      var t' := Translate(rest, first.state);
      assert Translate(items, st).state == t'.state;
      TranslateAllocates(rest, first.state);
      var d := NewVariables(items, st.table.Keys);
      if CommandTypeIs(item) == Ok(A) && IsVariable(item) && item[1..] !in st.table {
        var name := item[1..];
        assert first.state.table.Keys == st.table.Keys + {name};
        var d' := NewVariables(rest, first.state.table.Keys);
        assert d == [name] + d';
        TranslatePreservesBindings(rest, first.state);
        ShiftedAllocation(name, d', t'.state.table, st.variableBaseAddress);
      } else {
        assert first.state == st;
      }
    }
  }

  /** Putting the name allocated first in front of the later ones. */
  lemma ShiftedAllocation(name: string, later: seq<string>, table: map<string, int>, base: int)
    requires name in table && table[name] == base
    requires forall k :: 0 <= k < |later| ==> later[k] in table && table[later[k]] == base + 1 + k
    ensures (set x | x in [name] + later) == {name} + (set x | x in later)
    ensures forall k :: 0 <= k < |[name] + later| ==> table[([name] + later)[k]] == base + k
  {
    var d := [name] + later;
    forall k | 0 <= k < |d|
      ensures table[d[k]] == base + k
    {
      if k > 0 {
        assert d[k] == later[k - 1];
      }
    }
  }

  /** What one emitted word is, in terms of the final symbol table: the C
      encoding, the address of a label or variable, or a literal's value;
      A- and L-words passed `Convert.ToInt16`. */
  predicate Encodes(item: string, table: map<string, int>, word: int) {
    match CommandTypeIs(item)
    case Err(_) => false
    case Ok(C) => ConvertCCmd(item) == Ok(word)
    case Ok(L) => item[1..] in table && table[item[1..]] == word && -0x8000 <= word < 0x8000
    case Ok(A) =>
      if IsVariable(item) then item[1..] in table && table[item[1..]] == word && -0x8000 <= word < 0x8000
      else AllDigits(item[1..]) && word == DecimalValue(item[1..]) && word < 0x8000
  }

  /** A successful run emits one word per instruction, in order, each the
      encoding of its instruction under the final table. */
  lemma {:induction false} TranslateWords(items: seq<string>, st: TranslatorState)
    ensures var t := Translate(items, st);
      t.words.Ok? ==>
        |t.words.value| == |items|
        && forall i :: 0 <= i < |items| ==> Encodes(items[i], t.state.table, t.words.value[i])
  {
    var t := Translate(items, st);
    if items != [] && t.words.Ok? {
      var item := items[0];
      var first := Step(item, st);
      var rest := Translate(items[1..], first.state);
      TranslateWords(items[1..], first.state);
      TranslatePreservesBindings(items[1..], first.state);
      assert Encodes(item, first.state.table, first.word.value);
      assert Encodes(item, t.state.table, t.words.value[0]);
      forall i | 1 <= i < |items|
        ensures Encodes(items[i], t.state.table, t.words.value[i])
      {
        assert items[i] == items[1..][i - 1];
        assert t.words.value[i] == rest.words.value[i - 1];
      }
    }
  }

  /** A run fails exactly when some instruction fails in the state the
      instructions before it leave. */
  lemma {:induction false} TranslateFailsIffSomeStepFails(items: seq<string>, st: TranslatorState)
    ensures Translate(items, st).words.Err? <==>
      exists i :: 0 <= i < |items| && Step(items[i], Translate(items[..i], st).state).word.Err?
  {
    if Translate(items, st).words.Err? {
      FailureFound(items, st);
    }
    if exists i :: 0 <= i < |items| && Step(items[i], Translate(items[..i], st).state).word.Err? {
      var i :| 0 <= i < |items| && Step(items[i], Translate(items[..i], st).state).word.Err?;
      FailureReported(items, st, i);
    }
  }

  /** A failed run has an instruction that fails where the run reaches it. */
  lemma {:induction false} FailureFound(items: seq<string>, st: TranslatorState)
    requires Translate(items, st).words.Err?
    ensures exists i :: 0 <= i < |items| && Step(items[i], Translate(items[..i], st).state).word.Err?
  {
    assert items != [];
    var first := Step(items[0], st);
    assert items[..0] == [];
    if first.word.Err? {
      assert Step(items[0], Translate(items[..0], st).state).word.Err?;
    } else {
      FailureFound(items[1..], first.state);
      var j :| 0 <= j < |items[1..]| && Step(items[1..][j], Translate(items[1..][..j], first.state).state).word.Err?;
      FailureShifted(items, st, j);
    }
  }

  /** A failure one position into the rest of the run is a failure of the
      whole run at the next position. */
  lemma FailureShifted(items: seq<string>, st: TranslatorState, j: nat)
    requires j + 1 < |items| && Step(items[0], st).word.Ok?
    requires Step(items[1..][j], Translate(items[1..][..j], Step(items[0], st).state).state).word.Err?
    ensures Step(items[j + 1], Translate(items[..j + 1], st).state).word.Err?
  {
    PrefixAfterFirst(items, j + 1, st);
    assert items[1..][j] == items[j + 1];
  }

  /** An instruction that fails where the run reaches it fails the run. */
  lemma {:induction false} FailureReported(items: seq<string>, st: TranslatorState, i: nat)
    requires i < |items| && Step(items[i], Translate(items[..i], st).state).word.Err?
    ensures Translate(items, st).words.Err?
  {
    assert items[..0] == [];
    var first := Step(items[0], st);
    if i > 0 && first.word.Ok? {
      PrefixAfterFirst(items, i, st);
      assert items[1..][i - 1] == items[i];
      FailureReported(items[1..], first.state, i - 1);
    }
  }

  /** A run stops at its first failing instruction: the run's error is that
      instruction's error, and the state it leaves is the state that
      instruction leaves. */
  lemma {:induction false} TranslateStopsAtFirstFailure(items: seq<string>, st: TranslatorState, i: nat)
    requires i < |items|
    requires forall m :: 0 <= m < i ==> Step(items[m], Translate(items[..m], st).state).word.Ok?
    requires Step(items[i], Translate(items[..i], st).state).word.Err?
    ensures var e := Step(items[i], Translate(items[..i], st).state);
      Translate(items, st) == Translated(Err(e.word.error), e.state)
  {
    assert items[..0] == [];
    var first := Step(items[0], st);
    if i > 0 {
      assert Step(items[0], Translate(items[..0], st).state).word.Ok?;
      forall m | 0 <= m < i - 1
        ensures Step(items[1..][m], Translate(items[1..][..m], first.state).state).word.Ok?
      {
        PrefixAfterFirst(items, m + 1, st);
        assert items[1..][m] == items[m + 1];
      }
      PrefixAfterFirst(items, i, st);
      assert items[1..][i - 1] == items[i];
      TranslateStopsAtFirstFailure(items[1..], first.state, i - 1);
    }
  }

  /** After a first step that succeeds, the state after the first i
      instructions is the state the next i - 1 leave from there. */
  lemma PrefixAfterFirst(items: seq<string>, i: nat, st: TranslatorState)
    requires 1 <= i <= |items| && Step(items[0], st).word.Ok?
    ensures Translate(items[..i], st).state == Translate(items[1..][..i - 1], Step(items[0], st).state).state
  {
    assert items[..i][0] == items[0];
    assert items[..i][1..] == items[1..][..i - 1];
  }

  /** An all-digit A-operand n encodes to n with bit 15 clear, so its high
      byte is below 128; n > 32767 fails with an overflow. */
  lemma LiteralACommand(item: string, st: TranslatorState)
    requires CommandTypeIs(item) == Ok(A) && !IsVariable(item)
    ensures AllDigits(item[1..])
    ensures var e := Step(item, st);
      var n := DecimalValue(item[1..]);
      e.state == st
      && (e.word.Err? <==> n > 32767)
      && (e.word.Err? ==> e.word.error == Overflow(n))
      && (e.word.Ok? ==> e.word.value == n && ConvertToBytes(n)[1] < 128 && ConvertToBytes(n)[0] == n % 256)
  {
    var n := DecimalValue(item[1..]);
    if n < 0x8000 {
      assert n % 0x10000 == n;
      BytesOfWord(n);
    }
  }

  /** An L-command never allocates; it fails exactly when the label is
      unbound. */
  lemma LabelCommand(item: string, st: TranslatorState)
    requires CommandTypeIs(item) == Ok(L)
    ensures var e := Step(item, st);
      e.state == st
      && (item[1..] !in st.table ==> e.word == Err(SymbolNotFound(item[1..])))
      && (item[1..] in st.table && -0x8000 <= st.table[item[1..]] < 0x8000 ==> e.word == Ok(st.table[item[1..]]))
  {
  }

  // ---------------------------------------------------------------------
  // The translator object
  // ---------------------------------------------------------------------

  class Translator {
    const symbols: SymbolTable
    var variableBaseAddress: int

    constructor (symbolTable: SymbolTable)
      ensures symbols == symbolTable && variableBaseAddress == 16
    {
      symbols := symbolTable;
      variableBaseAddress := 16;
    }

    function State(): TranslatorState
      reads this, symbols
    {
      TranslatorState(symbols.symbols, variableBaseAddress)
    }

    /** One word per instruction, as two bytes, in order; the first failure
        aborts the run, leaving the state as it was at that point. */
    method ConvertInstructionsToBinary(instructions: seq<string>) returns (r: Result<seq<seq<byte>>>)
      modifies this, symbols
      ensures State() == Translate(instructions, old(State())).state
      ensures r == Output(Translate(instructions, old(State())))
    {
      var result: seq<seq<byte>> := [];
      ghost var words: seq<int> := [];
      var i := 0;
      assert instructions[i..] == instructions;
      ContinueEmpty(Translate(instructions, State()));
      while i < |instructions|
        invariant 0 <= i <= |instructions|
        invariant result == ToBytes(words)
        invariant Translate(instructions, old(State())) == Continue(words, Translate(instructions[i..], State()))
      {
        var item := instructions[i];
        ghost var st := State();
        TranslateCons(instructions, i, st);
        var cmd := CommandTypeIs(item);
        if cmd.Err? {
          return Err(cmd.error);
        }
        var word: Result<int>;
        match cmd.value {
          case A =>
            word := ConvertACmd(item);
          case C =>
            word := ConvertCCmd(item);
          case L =>
            word := ConvertLCmd(item, symbols.symbols);
        }
        if word.Err? {
          return Err(word.error);
        }
        ContinueAppend(words, [word.value], Translate(instructions[i + 1..], State()));
        ToBytesAppend(words, word.value);
        result := result + [ConvertToBytes(word.value)];
        words := words + [word.value];
        i := i + 1;
      }
      assert instructions[i..] == [] && words + [] == words;
      r := Ok(result);
    }

    method ConvertACmd(item: string) returns (r: Result<int>)
      requires CommandTypeIs(item) == Ok(A)
      modifies this, symbols
      ensures Emitted(r, State()) == ACmdStep(item, old(State()))
    {
      if IsVariable(item) {
        var name := item[1..];
        if !symbols.Contains(name) {
          symbols.AddEntry(name, variableBaseAddress);
          variableBaseAddress := variableBaseAddress + 1;
        }
        var address := symbols.GetAddress(name);
        return ToInt16(address.value);
      }
      var digits := item[1..];
      return ParseInt16(digits);
    }
  }
}
