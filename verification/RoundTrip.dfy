/** Printing an instruction with any layout and parsing it back. */
module RoundTrip {
  import opened Uapi
  import opened Isa
  import opened Driver
  import opened Numerals
  import opened LineText
  import opened Parser
  import opened Source

  // ---- stripping comments and commas ----

  /** A text without a character stays so when it is put together. */
  predicate Lacks(s: string, c: char) {
    forall k :: 0 <= k < |s| ==> s[k] != c
  }

  lemma LacksConcat(s: string, t: string, c: char)
    requires Lacks(s, c) && Lacks(t, c)
    ensures Lacks(s + t, c)
  {}

  lemma {:induction false} LacksSpaces(k: nat, c: char)
    requires c != ' '
    ensures Lacks(Spaces(k), c)
  {
    if k > 0 { LacksSpaces(k - 1, c); }
  }

  lemma LacksPlain(t: string, c: char)
    requires Plain(t) && Separates(c)
    ensures Lacks(t, c)
  {}

  lemma StripAfter(s: string, comment: string)
    requires Lacks(s, ';') && (comment == "" || comment[0] == ';')
    ensures StripComment(s + comment) == s
  {
    FindIs(s + comment, 0, {';'}, |s|);
  }

  lemma CommaReplaced(p: string, q: string)
    requires Lacks(p, ',')
    ensures ReplaceComma(p + ("," + q)) == p + (" " + q)
  {
    FindIs(p + ("," + q), 0, {','}, |p|);
  }

  lemma NoCommaReplaced(s: string)
    requires Lacks(s, ',')
    ensures ReplaceComma(s) == s
  {
    FindIs(s, 0, {','}, |s|);
  }

  lemma EndingLacks(l: Layout, c: char)
    requires c != ' ' && c != '\n'
    ensures Lacks(Ending(l), c)
  {
    LacksSpaces(l.trail, c);
  }

  /** What stands between two operands once the comma is a space. */
  function Gap(l: Layout): nat { if l.comma then l.before + l.after else l.after }

  /** The fields with the comma replaced. */
  function Spaced(i: Instr, l: Layout): string {
    Spaces(l.lead) + (Mnemonic(i) + (Spaces(l.gap + 1) + (FirstText(i) +
      match SecondText(i)
      case None => Ending(l)
      case Some(t) => Spaces(Gap(l) + 1) + (t + Ending(l)))))
  }

  lemma {:induction false} SpacesJoin(a: nat, b: nat)
    ensures Spaces(a) + (" " + Spaces(b)) == Spaces(a + b + 1)
  {
    if a > 0 { SpacesJoin(a - 1, b); }
  }

  lemma Pull(a: string, b: string, c: string, d: string, s: string, r: string)
    ensures a + (b + (c + (d + (s + r)))) == (a + (b + (c + (d + s)))) + r
  {
    assert d + (s + r) == (d + s) + r;
    assert c + ((d + s) + r) == (c + (d + s)) + r;
    assert b + ((c + (d + s)) + r) == (b + (c + (d + s))) + r;
  }

  lemma PullComma(s: string, x: char, a: string, r: string)
    ensures (s + ([x] + a)) + r == s + ([x] + (a + r))
  {}

  /** Four pieces, the last before a comma that a space replaces. */
  lemma ReplaceIn(a: string, b: string, c: string, d: string, s: string, t: string, r: string)
    requires Lacks(a, ',') && Lacks(b, ',') && Lacks(c, ',') && Lacks(d, ',') && Lacks(s, ',')
    ensures ReplaceComma(a + (b + (c + (d + ((s + ("," + t)) + r))))) == a + (b + (c + (d + ((s + (" " + t)) + r))))
  {
    hide *;
    var p := a + (b + (c + (d + s)));
    LacksConcat(d, s, ',');
    LacksConcat(c, d + s, ',');
    LacksConcat(b, c + (d + s), ',');
    LacksConcat(a, b + (c + (d + s)), ',');
    PullComma(s, ',', t, r);
    PullComma(s, ' ', t, r);
    Pull(a, b, c, d, s, "," + (t + r));
    Pull(a, b, c, d, s, " " + (t + r));
    CommaReplaced(p, t + r);
  }

  lemma LacksFive(a: string, b: string, c: string, d: string, r: string, x: char)
    requires Lacks(a, x) && Lacks(b, x) && Lacks(c, x) && Lacks(d, x) && Lacks(r, x)
    ensures Lacks(a + (b + (c + (d + r))), x)
  {
    hide *;
    LacksConcat(d, r, x);
    LacksConcat(c, d + r, x);
    LacksConcat(b, c + (d + r), x);
    LacksConcat(a, b + (c + (d + r)), x);
  }

  /** Everything before what follows the first operand. */
  lemma HeadLacks(i: Instr, l: Layout, c: char)
    requires WellWritten(i) && Separates(c) && c != ' '
    ensures Lacks(Spaces(l.lead), c) && Lacks(Mnemonic(i), c) && Lacks(Spaces(l.gap + 1), c) && Lacks(FirstText(i), c)
    ensures c != '\n' ==> Lacks(Ending(l), c)
    ensures SecondText(i).Some? ==> Lacks(SecondText(i).value, c)
  {
    PlainFields(i);
    LacksSpaces(l.lead, c);
    LacksSpaces(l.gap + 1, c);
    LacksPlain(Mnemonic(i), c);
    LacksPlain(FirstText(i), c);
    if SecondText(i).Some? { LacksPlain(SecondText(i).value, c); }
    if c != '\n' { EndingLacks(l, c); }
  }

  /** The parser's comma replacement leaves the fields apart by spaces alone. */
  lemma CommaBecomesSpace(i: Instr, l: Layout)
    requires WellWritten(i)
    ensures ReplaceComma(Fielded(i, l)) == Spaced(i, l)
  {
    hide Spaces, Mnemonic, FirstText, SecondText, ReplaceComma, Ending, Lacks;
    HeadLacks(i, l, ',');
    var a, b, c, d := Spaces(l.lead), Mnemonic(i), Spaces(l.gap + 1), FirstText(i);
    if SecondText(i).Some? {
      var t := SecondText(i).value;
      if l.comma {
        LacksSpaces(l.before, ',');
        SpacesJoin(l.before, l.after);
        ReplaceIn(a, b, c, d, Spaces(l.before), Spaces(l.after), t + Ending(l));
      } else {
        LacksSpaces(l.after + 1, ',');
        LacksConcat(t, Ending(l), ',');
        LacksConcat(Spaces(l.after + 1), t + Ending(l), ',');
        LacksFive(a, b, c, d, Spaces(l.after + 1) + (t + Ending(l)), ',');
        NoCommaReplaced(Fielded(i, l));
      }
    } else {
      LacksFive(a, b, c, d, Ending(l), ',');
      NoCommaReplaced(Fielded(i, l));
    }
  }

  /** The fields hold no comment and no colon. */
  lemma FieldsLack(i: Instr, l: Layout, x: char)
    requires WellWritten(i) && (x == ';' || x == ':' || x == 0 as char)
    ensures Lacks(Fielded(i, l), x)
  {
    hide Spaces, Mnemonic, FirstText, SecondText, Ending, Lacks;
    HeadLacks(i, l, x);
    if SecondText(i).Some? {
      var t := SecondText(i).value;
      SeparatorLacks(l, x);
      LacksConcat(t, Ending(l), x);
      LacksConcat(
        if l.comma then Spaces(l.before) + ("," + Spaces(l.after)) else Spaces(l.after + 1), t + Ending(l), x);
    }
    LacksFive(Spaces(l.lead), Mnemonic(i), Spaces(l.gap + 1), FirstText(i), AfterFirst(i, l), x);
  }

  lemma SeparatorLacks(l: Layout, x: char)
    requires x != ' ' && x != ','
    ensures Lacks(if l.comma then Spaces(l.before) + ("," + Spaces(l.after)) else Spaces(l.after + 1), x)
  {
    LacksSpaces(l.before, x);
    LacksSpaces(l.after, x);
    LacksSpaces(l.after + 1, x);
  }

  /** What the parser is given: the fields without the comment. */
  lemma CommentStripped(i: Instr, l: Layout)
    requires WellWritten(i)
    ensures StripComment(Render(Code(i, l))) == Fielded(i, l) && Lacks(Fielded(i, l), ':')
  {
    FieldsLack(i, l, ';');
    FieldsLack(i, l, ':');
    var c := CommentText(l.comment, l.newline);
    assert c == "" || c[0] == ';';
    StripAfter(Fielded(i, l), c);
  }

  // ---- splitting ----

  /** The fields the parser finds. A lone operand is found in the last place, or in the
      middle one when a space follows it. */
  function FieldsOf(i: Instr, l: Layout): Fields {
    match SecondText(i)
    case Some(t) => Fields(Some(Mnemonic(i)), Some(FirstText(i)), Some(t))
    case None =>
      if l.trail == 0 then Fields(Some(Mnemonic(i)), None, Some(FirstText(i)))
      else Fields(Some(Mnemonic(i)), Some(FirstText(i)), None)
  }

  lemma PlainIsField(t: string)
    requires Plain(t)
    ensures IsField(t)
  {}

  lemma EndingEnds(l: Layout)
    ensures Ends(Ending(l))
    ensures l.trail == 0 ==> Ending(l) == "" || Ending(l) == "\n"
    ensures l.trail > 0 ==> exists end :: (end == "" || end == "\n") && Ending(l) == Spaces(l.trail) + end
  {
    var end := if l.comment.None? then Newline(l.newline) else "";
    if l.trail == 0 {
      assert Ending(l) == end;
    } else {
      assert Ending(l) == Spaces(l.trail) + end;
    }
  }

  lemma {:induction false} FieldsFound(i: Instr, l: Layout)
    requires WellWritten(i)
    ensures DropSpacesAt(Spaced(i, l), 0) != "" && Split(Spaced(i, l)) == FieldsOf(i, l)
  {
    hide Spaces, Mnemonic, FirstText, SecondText, Ending, Split, DropSpacesAt, Plain, IsField;
    PlainFields(i);
    PlainIsField(Mnemonic(i));
    PlainIsField(FirstText(i));
    EndingEnds(l);
    match SecondText(i)
    case Some(t) =>
      PlainIsField(t);
      SplitThree(l.lead, Mnemonic(i), l.gap, FirstText(i), Gap(l), t, Ending(l));
    case None =>
      if l.trail == 0 {
        SplitTwo(l.lead, Mnemonic(i), l.gap, FirstText(i), Ending(l));
      } else {
        var end :| (end == "" || end == "\n") && Ending(l) == Spaces(l.trail) + end;
        SplitTwoSpaced(l.lead, Mnemonic(i), l.gap, FirstText(i), l.trail - 1, end);
      }
  }

  // ---- parsing ----

  /** The opcode that cpu_uapi.h gives a mnemonic. */
  function OpcodeOf(mnemonic: string): Byte {
    if mnemonic == "ADD" then 0x00
    else if mnemonic == "SUB" then 0x01
    else if mnemonic == "AND" then 0x02
    else if mnemonic == "OR" then 0x03
    else if mnemonic == "NOT" then 0x04
    else if mnemonic == "MOV" then 0x10
    else if mnemonic == "CMP" then 0x20
    else if mnemonic == "JMP" then 0x21
    else if mnemonic == "JE" then 0x22
    else if mnemonic == "JG" then 0x23
    else if mnemonic == "JL" then 0x24
    else 0xFF
  }

  function OperandMode(src: Operand): Byte { if src.Number? then 0 else 1 }

  function OperandWord(src: Operand): Word { if src.Number? then src.numeral.Value(10) else src.reg }

  /** The encoding of an instruction in numbers: its mnemonic's opcode, mode and the
      operands it means. NOT and the jumps have no first operand. */
  predicate Encodes(raw: Raw, i: Instr, labels: map<string, Word>) {
    raw.opcode == OpcodeOf(Mnemonic(i)) &&
    match i
    case Arith(_, rd, src) => raw.mode == OperandMode(src) && raw.operand1 == rd && raw.operand2 == OperandWord(src)
    case Move(rd, src) => raw.mode == OperandMode(src) && raw.operand1 == rd && raw.operand2 == OperandWord(src)
    case Test(rd, src) => raw.mode == OperandMode(src) && raw.operand1 == rd && raw.operand2 == OperandWord(src)
    case Invert(rd) => raw.mode == 1 && raw.operand2 == rd
    case LoadFrom(rd, at) => raw.mode == 2 && raw.operand1 == rd && raw.operand2 == at.Value(16)
    case StoreTo(rs, at) => raw.mode == 3 && raw.operand1 == rs && raw.operand2 == at.Value(16)
    case JumpTo(_, target) => target in labels && raw.mode == 4 && raw.operand2 == labels[target]
  }

  lemma StartOf(i: Instr)
    ensures var mode := if i.Invert? then REGISTER else if i.JumpTo? then LABEL else UINT8_MAX;
      Start(Mnemonic(i)) == Raw(OpcodeOf(Mnemonic(i)), mode, UINT8_MAX, UINT64_MAX)
    ensures IsJump(Mnemonic(i)) == i.JumpTo?
  {}

  lemma RegisterReadsBack(r: RegIdx)
    ensures RegisterNumber(RegisterText(r)) == Some(r)
  {}

  lemma NotARegister(t: string)
    requires t != "" && t[0] != 'R'
    ensures RegisterNumber(t) == None
  {
    assert "R0"[0] == 'R' && "R1"[0] == 'R' && "R2"[0] == 'R' && "R3"[0] == 'R';
  }

  lemma NumberReadsBack(n: Numeral)
    requires n.Ok(10)
    ensures RegisterNumber(n.Text()) == None && !Bracketed(n.Text()) && ParseInt(n.Text()) == Some(n.Value(10))
  {
    hide StrToULL, Numeral.Text, Numeral.Value, Numeral.Ok;
    PlainNumeral(n, 10);
    NotARegister(n.Text());
    ReadsBack(n, 10);
  }

  lemma OperandReadsBack(raw: Raw, src: Operand)
    requires raw.mode == UINT8_MAX && OperandOk(src)
    ensures DefaultMode(WithOperand2(raw, OperandText(src)))
      == raw.(mode := OperandMode(src), operand2 := OperandWord(src))
  {
    hide RegisterNumber, Bracketed, ParseInt, Numeral.Text, Numeral.Value, Numeral.Ok;
    match src
    case Number(n) => NumberReadsBack(n);
    case Register(r) => RegisterReadsBack(r);
  }

  lemma AddressReadsBack(raw: Raw, at: Numeral)
    requires at.Ok(16)
    ensures WithOperand2(raw, AddressText(at)) == raw.(mode := DIRECT_LOAD, operand2 := at.Value(16))
    ensures WithOperand1(raw, AddressText(at))
      == raw.(mode := DIRECT_STORE, operand1 := raw.operand2 % 256, operand2 := at.Value(16))
  {
    hide StrToULL, Numeral.Text, Numeral.Value, Numeral.Ok, AddressText, RegisterNumber;
    PlainAddress(at);
    NotARegister(AddressText(at));
    ReadsBack(at, 16);
  }

  /** Parsing the fields gives the instruction's encoding. */
  lemma FieldsParse(i: Instr, l: Layout, labels: map<string, Word>)
    requires WellWritten(i) && (i.JumpTo? ==> i.target in labels)
    ensures HasOperand(FieldsOf(i, l)) && Encodes(ParseFields(FieldsOf(i, l), labels), i, labels)
  {
    hide Mnemonic, Start, OpcodeOf, RegisterNumber, RegisterText, OperandText, AddressText, WithOperand2,
      Numeral.Value, Numeral.Ok;
    StartOf(i);
    var start := Start(Mnemonic(i));
    match i
    case Arith(_, rd, src) => TwoOperands(start, rd, src);
    case Move(rd, src) => TwoOperands(start, rd, src);
    case Test(rd, src) => TwoOperands(start, rd, src);
    case Invert(rd) => OneRegister(start, rd);
    case LoadFrom(rd, at) =>
      AddressReadsBack(start, at);
      RegisterReadsBack(rd);
    case StoreTo(rs, at) =>
      OneRegister(start, rs);
      AddressReadsBack(start.(operand2 := rs), at);
    case JumpTo(_, _) =>
  }

  lemma OneRegister(raw: Raw, r: RegIdx)
    ensures WithOperand2(raw, RegisterText(r)) == raw.(operand2 := r)
    ensures WithOperand1(raw, RegisterText(r)) == raw.(operand1 := r)
  {
    RegisterReadsBack(r);
  }

  lemma TwoOperands(start: Raw, rd: RegIdx, src: Operand)
    requires start.mode == UINT8_MAX && OperandOk(src)
    ensures DefaultMode(WithOperand1(WithOperand2(start, OperandText(src)), RegisterText(rd)))
      == start.(mode := OperandMode(src), operand1 := rd, operand2 := OperandWord(src))
  {
    OperandReadsBack(start, src);
    OneRegister(WithOperand2(start, OperandText(src)), rd);
  }

  /** Parsing a laid-out instruction gives back its encoding, whatever the layout. */
  lemma {:induction false} ParsePrinted(i: Instr, l: Layout, labels: map<string, Word>)
    requires WellWritten(i) && (i.JumpTo? ==> i.target in labels)
    ensures var text := StripComment(Render(Code(i, l)));
      Parsable(text) && Encodes(ParseText(text, labels), i, labels)
  {
    hide Encodes, ParseFields, Fielded, Spaced, FieldsOf, Split, ReplaceComma, DropSpacesAt, StripComment, Render;
    CommentStripped(i, l);
    CommaBecomesSpace(i, l);
    FieldsFound(i, l);
    FieldsParse(i, l, labels);
  }

  // ---- what the encoding means ----

  function SrcOf(src: Operand): Src {
    match src
    case Number(n) => Imm(n.Value(10))
    case Register(r) => FromReg(r)
  }

  /** The operation an instruction stands for; the addresses from MMIO_START on reach
      the devices, or nothing. */
  function OpOf(i: Instr, labels: map<string, Word>): Option<Op> {
    match i
    case Arith(f, rd, src) => Some(Bin(f, rd, SrcOf(src)))
    case Invert(rd) => Some(Op.Not(rd))
    case Move(rd, src) => Some(Mov(rd, SrcOf(src)))
    case Test(rd, src) => Some(Cmp(rd, SrcOf(src)))
    case LoadFrom(rd, at) =>
      var addr := at.Value(16);
      if addr < MMIO_START then Some(Load(rd, addr)) else if addr == MMIO_INPUT then Some(In(rd)) else None
    case StoreTo(rs, at) =>
      var addr := at.Value(16);
      if addr < MMIO_START then Some(Op.Store(rs, addr))
      else if addr == MMIO_OUTPUT then Some(Out(rs))
      else if addr == MMIO_HALT then Some(Halt)
      else None
    case JumpTo(cond, target) => if target in labels then Some(Jump(cond, labels[target])) else None
  }

  /** The CPU decodes an encoding to the operation the instruction stands for, and the
      memory modes name one of its registers. */
  lemma {:induction false} EncodingDecodes(raw: Raw, i: Instr, labels: map<string, Word>)
    requires Encodes(raw, i, labels)
    ensures Decode(raw) == OpOf(i, labels) && RegisterNamed(raw)
  {
    hide Numeral.Value;
  }

  // ---- which kind of line the assembler sees ----

  lemma {:induction false} IndentedNotEmpty(k: nat, t: string)
    requires t != "" && t[0] != ' ' && t[0] != '\n' && t[0] != ';'
    ensures !IsEmpty(Spaces(k) + t)
  {
    if k == 0 {
      assert Spaces(k) + t == t;
    } else {
      IndentedNotEmpty(k - 1, t);
      assert (Spaces(k) + t)[1..] == Spaces(k - 1) + t;
    }
  }

  lemma {:induction false} IndentedEmpty(k: nat, t: string)
    requires t == "" || t == "\n" || t[0] == ';'
    ensures IsEmpty(Spaces(k) + t)
  {
    if k == 0 {
      assert Spaces(k) + t == t;
    } else {
      IndentedEmpty(k - 1, t);
      assert (Spaces(k) + t)[1..] == Spaces(k - 1) + t;
    }
  }

  lemma BlankIsEmpty(indent: nat, comment: Option<string>, newline: bool)
    ensures IsEmpty(Render(Blank(indent, comment, newline)))
  {
    IndentedEmpty(indent, if comment.None? then Newline(newline) else CommentText(comment, newline));
  }

  lemma CodeIsNotEmpty(i: Instr, l: Layout)
    ensures !IsEmpty(Render(Code(i, l)))
  {
    var rest := Spaces(l.gap + 1) + (FirstText(i) + AfterFirst(i, l));
    var c := CommentText(l.comment, l.newline);
    MnemonicLetter(i);
    Regroup3(Spaces(l.lead), Mnemonic(i), rest, c);
    FirstOf(Mnemonic(i), rest + c);
    IndentedNotEmpty(l.lead, Mnemonic(i) + (rest + c));
  }

  lemma Regroup3(a: string, b: string, c: string, d: string)
    ensures (a + (b + c)) + d == a + (b + (c + d))
  {}

  lemma FirstOf(a: string, b: string)
    requires a != ""
    ensures a + b != "" && (a + b)[0] == a[0]
  {}

  lemma MnemonicLetter(i: Instr)
    ensures Mnemonic(i) != "" && 'A' <= Mnemonic(i)[0] <= 'Z'
  {}

  /** A label line is not empty, and its name is what stands before the first colon of
      what is left of it without a comment. */
  lemma LabelSeen(name: string, rest: string)
    requires Plain(name)
    ensures var line := Render(Label(name, rest)); var text := StripComment(line); var at := Find(text, 0, {':'});
      !IsEmpty(line) && at < |text| && text[..at] == name
  {
    var line := name + (":" + rest);
    assert line[0] == name[0];
    var cut := Find(line, 0, {';'});
    forall j | 0 <= j <= |name| ensures line[j] != ';' {
      assert line[j] == if j < |name| then name[j] else ':';
    }
    assert cut > |name|;
    var text := line[..cut];
    assert text[|name|] == ':';
    FindIs(text, 0, {':'}, |name|);
    assert text[..|name|] == name;
  }

  lemma NoColonSeen(s: string)
    requires Lacks(s, ':')
    ensures Find(s, 0, {':'}) == |s|
  {}
}
