/** Two of the repository's own programs, line for line, are well-formed. */
module AsmExample {
  import opened Isa
  import opened Numerals
  import opened Source
  import opened SourceRuns
  import opened LineText
  import opened CString
  import opened RoundTrip
  import opened AsmCorrect

  function Plainly(lead: nat, comment: Option<string>, newline: bool): Layout {
    Layout(lead, 0, true, 0, 1, 0, comment, newline)
  }

  function Decimal(digits: string): Operand { Number(Numeral(NoSign, NoPrefix, digits)) }

  function Hex(digits: string): Numeral { Numeral(NoSign, LowerX, digits) }

  /** A loop that counts in R0 for ever. */
  function InfiniteLoop(): seq<Line> {
    [ Code(Move(0, Decimal("1")), Plainly(0, None, true)),
      Blank(0, None, true),
      Label("LOOP", "\n"),
      Code(Test(0, Register(1)), Plainly(4, None, true)),
      Code(Arith(Add, 0, Decimal("1")), Plainly(4, None, true)),
      Code(JumpTo(IfGreater, "LOOP"), Plainly(4, None, true)) ]
  }

  function InfiniteLoopText(): seq<string> {
    [ "MOV R0, 1\n",
      "\n",
      "LOOP:\n",
      "    CMP R0, R1\n",
      "    ADD R0, 1\n",
      "    JG LOOP\n" ]
  }

  const WRITE_ONE := " Upisi 1 u registar 0"
  const TO_DIODE := " Upisi vrijednost registra 0 " + "u MMIO adresu za output diodu"
  const READ_BUTTON := " Procitaj vrijednost dugmeta"
  const MINUS_ONE := " Oduzmi vrijednost registra 0 sa 1"

  /** Device output and input, with upper-case addresses and comments; the last line has
      no newline. */
  function Devices(): seq<Line> {
    [ Code(Move(0, Decimal("1")), Plainly(0, Some(WRITE_ONE), true)),
      Code(StoreTo(0, Hex("FFFE")), Plainly(0, Some(TO_DIODE), true)),
      Code(LoadFrom(0, Hex("FFFD")), Plainly(0, Some(READ_BUTTON), true)),
      Code(Arith(Sub, 0, Decimal("1")), Plainly(0, Some(MINUS_ONE), true)),
      Code(StoreTo(0, Hex("FFFE")), Plainly(0, Some(TO_DIODE), false)) ]
  }

  function DevicesText(): seq<string> {
    [ "MOV R0, 1" + (";" + WRITE_ONE + "\n"),
      "MOV [0xFFFE], R0" + (";" + TO_DIODE + "\n"),
      "MOV R0, [0xFFFD]" + (";" + READ_BUTTON + "\n"),
      "SUB R0, 1" + (";" + MINUS_ONE + "\n"),
      "MOV [0xFFFE], R0" + (";" + TO_DIODE + "") ]
  }

  lemma Indent()
    ensures Spaces(0) == "" && Spaces(1) == " " && Spaces(4) == "    "
  {
    assert Spaces(2) == "  " && Spaces(3) == "   ";
  }

  lemma NumeralValues()
    ensures Numeral(NoSign, NoPrefix, "1").Ok(10)
    ensures Hex("FFFE").Ok(16) && Hex("FFFE").Value(16) == 0xFFFE
    ensures Hex("FFFD").Ok(16) && Hex("FFFD").Value(16) == 0xFFFD
  {
    NumberAppend("FFF", 'E', 16);
    NumberAppend("FFF", 'D', 16);
    NumberAppend("FF", 'F', 16);
    NumberAppend("F", 'F', 16);
    assert "FFF" + ['E'] == "FFFE" && "FFF" + ['D'] == "FFFD" && "FF" + ['F'] == "FFF" && "F" + ['F'] == "FF";
    OneDigit('F', 16);
    OneDigit('1', 10);
    assert ['F'] == "F" && ['1'] == "1";
  }

  /** What stands before a comment on a line laid out like these. */
  function Head(i: Instr, lead: nat): string {
    Spaces(lead) + Mnemonic(i) + " " + FirstText(i) +
    match SecondText(i)
    case None => ""
    case Some(t) => ", " + t
  }

  function Rest(comment: Option<string>, newline: bool): string {
    match comment
    case None => Newline(newline)
    case Some(c) => ";" + c + Newline(newline)
  }

  lemma Flat(a: string, b: string, c: string, d: string, e: string)
    ensures a + (b + (c + (d + e))) == a + b + c + d + e
  {}

  lemma AfterOperand(i: Instr, l: Layout)
    requires l == Plainly(l.lead, l.comment, l.newline)
    ensures AfterFirst(i, l) == (match SecondText(i) case None => "" case Some(t) => ", " + t)
      + if l.comment.None? then Newline(l.newline) else ""
  {
    hide SecondText;
    Indent();
  }

  lemma Regrouped(f: string, g: string, e: string, c: string)
    ensures (f + (g + e)) + c == (f + g) + (e + c)
  {}

  lemma CodeLine(i: Instr, lead: nat, comment: Option<string>, newline: bool)
    ensures Render(Code(i, Plainly(lead, comment, newline))) == Head(i, lead) + Rest(comment, newline)
  {
    hide Mnemonic, FirstText, SecondText, Spaces, AfterFirst;
    var l := Plainly(lead, comment, newline);
    Indent();
    AfterOperand(i, l);
    Flat(Spaces(lead), Mnemonic(i), Spaces(1), FirstText(i), AfterFirst(i, l));
    var second := match SecondText(i) case None => "" case Some(t) => ", " + t;
    var ending := if comment.None? then Newline(newline) else "";
    Regrouped(Spaces(lead) + Mnemonic(i) + Spaces(1) + FirstText(i), second, ending, CommentText(comment, newline));
    EndingAndComment(comment, newline);
  }

  lemma EndingAndComment(comment: Option<string>, newline: bool)
    ensures (if comment.None? then Newline(newline) else "") + CommentText(comment, newline) == Rest(comment, newline)
  {}

  /** Such a line is readable if its fields and its comment are short. */
  lemma CodeReadable(i: Instr, lead: nat, comment: Option<string>, newline: bool)
    requires WellWritten(i) && lead <= 4 && |FirstText(i)| <= 20
      && (SecondText(i).Some? ==> |SecondText(i).value| <= 20)
    requires comment.Some? ==> |comment.value| <= 100 && Lacks(comment.value, NUL)
    ensures LineOk(Code(i, Plainly(lead, comment, newline)))
  {
    hide Spaces, Mnemonic, FirstText, SecondText;
    var l := Plainly(lead, comment, newline);
    FieldsLack(i, l, NUL);
    ShortMnemonic(i);
    assert Lacks(Render(Code(i, l)), NUL);
  }

  lemma ShortMnemonic(i: Instr)
    ensures |Mnemonic(i)| <= 3
  {}

  lemma HeadMoveOne() ensures Head(Move(0, Decimal("1")), 0) == "MOV R0, 1" { Indent(); }

  lemma HeadCompare() ensures Head(Test(0, Register(1)), 4) == "    CMP R0, R1" { Indent(); }

  lemma HeadAddOne() ensures Head(Arith(Add, 0, Decimal("1")), 4) == "    ADD R0, 1" { Indent(); }

  lemma HeadBranch() ensures Head(JumpTo(IfGreater, "LOOP"), 4) == "    JG LOOP" { Indent(); }

  lemma HeadSubtractOne() ensures Head(Arith(Sub, 0, Decimal("1")), 0) == "SUB R0, 1" { Indent(); }

  lemma HeadWrite() ensures Head(StoreTo(0, Hex("FFFE")), 0) == "MOV [0xFFFE], R0" { Indent(); }

  lemma HeadRead() ensures Head(LoadFrom(0, Hex("FFFD")), 0) == "MOV R0, [0xFFFD]" { Indent(); }

  /** One line of a program, given what stands before its comment. */
  lemma LineIs(i: Instr, lead: nat, comment: Option<string>, newline: bool, head: string)
    requires Head(i, lead) == head
    requires WellWritten(i) && lead <= 4 && |FirstText(i)| <= 20
      && (SecondText(i).Some? ==> |SecondText(i).value| <= 20)
    requires comment.Some? ==> |comment.value| <= 100 && Lacks(comment.value, NUL)
    ensures var line := Code(i, Plainly(lead, comment, newline));
      LineOk(line) && Render(line) == head + Rest(comment, newline)
  {
    hide *;
    CodeLine(i, lead, comment, newline);
    CodeReadable(i, lead, comment, newline);
  }

  lemma InfiniteLoopLine(k: nat)
    requires k < 6
    ensures Render(InfiniteLoop()[k]) == InfiniteLoopText()[k] && LineOk(InfiniteLoop()[k])
  {
    hide Head, Mnemonic;
    NumeralValues();
    if k == 0 {
      HeadMoveOne();
      LineIs(InfiniteLoop()[k].instr, 0, None, true, "MOV R0, 1");
    } else if k == 1 {
      Indent();
    } else if k == 3 {
      HeadCompare();
      LineIs(InfiniteLoop()[k].instr, 4, None, true, "    CMP R0, R1");
    } else if k == 4 {
      HeadAddOne();
      LineIs(InfiniteLoop()[k].instr, 4, None, true, "    ADD R0, 1");
    } else if k == 5 {
      HeadBranch();
      LineIs(InfiniteLoop()[k].instr, 4, None, true, "    JG LOOP");
    }
  }

  lemma CommentsReadable()
    ensures |WRITE_ONE| <= 100 && Lacks(WRITE_ONE, NUL)
    ensures |READ_BUTTON| <= 100 && Lacks(READ_BUTTON, NUL)
    ensures |MINUS_ONE| <= 100 && Lacks(MINUS_ONE, NUL)
  {
    assert NUL !in WRITE_ONE;
    assert NUL !in READ_BUTTON;
    assert NUL !in MINUS_ONE;
  }

  lemma LongCommentReadable()
    ensures |TO_DIODE| <= 100 && Lacks(TO_DIODE, NUL)
  {
    assert NUL !in TO_DIODE;
  }

  lemma DevicesLine(k: nat)
    requires k < 5
    ensures Render(Devices()[k]) == DevicesText()[k] && LineOk(Devices()[k])
  {
    hide Render, LineOk, Lacks, Head, WRITE_ONE, TO_DIODE, READ_BUTTON, MINUS_ONE;
    NumeralValues();
    CommentsReadable();
    LongCommentReadable();
    if k == 0 {
      HeadMoveOne();
      LineIs(Devices()[k].instr, 0, Some(WRITE_ONE), true, "MOV R0, 1");
    } else if k == 2 {
      HeadRead();
      LineIs(Devices()[k].instr, 0, Some(READ_BUTTON), true, "MOV R0, [0xFFFD]");
    } else if k == 3 {
      HeadSubtractOne();
      LineIs(Devices()[k].instr, 0, Some(MINUS_ONE), true, "SUB R0, 1");
    } else {
      HeadWrite();
      LineIs(Devices()[k].instr, 0, Some(TO_DIODE), k == 1, "MOV [0xFFFE], R0");
    }
  }

  lemma {:induction false} InfiniteLoopIsWellFormed()
    ensures Rendered(InfiniteLoop()) == InfiniteLoopText() && WellFormed(InfiniteLoop())
  {
    hide LineOk, Render;
    var prog := InfiniteLoop();
    forall k | 0 <= k < |prog| ensures Render(prog[k]) == InfiniteLoopText()[k] && LineOk(prog[k]) {
      InfiniteLoopLine(k);
    }
    assert LabelAt(prog, "LOOP", 2);
    assert CodeBefore(prog, 2) == 1 && CodeBefore(prog, 4) == 2 && CodeBefore(prog, 6) == 4;
  }

  lemma {:induction false} DevicesIsWellFormed()
    ensures Rendered(Devices()) == DevicesText() && WellFormed(Devices())
  {
    hide LineOk, Render, Numeral.Value, Numeral.Ok;
    var prog := Devices();
    forall k | 0 <= k < |prog| ensures Render(prog[k]) == DevicesText()[k] && LineOk(prog[k]) { DevicesLine(k); }
    NumeralValues();
    assert CodeBefore(prog, 2) == 2 && CodeBefore(prog, 4) == 4 && CodeBefore(prog, 5) == 5;
  }
}
