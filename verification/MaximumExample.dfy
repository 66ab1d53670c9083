/** The program of userspace/doc/test1.txt, with any two numbers in the places of its own:
    it leaves the greater one, unless their difference wraps. */
module MaximumExample {
  import opened Uapi
  import opened Words
  import opened Isa
  import opened Numerals
  import opened Source
  import opened SourceRuns
  import opened LineText
  import opened CString
  import opened RoundTrip
  import opened Client
  import opened MachineRuns
  import opened AsmCorrect
  import opened AsmExample

  const GREATER := "R1_IS_GREATER"
  const LESS := "R2_IS_GREATER"
  const EQUAL := "THEY_ARE_EQUAL"
  const FINISH := "FINISH"

  function Line(i: Instr, lead: nat): Source.Line { Code(i, Plainly(lead, None, true)) }

  const EMPTY := Blank(0, None, true)

  /** The file's lines, with two numbers of one's own. */
  function Maximum(a: Numeral, b: Numeral): (prog: seq<Source.Line>)
    ensures |prog| == 24
  {
    [ Blank(0, Some(" setup"), true),
      Code(Move(1, Number(a)), Layout(0, 2, true, 0, 3, 1, None, true)),
      Line(Move(2, Number(b)), 0),
      Line(Move(3, Decimal("0")), 0),
      EMPTY,
      Line(Test(1, Register(2)), 0),
      EMPTY,
      Blank(0, Some(" loop start"), true),
      Line(JumpTo(IfGreater, GREATER), 0),
      Line(JumpTo(IfLess, LESS), 0),
      Code(JumpTo(IfEqual, EQUAL), Layout(0, 0, true, 0, 1, 1, Some("equal"), true)),
      EMPTY,
      Label(GREATER, "\n"),
      Line(Move(3, Register(1)), 4),
      Line(JumpTo(Always, FINISH), 4),
      EMPTY,
      Label(LESS, "\n"),
      Line(Move(3, Register(2)), 4),
      Line(JumpTo(Always, FINISH), 4),
      EMPTY,
      Label(EQUAL, "\n"),
      Line(Move(3, Register(1)), 4),
      EMPTY,
      Label(FINISH, "\n") ]
  }

  // ---- its run ----

  lemma Targets(a: Numeral, b: Numeral)
    ensures var prog := Maximum(a, b);
      LabelAt(prog, GREATER, 12) && LabelAt(prog, LESS, 16) && LabelAt(prog, EQUAL, 20) && LabelAt(prog, FINISH, 23)
    ensures TargetsDefined(Maximum(a, b))
  {
    var prog := Maximum(a, b);
    assert LabelAt(prog, GREATER, 12) && LabelAt(prog, LESS, 16);
    assert LabelAt(prog, EQUAL, 20) && LabelAt(prog, FINISH, 23);
  }

  lemma DifferentNames()
    ensures GREATER != LESS && GREATER != EQUAL && GREATER != FINISH && LESS != EQUAL && LESS != FINISH
      && EQUAL != FINISH
  {
    assert GREATER[1] != LESS[1];
  }

  lemma Unique(a: Numeral, b: Numeral)
    ensures LabelsUnique(Maximum(a, b))
  {
    hide GREATER, LESS, EQUAL, FINISH;
    DifferentNames();
  }

  /** The line to which a jump goes, or on which the next instruction stands. */
  lemma Goto(a: Numeral, b: Numeral, name: string, k: nat)
    requires LabelAt(Maximum(a, b), name, k)
    ensures HasLabel(Maximum(a, b), name) && LineOf(Maximum(a, b), name) == k
  {
    hide Maximum;
    Unique(a, b);
  }

  lemma Next(prog: seq<Source.Line>, pos: nat, at: nat)
    requires pos <= at <= |prog| && (at < |prog| ==> prog[at].Code?)
    requires forall k :: pos <= k < at ==> !prog[k].Code?
    ensures NextCode(prog, pos) == at
  {}

  function At(pos: nat, x: Word, y: Word, z: Word, order: Order, mem: seq<Byte>): SourceState {
    SourceState(pos, [0, x, y, z], order, mem, false)
  }

  /** Where the program is after `n` steps with the numbers `x` and `y`. */
  function After(x: Word, y: Word, mem: seq<Byte>, n: nat): SourceRun
    requires n <= 9
  {
    var found := Compare(x, y);
    if n == 0 then SourceRun(At(0, 0, 0, 0, Greater, mem), Running)
    else if n == 1 then SourceRun(At(2, x, 0, 0, Greater, mem), Running)
    else if n <= 3 then SourceRun(At(n + 1, x, y, 0, Greater, mem), Running)
    else if n == 4 then SourceRun(At(6, x, y, 0, found, mem), Running)
    else match found
      case Greater =>
        if n == 5 then SourceRun(At(12, x, y, 0, found, mem), Running)
        else SourceRun(At(if n == 6 then 14 else 23, x, y, x, found, mem), if n < 8 then Running else Finished)
      case Less =>
        if n <= 6 then SourceRun(At(if n == 5 then 9 else 16, x, y, 0, found, mem), Running)
        else SourceRun(At(if n == 7 then 18 else 23, x, y, y, found, mem), if n < 9 then Running else Finished)
      case Equal =>
        if n <= 7 then SourceRun(At(if n == 5 then 9 else if n == 6 then 10 else 20, x, y, 0, found, mem), Running)
        else SourceRun(At(22, x, y, x, found, mem), if n < 9 then Running else Finished)
  }

  lemma Zero()
    ensures Numeral(NoSign, NoPrefix, "0").Value(10) == 0 && Numeral(NoSign, NoPrefix, "0").Ok(10)
  {
    OneDigit('0', 10);
    assert ['0'] == "0";
  }

  /** Execution of the line `at`, the next with an instruction. */
  lemma Execution(a: Numeral, b: Numeral, s: SourceState, level: bool, at: nat)
    requires s.Ok() && s.pos <= at < 24 && Maximum(a, b)[at].Code?
    requires forall k :: s.pos <= k < at ==> !Maximum(a, b)[k].Code?
    ensures TargetsDefined(Maximum(a, b))
    ensures SourceStep(Maximum(a, b), s, level) == Execute(Maximum(a, b), Maximum(a, b)[at].instr, s, at + 1, level)
  {
    hide Maximum;
    Targets(a, b);
    Next(Maximum(a, b), s.pos, at);
  }

  lemma End(a: Numeral, b: Numeral, s: SourceState, level: bool)
    requires s.Ok() && 22 <= s.pos <= 24
    ensures TargetsDefined(Maximum(a, b)) && SourceStep(Maximum(a, b), s, level) == Halts
  {
    Targets(a, b);
    Next(Maximum(a, b), s.pos, 24);
  }

  /** The line that has the instruction of step `n`. */
  function LineAt(x: Word, y: Word, n: nat): nat
    requires n < 9
  {
    if n < 3 then n + 1 else if n == 3 then 5 else if n == 4 then 8
    else match Compare(x, y)
      case Greater => if n == 5 then 13 else if n == 6 then 14 else 24
      case Less => if n == 5 then 9 else if n == 6 then 17 else if n == 7 then 18 else 24
      case Equal => if n == 5 then 9 else if n == 6 then 10 else if n == 7 then 21 else 24
  }

  /** The instructions of the file by their lines. */
  lemma Instructions(a: Numeral, b: Numeral)
    ensures var p := Maximum(a, b);
      && (forall k :: 0 <= k < 24 ==> (p[k].Code? <==> k in {1, 2, 3, 5, 8, 9, 10, 13, 14, 17, 18, 21}))
      && p[1].instr == Move(1, Number(a)) && p[2].instr == Move(2, Number(b)) && p[3].instr == Move(3, Decimal("0"))
      && p[5].instr == Test(1, Register(2)) && p[8].instr == JumpTo(IfGreater, GREATER)
      && p[9].instr == JumpTo(IfLess, LESS) && p[10].instr == JumpTo(IfEqual, EQUAL)
      && p[13].instr == Move(3, Register(1)) && p[14].instr == JumpTo(Always, FINISH)
      && p[17].instr == Move(3, Register(2)) && p[18].instr == JumpTo(Always, FINISH)
      && p[21].instr == Move(3, Register(1))
  {}

  lemma Labels(a: Numeral, b: Numeral)
    ensures var p := Maximum(a, b);
      && HasLabel(p, GREATER) && LineOf(p, GREATER) == 12 && HasLabel(p, LESS) && LineOf(p, LESS) == 16
      && HasLabel(p, EQUAL) && LineOf(p, EQUAL) == 20 && HasLabel(p, FINISH) && LineOf(p, FINISH) == 23
  {
    hide LabelAt, HasLabel, LineOf, Maximum, GREATER, LESS, EQUAL, FINISH;
    Targets(a, b);
    Goto(a, b, GREATER, 12);
    Goto(a, b, LESS, 16);
    Goto(a, b, EQUAL, 20);
    Goto(a, b, FINISH, 23);
  }

  /** The instruction of step `n` leads to the next state. */
  lemma Executed(a: Numeral, b: Numeral, mem: seq<Byte>, level: bool, n: nat)
    requires |mem| == MEM_SIZE && n < 9 && LineAt(a.Value(10), b.Value(10), n) < 24
    ensures var p, x, y := Maximum(a, b), a.Value(10), b.Value(10);
      var at, q, q' := LineAt(x, y, n), After(x, y, mem, n), After(x, y, mem, n + 1);
      && q.s.Ok() && q.status == Running == q'.status && q.s.pos <= at && p[at].Code?
      && (p[at].instr.JumpTo? ==> HasLabel(p, p[at].instr.target))
      && (forall k :: q.s.pos <= k < at ==> !p[k].Code?)
      && Execute(p, p[at].instr, q.s, at + 1, level) == Goes(q'.s)
  {
    hide Compare, Numeral.Value, LabelAt, HasLabel, LineOf, Maximum, GREATER, LESS, EQUAL, FINISH;
    Instructions(a, b);
    Labels(a, b);
    Zero();
  }

  lemma Step(a: Numeral, b: Numeral, mem: seq<Byte>, level: bool, n: nat)
    requires |mem| == MEM_SIZE && n < 9
    ensures TargetsDefined(Maximum(a, b))
    ensures StepSource(Maximum(a, b), After(a.Value(10), b.Value(10), mem, n), level)
      == After(a.Value(10), b.Value(10), mem, n + 1)
  {
    hide Compare, SourceStep, Execute, Numeral.Value, Maximum, TargetsDefined;
    Targets(a, b);
    var x, y := a.Value(10), b.Value(10);
    if LineAt(x, y, n) < 24 {
      Executed(a, b, mem, level, n);
      Execution(a, b, After(x, y, mem, n).s, level, LineAt(x, y, n));
    } else if After(x, y, mem, n).status == Running {
      End(a, b, After(x, y, mem, n).s, level);
    }
  }

  lemma {:induction false} Runs(a: Numeral, b: Numeral, mem: seq<Byte>, inputs: nat -> bool, n: nat)
    requires |mem| == MEM_SIZE && n <= 9
    ensures TargetsDefined(Maximum(a, b))
    ensures RunSource(Maximum(a, b), StartState(mem), inputs, n) == After(a.Value(10), b.Value(10), mem, n)
  {
    hide Maximum, StepSource, Compare, Numeral.Value, TargetsDefined;
    Targets(a, b);
    if n > 0 {
      Runs(a, b, mem, inputs, n - 1);
      Step(a, b, mem, inputs(n - 1), n - 1);
    }
  }

  /** The greater of two words read as signed numbers. */
  function SignedMax(x: Word, y: Word): Word { if ToSigned(x) >= ToSigned(y) then x else y }

  /** For any two numbers the program ends within nine steps and leaves their signed
      maximum in R3 exactly if they are equal or their difference fits in 64 signed bits,
      for every memory and input. */
  lemma {:induction false} LeavesMaximum(a: Numeral, b: Numeral, mem: seq<Byte>, inputs: nat -> bool)
    requires |mem| == MEM_SIZE
    ensures TargetsDefined(Maximum(a, b))
    ensures var q, x, y := RunSource(Maximum(a, b), StartState(mem), inputs, 9), a.Value(10), b.Value(10);
      && q.status == Finished && q.s.mem == mem
      && (q.s.regs[3] == SignedMax(x, y) <==> Fits(ToSigned(x) - ToSigned(y)))
  {
    hide Maximum, RunSource, Compare, Numeral.Value, TargetsDefined;
    Runs(a, b, mem, inputs, 9);
    CompareIsSigned(a.Value(10), b.Value(10));
    SameSigned(a.Value(10), b.Value(10));
  }

  lemma SameSigned(x: Word, y: Word)
    ensures ToSigned(x) == ToSigned(y) <==> x == y
  {}

  // ---- the file ----

  function FileText(): (lines: seq<string>)
    ensures |lines| == 24
  {
    [ "; setup\n",
      "MOV   R1,   42 \n",
      "MOV R2, 87\n",
      "MOV R3, 0\n",
      "\n",
      "CMP R1, R2\n",
      "\n",
      "; loop start\n",
      "JG R1_IS_GREATER\n",
      "JL R2_IS_GREATER\n",
      "JE THEY_ARE_EQUAL " + ";equal\n",
      "\n",
      "R1_IS_GREATER" + ":\n",
      "    MOV R3, R1\n",
      "    JMP FINISH\n",
      "\n",
      "R2_IS_GREATER" + ":\n",
      "    MOV R3, R2\n",
      "    JMP FINISH\n",
      "\n",
      "THEY_ARE_EQUAL" + ":\n",
      "    MOV R3, R1\n",
      "\n",
      "FINISH" + ":\n" ]
  }

  /** The program of the file. */
  function File(): (prog: seq<Source.Line>)
    ensures |prog| == 24
  {
    Maximum(Numeral(NoSign, NoPrefix, "42"), Numeral(NoSign, NoPrefix, "87"))
  }

  /** A line laid out with a single space or comma and space between its fields. */
  lemma PlainLine(i: Instr, lead: nat, head: string)
    requires Head(i, lead) == head && WellWritten(i) && lead <= 4 && |FirstText(i)| <= 20
    requires SecondText(i).Some? ==> |SecondText(i).value| <= 20
    ensures Render(Line(i, lead)) == head + "\n" && LineOk(Line(i, lead))
  {
    hide Head, Render, LineOk, WellWritten, FirstText, SecondText;
    LineIs(i, lead, None, true, head);
  }

  lemma Heads()
    ensures Head(Move(3, Decimal("0")), 0) == "MOV R3, 0" && Head(Test(1, Register(2)), 0) == "CMP R1, R2"
    ensures Head(Move(2, Decimal("87")), 0) == "MOV R2, 87"
    ensures Head(Move(3, Register(1)), 4) == "    MOV R3, R1" && Head(Move(3, Register(2)), 4) == "    MOV R3, R2"
  {
    Indent();
  }

  lemma JumpHeads()
    ensures Head(JumpTo(IfGreater, GREATER), 0) == "JG R1_IS_GREATER"
    ensures Head(JumpTo(IfLess, LESS), 0) == "JL R2_IS_GREATER"
    ensures Head(JumpTo(Always, FINISH), 4) == "    JMP FINISH"
  {
    Indent();
  }

  lemma PlainNames()
    ensures Plain(GREATER) && Plain(LESS) && Plain(EQUAL) && Plain(FINISH)
  {}

  lemma NumbersOk()
    ensures Numeral(NoSign, NoPrefix, "42").Ok(10) && Numeral(NoSign, NoPrefix, "42").Value(10) == 42
    ensures Numeral(NoSign, NoPrefix, "87").Ok(10) && Numeral(NoSign, NoPrefix, "87").Value(10) == 87
  {
    NumberAppend("4", '2', 10);
    NumberAppend("8", '7', 10);
    assert "4" + ['2'] == "42" && "8" + ['7'] == "87";
    OneDigit('4', 10);
    OneDigit('8', 10);
    assert ['4'] == "4" && ['8'] == "8";
  }

  lemma SpacedOperands(n: Numeral)
    ensures AfterFirst(Move(1, Number(n)), Layout(0, 2, true, 0, 3, 1, None, true)) == ",   " + (n.Text() + " \n")
  {
    hide Numeral.Text;
    Indent();
    assert Spaces(3) == "   ";
  }

  lemma SpacedFields(n: Numeral)
    ensures Render(Code(Move(1, Number(n)), Layout(0, 2, true, 0, 3, 1, None, true)))
      == "MOV   R1" + (",   " + (n.Text() + " \n"))
  {
    hide Numeral.Text, AfterFirst;
    SpacedOperands(n);
    Indent();
    assert Spaces(3) == "   ";
    assert CommentText(None, true) == "";
  }

  lemma SpacedLine()
    ensures Render(File()[1]) == "MOV   R1,   42 \n"
  {
    hide Render;
    var n := Numeral(NoSign, NoPrefix, "42");
    SpacedFields(n);
    assert n.Text() == "42";
    assert "MOV   R1" + (",   " + ("42" + " \n")) == "MOV   R1,   42 \n";
  }

  function Spacy(c: string): Layout { Layout(0, 0, true, 0, 1, 1, Some(c), true) }

  lemma JumpFields(t: string, c: string)
    ensures Fielded(JumpTo(IfEqual, t), Spacy(c)) == "JE " + (t + " ")
  {
    Indent();
  }

  lemma JumpSpaced(t: string, c: string)
    ensures Render(Code(JumpTo(IfEqual, t), Spacy(c))) == "JE " + (t + " ") + (";" + c + "\n")
  {
    hide Fielded;
    JumpFields(t, c);
  }

  lemma CommentedLine()
    ensures File()[10] == Code(JumpTo(IfEqual, EQUAL), Spacy("equal"))
    ensures Render(File()[10]) == "JE THEY_ARE_EQUAL " + ";equal\n"
  {
    hide Render;
    JumpSpaced(EQUAL, "equal");
    assert ";" + "equal" + "\n" == ";equal\n";
    assert "JE " + (EQUAL + " ") == "JE THEY_ARE_EQUAL ";
  }

  lemma LabelLine(name: string)
    requires Plain(name) && |name| < 60
    ensures var l := Label(name, "\n"); Render(l) == name + ":\n" && LineOk(l)
  {
    assert Lacks(":\n", NUL);
    LacksPlain(name, NUL);
    LacksConcat(name, ":\n", NUL);
  }

  lemma BlankLine(c: string)
    requires Lacks(c, NUL) && |c| < 100
    ensures var l := Blank(0, Some(c), true); Render(l) == ";" + c + "\n" && LineOk(l)
  {
    Indent();
  }

  lemma Blanks(k: nat)
    requires k in {0, 4, 6, 7, 11, 15, 19, 22}
    ensures Render(File()[k]) == FileText()[k] && LineOk(File()[k])
  {
    hide Render, LineOk, Lacks, Numeral.Ok;
    LacksComments();
    BlankLine(" setup");
    BlankLine(" loop start");
    EmptyLine();
    assert ";" + " setup" + "\n" == "; setup\n" && ";" + " loop start" + "\n" == "; loop start\n";
  }

  lemma LacksComments()
    ensures Lacks(" setup", NUL) && Lacks(" loop start", NUL)
  {
    assert NUL !in " setup" && NUL !in " loop start";
  }

  lemma EmptyLine()
    ensures Render(EMPTY) == "\n" && LineOk(EMPTY)
  {
    Indent();
  }

  lemma LabelLines(k: nat)
    requires k in {12, 16, 20, 23}
    ensures Render(File()[k]) == FileText()[k] && LineOk(File()[k])
  {
    hide Render, LineOk, Plain;
    PlainNames();
    LabelLine(GREATER);
    LabelLine(LESS);
    LabelLine(EQUAL);
    LabelLine(FINISH);
  }

  lemma JumpLines(k: nat)
    requires k in {8, 9, 14, 18}
    ensures Render(File()[k]) == FileText()[k] && LineOk(File()[k])
  {
    hide Render, LineOk, Plain, Head;
    PlainNames();
    JumpHeads();
    PlainLine(JumpTo(IfGreater, GREATER), 0, "JG R1_IS_GREATER");
    PlainLine(JumpTo(IfLess, LESS), 0, "JL R2_IS_GREATER");
    PlainLine(JumpTo(Always, FINISH), 4, "    JMP FINISH");
  }

  lemma MoveLines(k: nat)
    requires k in {2, 3, 5, 13, 17, 21}
    ensures Render(File()[k]) == FileText()[k] && LineOk(File()[k])
  {
    hide Render, LineOk, Head, Numeral.Ok;
    NumbersOk();
    Zero();
    Heads();
    if k == 2 {
      PlainLine(Move(2, Decimal("87")), 0, "MOV R2, 87");
    } else if k == 3 {
      PlainLine(Move(3, Decimal("0")), 0, "MOV R3, 0");
    } else if k == 5 {
      PlainLine(Test(1, Register(2)), 0, "CMP R1, R2");
    } else if k == 17 {
      PlainLine(Move(3, Register(2)), 4, "    MOV R3, R2");
    } else {
      PlainLine(Move(3, Register(1)), 4, "    MOV R3, R1");
    }
  }

  lemma OtherLines(k: nat)
    requires k in {1, 10}
    ensures Render(File()[k]) == FileText()[k] && LineOk(File()[k])
  {
    hide Render, Numeral.Ok;
    NumbersOk();
    PlainNames();
    SpacedLine();
    CommentedLine();
    assert NUL !in "MOV   R1,   42 \n" && NUL !in "JE THEY_ARE_EQUAL " && NUL !in ";equal\n";
  }

  lemma FileLine(k: nat)
    requires k < 24
    ensures Render(File()[k]) == FileText()[k] && LineOk(File()[k])
  {
    hide *;
    if k in {0, 4, 6, 7, 11, 15, 19, 22} { Blanks(k); }
    if k in {12, 16, 20, 23} { LabelLines(k); }
    if k in {8, 9, 14, 18} { JumpLines(k); }
    if k in {2, 3, 5, 13, 17, 21} { MoveLines(k); }
    if k in {1, 10} { OtherLines(k); }
  }

  /** The file is what a well-formed program is written as. */
  lemma {:induction false} FileIsWellFormed()
    ensures Rendered(File()) == FileText() && WellFormed(File())
  {
    hide Render, LineOk, Maximum, File, FileText, CodeBefore;
    forall k | 0 <= k < 24 ensures Render(File()[k]) == FileText()[k] && LineOk(File()[k]) { FileLine(k); }
    FileParts();
  }

  lemma FileParts()
    ensures LabelsUnique(File()) && TargetsDefined(File())
    ensures forall k :: 0 <= k < 24 && File()[k].Code? ==> !File()[k].instr.StoreTo?
  {
    Unique(Numeral(NoSign, NoPrefix, "42"), Numeral(NoSign, NoPrefix, "87"));
    Targets(Numeral(NoSign, NoPrefix, "42"), Numeral(NoSign, NoPrefix, "87"));
  }

  /** On the machine the file's program ends with 87 in R3. */
  lemma {:induction false} FileOnMachine(mem: seq<Byte>, inputs: nat -> bool)
    requires |mem| == MEM_SIZE
    ensures WellFormed(File())
    ensures var m := StartMachine(LoadedState(File(), mem).mem);
      var r := RunMachine(m, Count(File()), inputs, 9); r.status == Finished && r.m.regs[3] == 87
  {
    hide WellFormed, RunMachine, RunSource, Maximum, Numeral.Value;
    FileIsWellFormed();
    NumbersOk();
    var start := LoadedState(File(), mem);
    LoadedRelated(File(), mem);
    RunsAgree(File(), start, StartMachine(start.mem), inputs, 9);
    LeavesMaximum(Numeral(NoSign, NoPrefix, "42"), Numeral(NoSign, NoPrefix, "87"), start.mem, inputs);
  }
}
