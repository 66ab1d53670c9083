/** Assembling preserves meaning: the machine, running the stored code image, does step by
    step what the program does as written. */
module AsmCorrect {
  import opened Bits
  import opened Uapi
  import opened Words
  import opened Isa
  import opened LineText
  import opened LabelTable
  import opened Numerals
  import opened Source
  import opened Parser
  import opened RoundTrip
  import opened Assembler
  import opened Image
  import opened SourceRuns
  import opened SourceMeaning
  import Driver
  import opened Client
  import opened MachineRuns

  // ---- well-formed programs and their texts ----

  function Rendered(prog: seq<Line>): (lines: seq<string>)
    ensures |lines| == |prog| && forall k :: 0 <= k < |prog| ==> lines[k] == Render(prog[k])
  {
    seq(|prog|, k requires 0 <= k < |prog| => Render(prog[k]))
  }

  /** The instructions on the first `n` lines. */
  function CodeBefore(prog: seq<Line>, n: nat): (c: nat)
    requires n <= |prog|
    ensures c <= n
  {
    if n == 0 then 0 else CodeBefore(prog, n - 1) + if prog[n - 1].Code? then 1 else 0
  }

  /** The instructions of the whole image, with the final HALT. */
  function Count(prog: seq<Line>): nat { CodeBefore(prog, |prog|) + 1 }

  predicate LineOk(line: Line) {
    && |Render(line)| < 256 && 0 as char !in Render(line)
    && match line
       case Blank(_, _, _) => true
       case Label(name, _) => Plain(name) && |name| < 64
       case Code(i, _) => WellWritten(i)
  }

  /** No store reaches the code image. */
  predicate StoresData(i: Instr, size: nat) {
    i.StoreTo? && i.at.Value(16) < MMIO_START ==> size <= i.at.Value(16)
  }

  /** Lines fit the buffer, labels are plain, short, unique and defined, the image fits,
      and stores do not touch it. */
  predicate WellFormed(prog: seq<Line>) {
    && (forall k :: 0 <= k < |prog| ==> LineOk(prog[k]))
    && LabelsUnique(prog) && TargetsDefined(prog)
    && Image.Fits(Count(prog), MEM_SIZE)
    && (forall k :: 0 <= k < |prog| && prog[k].Code? ==> StoresData(prog[k].instr, INSTR_SIZE * Count(prog)))
  }

  /** How the assembler sees each kind of line. */
  lemma LineSeen(line: Line)
    requires LineOk(line)
    ensures var text := Render(line);
      && Acceptable(text)
      && Emitted(text) == line.Code?
      && IsLabel(text) == line.Label?
      && (line.Label? ==> LabelName(text) == line.name && |line.name| < KEY_SIZE)
  {
    hide StripComment, Parsable, IsEmpty, Render, Find;
    var text := Render(line);
    CountedIsEmitted(text);
    match line
    case Blank(indent, comment, newline) => BlankIsEmpty(indent, comment, newline);
    case Label(name, rest) => LabelSeen(name, rest);
    case Code(i, l) =>
      CommentStripped(i, l);
      NoColonSeen(Fielded(i, l));
      CodeIsNotEmpty(i, l);
      var any := if i.JumpTo? then map[i.target := 0] else map[];
      ParsePrinted(i, l, any);
  }

  lemma RenderedAcceptable(prog: seq<Line>)
    requires forall k :: 0 <= k < |prog| ==> LineOk(prog[k])
    ensures AllAcceptable(Rendered(prog)) && LabelsStorable(Rendered(prog))
  {
    hide Acceptable, Render, Readable, IsLabel, LabelName, PassOne;
    var lines := Rendered(prog);
    forall k | 0 <= k < |prog|
      ensures Acceptable(lines[k]) && Readable(lines[k]) && LabelStorable(lines[k], PassOne(lines[..k]).labels) {
      LineSeen(prog[k]);
      LineReadable(prog[k]);
    }
  }

  lemma LineReadable(line: Line)
    requires LineOk(line)
    ensures Readable(Render(line))
  {
    hide Render;
  }

  // ---- the emitted instructions ----

  lemma {:induction false} EmittedCount(prog: seq<Line>, labels: map<string, Word>, n: nat)
    requires (forall k :: 0 <= k < |prog| ==> LineOk(prog[k])) && AllAcceptable(Rendered(prog)) && n <= |prog|
    ensures AllAcceptable(Rendered(prog)[..n]) && |PassTwo(Rendered(prog)[..n], labels)| == CodeBefore(prog, n)
  {
    hide AllAcceptable, Acceptable, Render, Emitted, PassTwo, PassOne, FirstStep, Texts, LineOk, ParseText;
    hide StripComment, LabelsStorable, LabelName, IsLabel;
    if n > 0 {
      EmittedCount(prog, labels, n - 1);
      LineSeen(prog[n - 1]);
      NextLine(Rendered(prog), labels, n - 1);
    } else {
      assert Rendered(prog)[..0] == [];
      NoLines(labels);
      NoneAcceptable();
    }
  }

  lemma NoneAcceptable()
    ensures AllAcceptable([])
  {}

  lemma {:induction false} CodeBeforeGrows(prog: seq<Line>, k: nat, n: nat)
    requires k <= n <= |prog|
    ensures CodeBefore(prog, k) <= CodeBefore(prog, n)
    ensures k < n && prog[k].Code? ==> CodeBefore(prog, k) < CodeBefore(prog, n)
  {
    if k < n { CodeBeforeGrows(prog, k, n - 1); }
  }

  /** No instruction lies between a line and the next instruction from it on. */
  lemma {:induction false} NothingBetween(prog: seq<Line>, pos: nat, at: nat)
    requires pos <= at <= |prog| && forall k :: pos <= k < at ==> !prog[k].Code?
    ensures CodeBefore(prog, at) == CodeBefore(prog, pos)
  {
    if pos < at { NothingBetween(prog, pos, at - 1); }
  }

  predicate LinesOk(prog: seq<Line>) {
    forall k :: 0 <= k < |prog| ==> LineOk(prog[k])
  }

  /** The instruction of a line is emitted at the index that counts those before it. */
  lemma {:induction false} EmittedAt(prog: seq<Line>, labels: map<string, Word>, n: nat, k: nat)
    requires LinesOk(prog) && AllAcceptable(Rendered(prog)) && k < n <= |prog| && prog[k].Code?
    ensures Acceptable(Render(prog[k])) && Emitted(Render(prog[k])) && AllAcceptable(Rendered(prog)[..n])
    ensures CodeBefore(prog, k) < |PassTwo(Rendered(prog)[..n], labels)|
    ensures PassTwo(Rendered(prog)[..n], labels)[CodeBefore(prog, k)]
      == ParseText(StripComment(Render(prog[k])), labels)
  {
    hide AllAcceptable, Acceptable, Render, Emitted, PassTwo, LineOk, ParseText, StripComment;
    NextLine(Rendered(prog), labels, n - 1);
    EmittedCount(prog, labels, n - 1);
    LineSeen(prog[n - 1]);
    if k < n - 1 {
      EmittedAt(prog, labels, n - 1, k);
    }
  }

  predicate EndsLine(s: string) { s != "" && s[|s| - 1] == '\n' }

  lemma NewlineCut(s: string)
    ensures s == WithoutNewline(s) + if EndsLine(s) then "\n" else ""
  {}

  lemma {:induction false} TextsCount(prog: seq<Line>, n: nat)
    requires LinesOk(prog) && AllAcceptable(Rendered(prog)) && n <= |prog|
    ensures |Texts(Rendered(prog)[..n])| == CodeBefore(prog, n)
  {
    hide AllAcceptable, Acceptable, Render, Emitted, PassTwo, PassOne, LineOk, WithoutNewline;
    if n > 0 {
      TextsCount(prog, n - 1);
      LineSeen(prog[n - 1]);
      NextLine(Rendered(prog), map[], n - 1);
    }
  }

  /** The text kept for the instruction of line `k`, at its index, is the line as it stands
      in the file, with its comment but without its newline. */
  predicate TextKept(prog: seq<Line>, k: nat, texts: seq<string>)
    requires k < |prog|
  {
    && CodeBefore(prog, k) < |texts|
    && Render(prog[k]) == texts[CodeBefore(prog, k)] + if EndsLine(Render(prog[k])) then "\n" else ""
  }

  lemma LastText(prog: seq<Line>, k: nat, texts: seq<string>)
    requires k < |prog| && |texts| == CodeBefore(prog, k)
    ensures TextKept(prog, k, texts + [WithoutNewline(Render(prog[k]))])
  {
    hide Render, EndsLine, WithoutNewline, CodeBefore;
    NewlineCut(Render(prog[k]));
  }

  lemma MoreTexts(prog: seq<Line>, k: nat, texts: seq<string>, more: seq<string>)
    requires k < |prog| && TextKept(prog, k, texts)
    ensures TextKept(prog, k, texts + more)
  {
    hide Render, EndsLine, CodeBefore;
  }

  lemma {:induction false} TextAt(prog: seq<Line>, n: nat, k: nat)
    requires LinesOk(prog) && AllAcceptable(Rendered(prog)) && k < n <= |prog| && prog[k].Code?
    ensures TextKept(prog, k, Texts(Rendered(prog)[..n]))
  {
    hide AllAcceptable, Acceptable, Render, Emitted, PassTwo, PassOne, Texts, LineOk, WithoutNewline, TextKept;
    NextLine(Rendered(prog), map[], n - 1);
    TextsCount(prog, n - 1);
    LineSeen(prog[n - 1]);
    var before := Texts(Rendered(prog)[..n - 1]);
    if k < n - 1 {
      TextAt(prog, n - 1, k);
      MoreTexts(prog, k, before, if prog[n - 1].Code? then [WithoutNewline(Render(prog[n - 1]))] else []);
    } else {
      LastText(prog, k, before);
    }
  }

  /** A jump's label stands for the number of instructions before its line. */
  lemma {:induction false} LabelResolved(prog: seq<Line>, name: string)
    requires LinesOk(prog) && LabelsUnique(prog) && Image.Fits(Count(prog), MEM_SIZE) && HasLabel(prog, name)
    ensures AllAcceptable(Rendered(prog))
    ensures var labels := PassOne(Rendered(prog)).labels;
      name in labels && labels[name] == CodeBefore(prog, LineOf(prog, name))
  {
    hide AllAcceptable, Acceptable, Render, PassTwo, PassOne, LineOk, IsLabel, LabelName;
    RenderedAcceptable(prog);
    var lines, k := Rendered(prog), LineOf(prog, name);
    LineSeen(prog[k]);
    forall j | k < j < |prog| ensures !Names(lines[j], name) {
      LineSeen(prog[j]);
    }
    assert Defines(lines, |lines|, name, k);
    assert lines[..|lines|] == lines;
    LabelValue(lines, map[], |lines|, name, k);
    EmittedCount(prog, map[], k);
    CodeBeforeGrows(prog, k, |prog|);
  }

  /** The image of a program as the assembler makes it. */
  function Compiled(prog: seq<Line>): (raws: seq<Raw>)
    requires WellFormed(prog)
    ensures |raws| == Count(prog)
  {
    RenderedAcceptable(prog);
    EmittedCount(prog, PassOne(Rendered(prog)).labels, |prog|);
    assert Rendered(prog)[..|prog|] == Rendered(prog);
    Assembled(Rendered(prog))
  }

  function LabelsOf(prog: seq<Line>): map<string, Word> { PassOne(Rendered(prog)).labels }

  /** The operation of an instruction once its label is resolved. */
  function Resolved(prog: seq<Line>, i: Instr): Option<Op>
    requires i.JumpTo? ==> HasLabel(prog, i.target)
  {
    if i.JumpTo? then Some(Jump(i.cond, Wrap(CodeBefore(prog, LineOf(prog, i.target)))))
    else OpOf(i, map[])
  }

  lemma CompiledParses(prog: seq<Line>, k: nat)
    requires WellFormed(prog) && k < |prog| && prog[k].Code?
    ensures CodeBefore(prog, k) < Count(prog) - 1
    ensures Parsable(StripComment(Render(prog[k])))
    ensures Compiled(prog)[CodeBefore(prog, k)] == ParseText(StripComment(Render(prog[k])), LabelsOf(prog))
  {
    hide AllAcceptable, Acceptable, Render, PassTwo, PassOne, ParseText, StripComment, Parsable;
    RenderedAcceptable(prog);
    CodeBeforeGrows(prog, k, |prog|);
    assert Rendered(prog)[..|prog|] == Rendered(prog);
    EmittedAt(prog, LabelsOf(prog), |prog|, k);
    EmittedParses(Render(prog[k]));
  }

  lemma EmittedParses(line: string)
    requires Acceptable(line) && Emitted(line)
    ensures Parsable(StripComment(line))
  {}

  lemma LabelsResolve(prog: seq<Line>, i: Instr)
    requires WellFormed(prog) && (i.JumpTo? ==> HasLabel(prog, i.target))
    ensures (i.JumpTo? ==> i.target in LabelsOf(prog)) && OpOf(i, LabelsOf(prog)) == Resolved(prog, i)
  {
    hide PassOne, LineOf, AllAcceptable, Rendered;
    if i.JumpTo? {
      LabelResolved(prog, i.target);
      CodeBeforeSmall(prog, LineOf(prog, i.target));
      assert OpOf(i, LabelsOf(prog)) == Some(Jump(i.cond, LabelsOf(prog)[i.target]));
    }
  }

  lemma CodeBeforeSmall(prog: seq<Line>, k: nat)
    requires WellFormed(prog) && k <= |prog|
    ensures CodeBefore(prog, k) < Count(prog) && INSTR_SIZE * Count(prog) + INSTR_SIZE <= MEM_SIZE
    ensures Wrap(CodeBefore(prog, k)) == CodeBefore(prog, k)
  {
    hide LineOk, LabelsUnique, TargetsDefined, StoresData, CodeBefore;
    CodeBeforeGrows(prog, k, |prog|);
    var c, n := CodeBefore(prog, k), Count(prog);
    assert 11 * n + 11 <= 65536;
    SmallRemainder(c, TWO64);
  }

  /** What the CPU decodes at the place of a line's instruction is that instruction. */
  lemma {:induction false} CompiledAt(prog: seq<Line>, k: nat)
    requires WellFormed(prog) && k < |prog| && prog[k].Code?
    ensures CodeBefore(prog, k) < Count(prog) - 1
    ensures var raw := Compiled(prog)[CodeBefore(prog, k)];
      Decode(raw) == Resolved(prog, prog[k].instr) && Driver.RegisterNamed(raw)
  {
    hide Render, PassOne, ParseText, StripComment, Encodes, Parsable, Decode, OpOf, Resolved, LabelsOf, Compiled,
      HasLabel;
    var i := prog[k].instr;
    CompiledParses(prog, k);
    LabelsResolve(prog, i);
    assert LineOk(prog[k]);
    ParsePrinted(i, prog[k].layout, LabelsOf(prog));
    EncodingDecodes(Compiled(prog)[CodeBefore(prog, k)], i, LabelsOf(prog));
  }

  /** After the last instruction comes HALT. */
  lemma CompiledHalt(prog: seq<Line>)
    requires WellFormed(prog)
    ensures Compiled(prog)[Count(prog) - 1] == HALT_INSTR
    ensures Decode(HALT_INSTR) == Some(Halt) && Driver.RegisterNamed(HALT_INSTR)
  {
    hide WellFormed, AllAcceptable, PassOne, PassTwo, Rendered, Decode, Count;
    HaltDecodes();
  }

  lemma HaltDecodes()
    ensures Decode(HALT_INSTR) == Some(Halt) && Driver.RegisterNamed(HALT_INSTR)
  {}

  // ---- step by step ----

  /** The machine is where the program is, in the same state, and its image is intact. */
  predicate Related(prog: seq<Line>, s: SourceState, m: Machine)
    requires WellFormed(prog)
  {
    && s.Ok() && s.pos <= |prog|
    && m == Machine(s.regs, INSTR_SIZE * CodeBefore(prog, s.pos) % TWO64, s.order, s.mem, s.output)
    && ImageOf(Compiled(prog)) <= s.mem
  }

  /** The program counter of a line. */
  lemma PlaceOf(prog: seq<Line>, k: nat)
    requires WellFormed(prog) && k <= |prog|
    ensures var pc := INSTR_SIZE * CodeBefore(prog, k);
      pc + INSTR_SIZE <= MEM_SIZE && pc % TWO64 == pc && pc / INSTR_SIZE < Count(prog) && pc % INSTR_SIZE == 0
  {
    hide WellFormed;
    CodeBeforeSmall(prog, k);
    var c, n := CodeBefore(prog, k), Count(prog);
    assert 11 * c < 11 * n && 11 * n + 11 <= 65536;
    SmallRemainder(11 * c, TWO64);
    DivUnique(11 * c, 11, c, 0);
  }

  /** What the machine fetches is what the program executes next. */
  lemma FetchedNext(prog: seq<Line>, s: SourceState, m: Machine)
    requires WellFormed(prog) && Related(prog, s, m)
    ensures m.Ok() && m.pc + INSTR_SIZE <= MEM_SIZE && Driver.RegisterNamed(Isa.Fetch(m.mem, m.pc))
    ensures var at := NextCode(prog, s.pos);
      && CodeBefore(prog, at) == CodeBefore(prog, s.pos)
      && Decode(Isa.Fetch(m.mem, m.pc)) == if at < |prog| then Resolved(prog, prog[at].instr) else Some(Halt)
  {
    hide WellFormed, Compiled, Resolved, Decode, ImageOf, CodeBefore, NextCode;
    var at := NextCode(prog, s.pos);
    NothingBetween(prog, s.pos, at);
    PlaceOf(prog, s.pos);
    CodeBeforeSmall(prog, at);
    FetchImage(s.mem, Compiled(prog), CodeBefore(prog, at));
    if at < |prog| {
      CompiledAt(prog, at);
    } else {
      CompiledHalt(prog);
    }
  }

  predicate Agree(prog: seq<Line>, so: SourceOutcome, mo: Outcome)
    requires WellFormed(prog)
  {
    match so
    case Goes(s) => mo.Continue? && Related(prog, s, mo.m)
    case Halts => mo.Halted?
    case Faults => mo.Fault?
  }

  function RunOp(op: Option<Op>, m: Machine, input: bool): Outcome
    requires m.Ok()
  {
    match op
    case None => Fault
    case Some(op) => Step(op, m, input)
  }

  lemma NextPlace(prog: seq<Line>, at: nat)
    requires WellFormed(prog) && at < |prog| && prog[at].Code?
    ensures Advance(INSTR_SIZE * CodeBefore(prog, at) % TWO64) == INSTR_SIZE * CodeBefore(prog, at + 1) % TWO64
  {
    hide WellFormed;
    PlaceOf(prog, at);
  }

  lemma JumpPlace(prog: seq<Line>, k: nat)
    requires WellFormed(prog) && k <= |prog|
    ensures Wrap(Wrap(CodeBefore(prog, k)) * INSTR_SIZE) == INSTR_SIZE * CodeBefore(prog, k) % TWO64
  {
    hide WellFormed;
    CodeBeforeSmall(prog, k);
  }

  /** A store beyond the image leaves the machine related. */
  lemma StoreKeepsImage(prog: seq<Line>, mem: seq<Byte>, addr: Word, w: Word)
    requires WellFormed(prog) && ImageOf(Compiled(prog)) <= mem && |mem| == MEM_SIZE
    requires INSTR_SIZE * Count(prog) <= addr < MMIO_START
    ensures ImageOf(Compiled(prog)) <= StoreWord(mem, addr, w)
  {
    hide WellFormed, Compiled;
    StoreBeyondImage(mem, Compiled(prog), addr, w);
  }

  /** Executing an instruction as written and executing its operation agree. */
  lemma ExecutionsAgree(prog: seq<Line>, at: nat, s: SourceState, m: Machine, input: bool)
    requires WellFormed(prog) && at < |prog| && prog[at].Code? && Related(prog, s, m) && m.Ok()
    requires CodeBefore(prog, at) == CodeBefore(prog, s.pos)
    requires prog[at].instr.JumpTo? ==> HasLabel(prog, prog[at].instr.target)
    requires StoresData(prog[at].instr, INSTR_SIZE * Count(prog))
    ensures Agree(prog, Execute(prog, prog[at].instr, s, at + 1, input),
      RunOp(Resolved(prog, prog[at].instr), m, input))
  {
    hide WellFormed, Compiled, ImageOf, CodeBefore, Count, AluResult, Compare, StoreWord, LoadWord, HasLabel;
    hide Advance, Wrap, Numeral.Value;
    NextPlace(prog, at);
    match prog[at].instr
    case Arith(_, _, _) =>
    case Invert(_) =>
    case Move(_, _) =>
    case Test(_, _) =>
    case LoadFrom(_, _) =>
    case StoreTo(rs, at) =>
      if at.Value(16) < MMIO_START { StoreKeepsImage(prog, s.mem, at.Value(16), s.regs[rs]); }
    case JumpTo(_, target) => JumpPlace(prog, LineOf(prog, target));
  }

  /** One step of the machine does what one step of the program does. */
  lemma {:induction false} StepsAgree(prog: seq<Line>, s: SourceState, m: Machine, input: bool)
    requires WellFormed(prog) && Related(prog, s, m)
    ensures m.Ok() && m.pc + INSTR_SIZE <= MEM_SIZE && TargetsDefined(prog)
    ensures Agree(prog, SourceStep(prog, s, input), AtomicStep(m, input))
  {
    hide Compiled, ImageOf, CodeBefore, Count, Execute, Resolved, Decode, NextCode, Step, Related, LineOk;
    FetchedNext(prog, s, m);
    var at := NextCode(prog, s.pos);
    if at < |prog| {
      ExecutionsAgree(prog, at, s, m, input);
    } else {
      HaltStops(m, input);
    }
  }

  lemma HaltStops(m: Machine, input: bool)
    requires m.Ok()
    ensures Step(Halt, m, input) == Halted
  {}

  // ---- whole runs ----

  /** Assembling preserves meaning: after any number of steps, and for any input, the
      machine and the program agree on the status, the registers, what branches see, the
      whole memory and the output, and the program counter is the place of the line. */
  lemma {:induction false} RunsAgree(prog: seq<Line>, s: SourceState, m: Machine, inputs: nat -> bool, n: nat)
    requires WellFormed(prog) && Related(prog, s, m)
    ensures s.Ok() && s.pos <= |prog| && m.Ok() && TargetsDefined(prog)
    ensures var r, q := RunMachine(m, Count(prog), inputs, n), RunSource(prog, s, inputs, n);
      r.status == q.status && r.status != Overrun && Related(prog, q.s, r.m)
  {
    hide WellFormed, Related, RunMachine, RunSource, StepRun, StepSource, TargetsDefined, Count;
    StartsOk(prog, s, m);
    RunsUnfold(prog, s, m, inputs, n);
    if n > 0 {
      RunsAgree(prog, s, m, inputs, n - 1);
      StatesAgree(prog, RunMachine(m, Count(prog), inputs, n - 1), RunSource(prog, s, inputs, n - 1), inputs(n - 1));
    }
  }

  lemma StartsOk(prog: seq<Line>, s: SourceState, m: Machine)
    requires WellFormed(prog) && Related(prog, s, m)
    ensures s.Ok() && s.pos <= |prog| && m.Ok() && TargetsDefined(prog)
  {
    hide LineOk, LabelsUnique, StoresData, Compiled, ImageOf;
  }

  lemma RunsUnfold(prog: seq<Line>, s: SourceState, m: Machine, inputs: nat -> bool, n: nat)
    requires s.Ok() && s.pos <= |prog| && m.Ok() && TargetsDefined(prog)
    ensures if n == 0 then
        RunMachine(m, Count(prog), inputs, n) == RunState(m, Running, [FetchAccess(m.pc)])
        && RunSource(prog, s, inputs, n) == SourceRun(s, Running)
      else
        RunMachine(m, Count(prog), inputs, n)
          == StepRun(RunMachine(m, Count(prog), inputs, n - 1), Count(prog), inputs(n - 1))
        && RunSource(prog, s, inputs, n) == StepSource(prog, RunSource(prog, s, inputs, n - 1), inputs(n - 1))
  {
    hide StepRun, StepSource, TargetsDefined, Count;
  }

  lemma StatesAgree(prog: seq<Line>, r: RunState, q: SourceRun, input: bool)
    requires WellFormed(prog) && r.status == q.status != Overrun && Related(prog, q.s, r.m)
    ensures r.m.Ok() && q.s.Ok() && q.s.pos <= |prog| && TargetsDefined(prog)
    ensures var r', q' := StepRun(r, Count(prog), input), StepSource(prog, q, input);
      r'.status == q'.status != Overrun && Related(prog, q'.s, r'.m)
  {
    hide SourceStep, AtomicStep, LabelsUnique, LineOk, Compiled, ImageOf, CodeBefore, Count, StoresData, Related;
    StepsAgree(prog, q.s, r.m, input);
    PlaceInside(prog, q.s, r.m);
  }

  lemma PlaceInside(prog: seq<Line>, s: SourceState, m: Machine)
    requires WellFormed(prog) && Related(prog, s, m)
    ensures s.Ok() && s.pos <= |prog| && m.Ok() && m.pc + INSTR_SIZE <= MEM_SIZE
    ensures m.pc / INSTR_SIZE < Count(prog) && m.pc % INSTR_SIZE == 0
  {
    hide WellFormed, Compiled, ImageOf;
    PlaceOf(prog, s.pos);
  }

  /** In every reachable state the program counter is a multiple of the instruction size
      inside the image, the image is as it was loaded, and every access so far stays in
      memory with all its eight bytes. */
  lemma {:induction false} WholeRunBounds(prog: seq<Line>, s: SourceState, m: Machine, inputs: nat -> bool, n: nat)
    requires WellFormed(prog) && Related(prog, s, m)
    ensures m.Ok()
    ensures var r := RunMachine(m, Count(prog), inputs, n);
      && r.m.pc % INSTR_SIZE == 0 && r.m.pc / INSTR_SIZE < Count(prog)
      && ImageOf(Compiled(prog)) <= r.m.mem
      && forall a :: a in r.trace ==> a.addr + 7 < MEM_SIZE
  {
    hide WellFormed, Compiled, ImageOf, CodeBefore, RunMachine, RunSource, Count;
    RunsAgree(prog, s, m, inputs, n);
    PlaceInside(prog, RunSource(prog, s, inputs, n).s, RunMachine(m, Count(prog), inputs, n).m);
    forall k | 0 <= k <= n ensures RunMachine(m, Count(prog), inputs, k).m.pc + INSTR_SIZE <= MEM_SIZE {
      InsideImage(prog, s, m, inputs, k);
    }
    TraceInBounds(m, Count(prog), inputs, n);
  }

  lemma RelatedSteps(prog: seq<Line>, s: SourceState, m: Machine, input: bool)
    requires WellFormed(prog) && Related(prog, s, m)
    ensures Steppable(m, input)
  {
    hide LabelsUnique, LineOk, Compiled, ImageOf, CodeBefore, SourceStep, AtomicStep, Count, StoresData;
    FetchedNext(prog, s, m);
    PlaceOf(prog, s.pos);
    StepsAgree(prog, s, m, input);
    var o := SourceStep(prog, s, input);
    if o.Goes? {
      PlaceOf(prog, o.s.pos);
    }
  }

  /** Hence the client is never given what it cannot carry out, and its exit for an
      instruction past the program is never taken. */
  lemma {:induction false} NeverLeaves(prog: seq<Line>, s: SourceState, m: Machine, inputs: nat -> bool, n: nat)
    requires WellFormed(prog) && Related(prog, s, m)
    ensures m.Ok() && StaysInside(m, Count(prog), inputs, n)
    ensures RunMachine(m, Count(prog), inputs, n).status != Overrun
  {
    hide WellFormed, Compiled, ImageOf, CodeBefore, RunMachine, RunSource, Steppable, Count;
    RunsAgree(prog, s, m, inputs, n);
    forall k | 0 <= k < n ensures InsideAt(m, Count(prog), inputs, k) {
      RunsAgree(prog, s, m, inputs, k);
      RelatedSteps(prog, RunSource(prog, s, inputs, k).s, RunMachine(m, Count(prog), inputs, k).m, inputs(k));
    }
  }

  /** On an error-free run the recorded trace is exactly one fetch at each executed
      instruction's place and its data access, in order. */
  lemma {:induction false} ProgramReferences(prog: seq<Line>, s: SourceState, m: Machine, inputs: nat -> bool, n: nat)
    requires WellFormed(prog) && Related(prog, s, m)
    ensures m.Ok()
    ensures var r := RunMachine(m, Count(prog), inputs, n);
      r.status != Failed ==>
        r.trace == AllReferences(m, Count(prog), inputs, n)
          + if r.status == Running then [FetchAccess(r.m.pc)] else []
  {
    hide WellFormed, Compiled, ImageOf, CodeBefore, RunMachine, RunSource, Related, AllReferences;
    RunsAgree(prog, s, m, inputs, n);
    forall k | 0 <= k <= n ensures RunMachine(m, Count(prog), inputs, k).m.pc + INSTR_SIZE <= MEM_SIZE {
      InsideImage(prog, s, m, inputs, k);
    }
    if RunMachine(m, Count(prog), inputs, n).status != Failed {
      ReferenceString(m, Count(prog), inputs, n);
    }
  }

  lemma InsideImage(prog: seq<Line>, s: SourceState, m: Machine, inputs: nat -> bool, n: nat)
    requires WellFormed(prog) && Related(prog, s, m)
    ensures m.Ok() && RunMachine(m, Count(prog), inputs, n).m.pc + INSTR_SIZE <= MEM_SIZE
  {
    hide WellFormed, Compiled, ImageOf, CodeBefore, RunMachine, RunSource, Related, Count;
    RunsAgree(prog, s, m, inputs, n);
    PlaceInside(prog, RunSource(prog, s, inputs, n).s, RunMachine(m, Count(prog), inputs, n).m);
  }

  // ---- in the program's own terms ----

  /** The machine ends up where the program goes on to, or stops as it does. */
  predicate Follows(prog: seq<Line>, o: SourceOutcome, r: RunState)
    requires WellFormed(prog)
  {
    match o
    case Goes(s) => r.status == Running && Related(prog, s, r.m)
    case Halts => r.status == Finished
    case Faults => r.status == Failed
  }

  /** In every iteration the machine does what the line that the program has reached
      means. */
  lemma {:induction false} LinesMeant(prog: seq<Line>, s: SourceState, m: Machine, inputs: nat -> bool, n: nat)
    requires WellFormed(prog) && Related(prog, s, m)
    ensures s.Ok() && s.pos <= |prog| && m.Ok() && TargetsDefined(prog)
    ensures var q := RunSource(prog, s, inputs, n);
      q.status == Running ==>
        exists o :: GoesOn(prog, q.s, inputs(n), o) && Follows(prog, o, RunMachine(m, Count(prog), inputs, n + 1))
  {
    hide WellFormed, Related, RunMachine, RunSource, StepRun, Count, SourceStep, GoesOn, TargetsDefined, LabelsUnique;
    StartsOk(prog, s, m);
    RunsAgree(prog, s, m, inputs, n + 1);
    RunsUnfold(prog, s, m, inputs, n + 1);
    var q := RunSource(prog, s, inputs, n);
    var o := SourceStep(prog, q.s, inputs(n));
    LabelsKnown(prog);
    StepGoesOn(prog, q.s, inputs(n), o);
  }

  lemma LabelsKnown(prog: seq<Line>)
    requires WellFormed(prog)
    ensures LabelsUnique(prog)
  {}

  lemma OneLine(prog: seq<Line>, pos: nat, at: nat)
    requires Reaches(prog, pos, at)
    ensures pos <= |prog| && forall k: nat :: Reaches(prog, pos, k) ==> k == at
  {}

  /** What a store to a device does to the run of the machine: 0xFFFF ends it, 0xFFFE sets
      the output to a register that is 0 or 1, and any other makes it fail. */
  lemma {:induction false} DeviceStores(prog: seq<Line>, s: SourceState, m: Machine, inputs: nat -> bool, n: nat,
      at: nat)
    requires WellFormed(prog) && Related(prog, s, m)
    requires s.Ok() && s.pos <= |prog| && m.Ok() && TargetsDefined(prog)
    requires var q := RunSource(prog, s, inputs, n); q.status == Running && Reaches(prog, q.s.pos, at)
    requires at < |prog| && prog[at].instr.StoreTo? && prog[at].instr.at.Value(16) >= 0xFFF0
    ensures var r, r' := RunMachine(m, Count(prog), inputs, n), RunMachine(m, Count(prog), inputs, n + 1);
      var addr, value := prog[at].instr.at.Value(16), r.m.regs[prog[at].instr.rs];
      && (r'.status == Finished <==> addr == 0xFFFF)
      && (r'.status == Running <==> addr == 0xFFFE && value <= 1)
      && (r'.status == Running ==> r'.m == r.m.(pc := r'.m.pc, output := value == 1))
  {
    hide WellFormed, RunMachine, RunSource, StepRun, Count, SourceStep, TargetsDefined, LabelsUnique, Compiled, ImageOf,
      CodeBefore;
    LinesMeant(prog, s, m, inputs, n);
    RunsAgree(prog, s, m, inputs, n);
    OneLine(prog, RunSource(prog, s, inputs, n).s.pos, at);
  }

  /** What executing from line `pos` adds to the reference string: a read where the next
      instruction lies in the image, and the memory access that it is written with. */
  function LineReferences(prog: seq<Line>, pos: nat): seq<MemAccess>
    requires WellFormed(prog) && pos <= |prog|
  {
    PlaceOf(prog, pos);
    var at := NextCode(prog, pos);
    [MemAccess(11 * CodeBefore(prog, pos), false)] +
    if at == |prog| then []
    else match prog[at].instr
      case LoadFrom(_, a) => if a.Value(16) < 0xFFF0 then [MemAccess(a.Value(16), false)] else []
      case StoreTo(_, a) => if a.Value(16) < 0xFFF0 then [MemAccess(a.Value(16), true)] else []
      case _ => []
  }

  /** The references of the instructions that the program takes up in its first `n` steps. */
  ghost function SourceReferences(prog: seq<Line>, s: SourceState, inputs: nat -> bool, n: nat): seq<MemAccess>
    requires WellFormed(prog) && s.Ok() && s.pos <= |prog| && TargetsDefined(prog)
  {
    if n == 0 then []
    else
      var q := RunSource(prog, s, inputs, n - 1);
      SourceReferences(prog, s, inputs, n - 1) + if q.status == Running then LineReferences(prog, q.s.pos) else []
  }

  /** What follows the references while the program goes on: the next instruction's read. */
  ghost function NextRead(prog: seq<Line>, q: SourceRun): seq<MemAccess>
    requires WellFormed(prog) && q.s.pos <= |prog|
  {
    PlaceOf(prog, q.s.pos);
    if q.status == Running then [MemAccess(11 * CodeBefore(prog, q.s.pos), false)] else []
  }

  lemma OpReferences(prog: seq<Line>, s: SourceState, m: Machine)
    requires WellFormed(prog) && Related(prog, s, m)
    ensures s.Ok() && s.pos <= |prog| && m.Ok() && m.pc + INSTR_SIZE <= MEM_SIZE
    ensures LineReferences(prog, s.pos) == [MemAccess(m.pc, false)] +
      match Decode(Isa.Fetch(m.mem, m.pc)) {
        case Some(Load(_, addr)) => [MemAccess(addr, false)]
        case Some(Store(_, addr)) => [MemAccess(addr, true)]
        case _ => []
      }
  {
    hide WellFormed, Compiled, ImageOf, CodeBefore, NextCode, Decode, LoadWord, Numeral.Value;
    FetchedNext(prog, s, m);
    PlaceOf(prog, s.pos);
  }

  /** What one step adds to the trace, after the read that is already there. */
  lemma StepTraced(prog: seq<Line>, r: RunState, q: SourceRun, input: bool) returns (more: seq<MemAccess>)
    requires r.m.Ok() && q.s.Ok() && q.s.pos <= |prog| && TargetsDefined(prog)
    requires WellFormed(prog) && r.status == q.status == Running && Related(prog, q.s, r.m)
    ensures StepRun(r, Count(prog), input).trace == r.trace + more
    ensures [MemAccess(r.m.pc, false)] + more
      == LineReferences(prog, q.s.pos) + NextRead(prog, StepSource(prog, q, input))
  {
    hide WellFormed, SourceStep, StepRun, StepSource, CodeBefore, Count, Related, LineReferences, Decode, NextRead;
    StatesAgree(prog, r, q, input);
    OpReferences(prog, q.s, r.m);
    StepRecords(r, Count(prog), input);
    var r', q' := StepRun(r, Count(prog), input), StepSource(prog, q, input);
    ReadNext(prog, r', q');
    var data := match Decode(Isa.Fetch(r.m.mem, r.m.pc)) {
      case Some(Load(_, addr)) => [MemAccess(addr, false)]
      case Some(Store(_, addr)) => [MemAccess(addr, true)]
      case _ => []
    };
    more := data + NextRead(prog, q');
    assert [MemAccess(r.m.pc, false)] + more == ([MemAccess(r.m.pc, false)] + data) + NextRead(prog, q');
  }

  lemma ReadNext(prog: seq<Line>, r: RunState, q: SourceRun)
    requires WellFormed(prog) && r.status == q.status && Related(prog, q.s, r.m)
    ensures q.s.pos <= |prog|
    ensures NextRead(prog, q) == if r.status == Running then [MemAccess(r.m.pc, false)] else []
  {
    hide WellFormed, Compiled, ImageOf, CodeBefore;
    PlaceOf(prog, q.s.pos);
  }

  /** On every run of a well-formed program, whether it goes on, ends or fails, the recorded
      trace is the reference string of the lines it took up. */
  lemma {:induction false} ProgramTrace(prog: seq<Line>, s: SourceState, m: Machine, inputs: nat -> bool, n: nat)
    requires WellFormed(prog) && Related(prog, s, m)
    ensures s.Ok() && s.pos <= |prog| && m.Ok() && TargetsDefined(prog)
    ensures RunMachine(m, Count(prog), inputs, n).trace
      == SourceReferences(prog, s, inputs, n) + NextRead(prog, RunSource(prog, s, inputs, n))
  {
    hide WellFormed, Related, RunMachine, RunSource, StepRun, StepSource, TargetsDefined, Count, LineReferences,
      NextRead;
    StartsOk(prog, s, m);
    RunsUnfold(prog, s, m, inputs, n);
    RunsAgree(prog, s, m, inputs, n);
    ReadNext(prog, RunMachine(m, Count(prog), inputs, n), RunSource(prog, s, inputs, n));
    if n > 0 {
      var r, q := RunMachine(m, Count(prog), inputs, n - 1), RunSource(prog, s, inputs, n - 1);
      ProgramTrace(prog, s, m, inputs, n - 1);
      RunsAgree(prog, s, m, inputs, n - 1);
      ReadNext(prog, r, q);
      if q.status == Running {
        var more := StepTraced(prog, r, q, inputs(n - 1));
        Joined(SourceReferences(prog, s, inputs, n - 1), MemAccess(r.m.pc, false), more,
          LineReferences(prog, q.s.pos), NextRead(prog, RunSource(prog, s, inputs, n)));
      } else {
        Stopped(prog, r, q, inputs(n - 1));
      }
    }
  }

  lemma Joined(all: seq<MemAccess>, f: MemAccess, more: seq<MemAccess>, refs: seq<MemAccess>, next: seq<MemAccess>)
    requires [f] + more == refs + next
    ensures all + [f] + more == all + refs + next
  {
    assert all + [f] + more == all + ([f] + more);
  }

  lemma Stopped(prog: seq<Line>, r: RunState, q: SourceRun, input: bool)
    requires WellFormed(prog) && r.m.Ok() && q.s.Ok() && q.s.pos <= |prog| && TargetsDefined(prog)
    requires r.status == q.status != Running
    ensures StepRun(r, Count(prog), input) == r && StepSource(prog, q, input) == q
    ensures NextRead(prog, q) == []
  {
    hide WellFormed, Count;
  }

  // ---- the whole pipeline ----

  /** The state in which a loaded program starts. */
  function StartState(mem: seq<Byte>): SourceState {
    SourceState(0, [0, 0, 0, 0], Greater, mem, false)
  }

  function StartMachine(mem: seq<Byte>): Machine { Machine([0, 0, 0, 0], 0, Greater, mem, false) }

  lemma StartsRelated(prog: seq<Line>, mem: seq<Byte>)
    requires WellFormed(prog) && |mem| == MEM_SIZE && ImageOf(Compiled(prog)) <= mem
    ensures Related(prog, StartState(mem), StartMachine(mem))
  {
    hide WellFormed, Compiled, ImageOf;
    assert CodeBefore(prog, 0) == 0;
  }

  /** The program as written, before its first step, on a memory it is loaded into. */
  function LoadedState(prog: seq<Line>, mem: seq<Byte>): (s: SourceState)
    requires WellFormed(prog) && |mem| == MEM_SIZE
    ensures s.Ok() && StartMachine(s.mem).Ok() && TargetsDefined(prog)
  {
    StartState(ImageOf(Compiled(prog)) + mem[INSTR_SIZE * Count(prog)..])
  }

  lemma LoadedRelated(prog: seq<Line>, mem: seq<Byte>)
    requires WellFormed(prog) && |mem| == MEM_SIZE
    ensures var s := LoadedState(prog, mem); s == StartState(s.mem) && Related(prog, s, StartMachine(s.mem))
  {
    hide WellFormed, Compiled, ImageOf;
    StartsRelated(prog, LoadedState(prog, mem).mem);
  }

  /** Assemble, load and run a program for at most `n` instructions: it ends as the
      program as written does from the memory as loaded. */
  method AssembleAndRun(ghost prog: seq<Line>, lines: seq<string>, extraRead: bool, hash: string -> nat,
                        memory: array<Byte>, inputs: nat -> bool, n: nat)
    returns (client: Client, status: Status, ghost start: SourceState)
    requires WellFormed(prog) && lines == Rendered(prog) && (lines == [] ==> extraRead) && memory.Length == MEM_SIZE
    modifies memory
    ensures start == LoadedState(prog, old(memory[..])) && client.Valid() && client.memory == memory
    ensures var q := RunSource(prog, start, inputs, n);
      && status == q.status && client.View().mem == q.s.mem && client.View().regs == q.s.regs
      && client.View().order == q.s.order && client.View().output == q.s.output
    ensures client.trace == RunMachine(StartMachine(start.mem), Count(prog), inputs, n).trace
    ensures client.trace == SourceReferences(prog, start, inputs, n) + NextRead(prog, RunSource(prog, start, inputs, n))
    ensures var next := if status == Running then [FetchAccess(client.cpu.pc)] else [];
      status != Failed ==> client.trace == AllReferences(StartMachine(start.mem), Count(prog), inputs, n) + next
  {
    hide LineOk, LabelsUnique, StoresData, AllAcceptable, Assembled, Texts, ImageOf, RunSource, RunMachine,
      AllReferences, SourceReferences, NextRead;
    RenderedAcceptable(prog);
    var instructions, texts, count := ParseAssembly(lines, extraRead, hash);
    assert instructions[..count] == Compiled(prog);
    StoreMachineCode(memory, instructions, count);
    start := StartState(memory[..]);
    StartsRelated(prog, memory[..]);
    client := new Client(memory);
    NeverLeaves(prog, start, client.View(), inputs, n);
    RunsAgree(prog, start, client.View(), inputs, n);
    ProgramReferences(prog, start, client.View(), inputs, n);
    ProgramTrace(prog, start, client.View(), inputs, n);
    status := Run(client, count, inputs, n);
  }
}
