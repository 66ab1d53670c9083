/** What each line of a program means, stated without the functions that the program's
    interpreter shares with the machine. */
module SourceMeaning {
  import opened Uapi
  import opened Words
  import opened Isa
  import opened IsaMeaning
  import opened Source
  import opened SourceRuns

  /** An operand has this value: the number as written, or the register's. */
  predicate Denotes(src: Operand, regs: seq<Word>, w: Word)
    requires |regs| == 4
  {
    match src
    case Number(n) => w == n.Value(10)
    case Register(r) => w == regs[r]
  }

  /** The registers but one, and the state but the registers, stay; the next line follows. */
  predicate Sets(s: SourceState, rd: RegIdx, next: nat, o: SourceOutcome)
    requires s.Ok()
  {
    o.Goes? && o.s.Ok() && o.s == s.(pos := next, regs := s.regs[rd := o.s.regs[rd]])
  }

  /** `o` is how the instruction ends: 0xFFFD is the input device, 0xFFFE the output
      device, a store to 0xFFFF halts, and what is below 0xFFF0 is memory. */
  ghost predicate Performs(prog: seq<Line>, i: Instr, s: SourceState, next: nat, input: bool, o: SourceOutcome)
    requires s.Ok()
  {
    match i
    case Arith(f, rd, src) =>
      Sets(s, rd, next, o) && exists b: Word :: Denotes(src, s.regs, b) && Computes(f, s.regs[rd], b, o.s.regs[rd])
    case Invert(rd) => Sets(s, rd, next, o) && Inverts(s.regs[rd], o.s.regs[rd])
    case Move(rd, src) => Sets(s, rd, next, o) && Denotes(src, s.regs, o.s.regs[rd])
    case Test(rd, src) =>
      && o.Goes? && o.s == s.(pos := next, order := o.s.order)
      && exists b: Word :: Denotes(src, s.regs, b) && Finds(s.regs[rd], b, o.s.order)
    case LoadFrom(rd, at) =>
      var addr := at.Value(16);
      if addr < 0xFFF0 then Sets(s, rd, next, o) && Holds(s.mem, addr, o.s.regs[rd])
      else if addr == 0xFFFD then Sets(s, rd, next, o) && o.s.regs[rd] == if input then 1 else 0
      else o == Faults
    case StoreTo(rs, at) =>
      var addr := at.Value(16);
      if addr < 0xFFF0 then
        o.Goes? && o.s == s.(pos := next, mem := o.s.mem) && Stored(s.mem, addr, s.regs[rs], o.s.mem)
      else if addr == 0xFFFF then o == Halts
      else if addr == 0xFFFE && s.regs[rs] == 0 then o == Goes(s.(pos := next, output := false))
      else if addr == 0xFFFE && s.regs[rs] == 1 then o == Goes(s.(pos := next, output := true))
      else o == Faults
    case JumpTo(cond, target) =>
      && o.Goes? && o.s == s.(pos := o.s.pos)
      && if Jumps(cond, s.order) then LabelAt(prog, target, o.s.pos) else o.s.pos == next
  }

  /** From line `pos` on, `at` has the first instruction; there is none if `at` is the end. */
  predicate Reaches(prog: seq<Line>, pos: nat, at: nat) {
    pos <= at <= |prog| && (forall k :: pos <= k < at ==> !prog[k].Code?) && (at < |prog| ==> prog[at].Code?)
  }

  /** `o` is how the program goes on from `s`: it halts after its last instruction. */
  ghost predicate GoesOn(prog: seq<Line>, s: SourceState, input: bool, o: SourceOutcome)
    requires s.Ok()
  {
    exists at: nat :: Reaches(prog, s.pos, at) &&
      if at == |prog| then o == Halts else Performs(prog, prog[at].instr, s, at + 1, input, o)
  }

  lemma DenotedValue(src: Operand, regs: seq<Word>, w: Word)
    requires |regs| == 4
    ensures Denotes(src, regs, w) <==> w == OperandValue(regs, src)
  {}

  lemma OneLabel(prog: seq<Line>, name: string, k: nat)
    requires HasLabel(prog, name) && LabelsUnique(prog)
    ensures LabelAt(prog, name, k) <==> k == LineOf(prog, name)
  {}

  lemma PerformedAsExecuted(prog: seq<Line>, i: Instr, s: SourceState, next: nat, input: bool, o: SourceOutcome)
    requires s.Ok() && (i.JumpTo? ==> HasLabel(prog, i.target)) && LabelsUnique(prog)
    ensures Performs(prog, i, s, next, input, o) <==> o == Execute(prog, i, s, next, input)
  {
    hide Computes, AluResult, Inverts, Denotes, OperandValue, Holds, LoadWord, Stored, StoreWord, Finds, Compare;
    hide LabelAt, LineOf, LabelsUnique, HasLabel;
    match i
    case Arith(f, rd, src) =>
      forall b: Word ensures Denotes(src, s.regs, b) <==> b == OperandValue(s.regs, src) {
        DenotedValue(src, s.regs, b);
      }
      var b := OperandValue(s.regs, src);
      assert Denotes(src, s.regs, b);
      Updated(s.regs, rd, AluResult(f, s.regs[rd], b));
      forall c: Word ensures Computes(f, s.regs[rd], b, c) <==> c == AluResult(f, s.regs[rd], b) {
        AluComputes(f, s.regs[rd], b, c);
      }
    case Invert(rd) =>
      forall c: Word ensures Inverts(s.regs[rd], c) <==> c == UINT64_MAX - s.regs[rd] { InvertedBits(s.regs[rd], c); }
    case Move(rd, src) =>
      forall b: Word ensures Denotes(src, s.regs, b) <==> b == OperandValue(s.regs, src) {
        DenotedValue(src, s.regs, b);
      }
    case Test(rd, src) =>
      forall b: Word ensures Denotes(src, s.regs, b) <==> b == OperandValue(s.regs, src) {
        DenotedValue(src, s.regs, b);
      }
      if o.Goes? { CompareFinds(s.regs[rd], OperandValue(s.regs, src), o.s.order); }
    case LoadFrom(rd, at) =>
      var addr := at.Value(16);
      if addr < 0xFFF0 {
        forall w: Word ensures Holds(s.mem, addr, w) <==> w == LoadWord(s.mem, addr) { LoadedHolds(s.mem, addr, w); }
      }
    case StoreTo(rs, at) =>
      if at.Value(16) < 0xFFF0 && o.Goes? { StoredWord(s.mem, at.Value(16), s.regs[rs], o.s.mem); }
    case JumpTo(_, target) =>
      if o.Goes? { OneLabel(prog, target, o.s.pos); }
      OneLabel(prog, target, LineOf(prog, target));
  }

  /** The interpreter's step is the one way in which the program can go on. */
  lemma {:induction false} StepGoesOn(prog: seq<Line>, s: SourceState, input: bool, o: SourceOutcome)
    requires s.Ok() && s.pos <= |prog| && TargetsDefined(prog) && LabelsUnique(prog)
    ensures GoesOn(prog, s, input, o) <==> o == SourceStep(prog, s, input)
  {
    hide Performs, Execute, LabelsUnique;
    var at := NextCode(prog, s.pos);
    assert Reaches(prog, s.pos, at);
    assert forall k: nat :: Reaches(prog, s.pos, k) ==> k == at;
    if at < |prog| { PerformedAsExecuted(prog, prog[at].instr, s, at + 1, input, o); }
  }
}
