/** Programs executed as written: the position is a line, jumps go to label lines, and
    running off the end halts. */
module SourceRuns {
  import opened Uapi
  import opened Words
  import opened Isa
  import opened Client
  import opened Source

  /** What the program sees of the machine, and the line it has reached. */
  datatype SourceState = SourceState(pos: nat, regs: seq<Word>, order: Order, mem: seq<Byte>, output: bool) {
    predicate Ok() {
      |regs| == 4 && |mem| == MEM_SIZE
    }
  }

  datatype SourceOutcome = Goes(s: SourceState) | Halts | Faults

  datatype SourceRun = SourceRun(s: SourceState, status: Status)

  /** The first instruction from line `pos` on; the end of the program if there is none. */
  function NextCode(prog: seq<Line>, pos: nat): (at: nat)
    requires pos <= |prog|
    ensures pos <= at <= |prog| && (at < |prog| ==> prog[at].Code?)
    ensures forall k :: pos <= k < at ==> !prog[k].Code?
    decreases |prog| - pos
  {
    if pos == |prog| || prog[pos].Code? then pos else NextCode(prog, pos + 1)
  }

  predicate LabelAt(prog: seq<Line>, name: string, k: nat) {
    k < |prog| && prog[k].Label? && prog[k].name == name
  }

  predicate HasLabel(prog: seq<Line>, name: string) {
    exists k :: 0 <= k < |prog| && LabelAt(prog, name, k)
  }

  /** The line a label stands on. */
  function LineOf(prog: seq<Line>, name: string): (k: nat)
    requires HasLabel(prog, name)
    ensures LabelAt(prog, name, k)
    decreases |prog|
  {
    if prog[0].Label? && prog[0].name == name then 0
    else
      assert exists j :: 0 <= j < |prog| && LabelAt(prog, name, j);
      var j :| 0 <= j < |prog| && LabelAt(prog, name, j);
      assert LabelAt(prog[1..], name, j - 1);
      LineOf(prog[1..], name) + 1
  }

  predicate TargetsDefined(prog: seq<Line>) {
    forall k :: 0 <= k < |prog| && prog[k].Code? && prog[k].instr.JumpTo? ==> HasLabel(prog, prog[k].instr.target)
  }

  /** No label stands on two lines. */
  predicate LabelsUnique(prog: seq<Line>) {
    forall j, k :: 0 <= j < k < |prog| && prog[j].Label? && prog[k].Label? ==> prog[j].name != prog[k].name
  }

  function OperandValue(regs: seq<Word>, src: Operand): Word
    requires |regs| == 4
  {
    match src
    case Number(n) => n.Value(10)
    case Register(r) => regs[r]
  }

  /** The effect of one instruction, after which line `next` follows unless it jumps. */
  function Execute(prog: seq<Line>, i: Instr, s: SourceState, next: nat, input: bool): (o: SourceOutcome)
    requires s.Ok() && (i.JumpTo? ==> HasLabel(prog, i.target))
    ensures o.Goes? ==> o.s.Ok()
    ensures o.Goes? && next <= |prog| ==> o.s.pos <= |prog|
  {
    var on := s.(pos := next);
    match i
    case Arith(f, rd, src) => Goes(on.(regs := s.regs[rd := AluResult(f, s.regs[rd], OperandValue(s.regs, src))]))
    case Invert(rd) => Goes(on.(regs := s.regs[rd := UINT64_MAX - s.regs[rd]]))
    case Move(rd, src) => Goes(on.(regs := s.regs[rd := OperandValue(s.regs, src)]))
    case Test(rd, src) => Goes(on.(order := Compare(s.regs[rd], OperandValue(s.regs, src))))
    case LoadFrom(rd, at) =>
      var addr := at.Value(16);
      if addr < MMIO_START then Goes(on.(regs := s.regs[rd := LoadWord(s.mem, addr)]))
      else if addr == MMIO_INPUT then Goes(on.(regs := s.regs[rd := if input then 1 else 0]))
      else Faults
    case StoreTo(rs, at) =>
      var addr := at.Value(16);
      if addr < MMIO_START then Goes(on.(mem := StoreWord(s.mem, addr, s.regs[rs])))
      else if addr == MMIO_OUTPUT then (if s.regs[rs] <= 1 then Goes(on.(output := s.regs[rs] == 1)) else Faults)
      else if addr == MMIO_HALT then Halts
      else Faults
    case JumpTo(cond, target) => Goes(if Taken(cond, s.order) then s.(pos := LineOf(prog, target)) else on)
  }

  function SourceStep(prog: seq<Line>, s: SourceState, input: bool): (o: SourceOutcome)
    requires s.Ok() && s.pos <= |prog| && TargetsDefined(prog)
    ensures o.Goes? ==> o.s.Ok() && o.s.pos <= |prog|
  {
    var at := NextCode(prog, s.pos);
    if at == |prog| then Halts else Execute(prog, prog[at].instr, s, at + 1, input)
  }

  function StepSource(prog: seq<Line>, q: SourceRun, input: bool): (q': SourceRun)
    requires q.s.Ok() && q.s.pos <= |prog| && TargetsDefined(prog)
    ensures q'.s.Ok() && q'.s.pos <= |prog|
  {
    if q.status != Running then q
    else match SourceStep(prog, q.s, input)
      case Goes(s') => SourceRun(s', Running)
      case Halts => q.(status := Finished)
      case Faults => q.(status := Failed)
  }

  /** The state after at most `n` instructions. */
  function RunSource(prog: seq<Line>, s: SourceState, inputs: nat -> bool, n: nat): (q: SourceRun)
    requires s.Ok() && s.pos <= |prog| && TargetsDefined(prog)
    ensures q.s.Ok() && q.s.pos <= |prog|
  {
    if n == 0 then SourceRun(s, Running) else StepSource(prog, RunSource(prog, s, inputs, n - 1), inputs(n - 1))
  }
}
