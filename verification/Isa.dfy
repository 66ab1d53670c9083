/** The instruction set as an abstract machine whose every step is atomic: what the
    driver and its client implement together in several phases. */
module Isa {
  import opened Bits
  import opened Uapi
  import opened Words

  type RegIdx = r: int | 0 <= r < 4

  datatype Src = Imm(value: Word) | FromReg(reg: RegIdx)

  datatype Alu = Add | Sub | And2 | Or2

  datatype Cond = Always | IfEqual | IfGreater | IfLess

  datatype Op =
    | Bin(f: Alu, rd: RegIdx, src: Src)
    | Not(rd: RegIdx)
    | Mov(rd: RegIdx, src: Src)
    | Load(rd: RegIdx, addr: Word)
    | In(rd: RegIdx)
    | Store(rs: RegIdx, addr: Word)
    | Out(rs: RegIdx)
    | Halt
    | Cmp(rd: RegIdx, src: Src)
    | Jump(cond: Cond, target: Word)

  /** What the last comparison found. */
  datatype Order = Less | Equal | Greater

  datatype Machine = Machine(regs: seq<Word>, pc: Word, order: Order, mem: seq<Byte>, output: bool) {
    predicate Ok() {
      |regs| == 4 && |mem| == MEM_SIZE
    }
  }

  datatype Outcome = Continue(m: Machine, access: seq<MemAccess>) | Halted | Fault

  // ---- decoding ----

  /** An instruction at `pc` in memory. */
  function Fetch(mem: seq<Byte>, pc: nat): Raw
    requires pc + INSTR_SIZE <= |mem|
  {
    Raw(mem[pc], mem[pc + 1], mem[pc + 2], LoadWord(mem, pc + 3))
  }

  datatype Option<T> = None | Some(value: T)

  function DecodeSrc(raw: Raw): Option<Src> {
    if raw.mode == IMMEDIATE then Some(Imm(raw.operand2))
    else if raw.mode == REGISTER && raw.operand2 < 4 then Some(FromReg(raw.operand2))
    else None
  }

  /** Two-operand forms: a register, and an immediate or a register. */
  function DecodeRegSrc(raw: Raw): Option<(RegIdx, Src)> {
    if raw.operand1 >= 4 then None
    else match DecodeSrc(raw)
      case None => None
      case Some(src) => Some((raw.operand1, src))
  }

  function DecodeMov(raw: Raw): Option<Op> {
    if raw.mode == DIRECT_LOAD then
      if raw.operand1 >= 4 then None
      else if raw.operand2 < MMIO_START then Some(Load(raw.operand1, raw.operand2))
      else if raw.operand2 == MMIO_INPUT then Some(In(raw.operand1))
      else None
    else if raw.mode == DIRECT_STORE then
      if raw.operand2 == MMIO_HALT then Some(Halt)
      else if raw.operand1 >= 4 then None
      else if raw.operand2 < MMIO_START then Some(Store(raw.operand1, raw.operand2))
      else if raw.operand2 == MMIO_OUTPUT then Some(Out(raw.operand1))
      else None
    else
      match DecodeRegSrc(raw)
      case None => None
      case Some((rd, src)) => Some(Mov(rd, src))
  }

  /** The meaning of an encoded instruction; `None` if the CPU rejects it. */
  function Decode(raw: Raw): (op: Option<Op>) {
    var bin := (f: Alu) => match DecodeRegSrc(raw) { case None => None case Some((rd, src)) => Some(Bin(f, rd, src)) };
    if raw.opcode == ADD then bin(Add)
    else if raw.opcode == SUB then bin(Sub)
    else if raw.opcode == AND then bin(And2)
    else if raw.opcode == OR then bin(Or2)
    else if raw.opcode == NOT then
      if raw.mode == REGISTER && raw.operand2 < 4 then Some(Not(raw.operand2)) else None
    else if raw.opcode == MOV then DecodeMov(raw)
    else if raw.opcode == CMP then
      (match DecodeRegSrc(raw) case None => None case Some((rd, src)) => Some(Cmp(rd, src)))
    else if raw.opcode == JMP then Some(Jump(Always, raw.operand2))
    else if raw.opcode == JE then Some(Jump(IfEqual, raw.operand2))
    else if raw.opcode == JG then Some(Jump(IfGreater, raw.operand2))
    else if raw.opcode == JL then Some(Jump(IfLess, raw.operand2))
    else None
  }

  // ---- execution ----

  function Value(regs: seq<Word>, src: Src): Word
    requires |regs| == 4
  {
    match src
    case Imm(w) => w
    case FromReg(r) => regs[r]
  }

  function AluResult(f: Alu, a: Word, b: Word): (r: Word) {
    match f
    case Add => Wrap(a + b)
    case Sub => Wrap(a - b)
    case And2 => And(a, b)
    case Or2 =>
      Pow2Values();
      OrBelow(a, b, 64);
      Or(a, b)
  }

  /** The wrapped difference decides, as a 64-bit subtraction does. */
  function Compare(a: Word, b: Word): Order {
    var d := ToSigned(Wrap(ToSigned(a) - ToSigned(b)));
    if d == 0 then Equal else if d < 0 then Less else Greater
  }

  predicate Taken(cond: Cond, order: Order) {
    match cond
    case Always => true
    case IfEqual => order == Equal
    case IfGreater => order == Greater
    case IfLess => order == Less
  }

  function Advance(pc: Word): Word { Wrap(pc + INSTR_SIZE) }

  /** One instruction, start to finish; `input` is the level of the input device. */
  function Step(op: Op, m: Machine, input: bool): (o: Outcome)
    requires m.Ok()
    ensures o.Continue? ==> o.m.Ok()
  {
    var next := m.(pc := Advance(m.pc));
    match op
    case Bin(f, rd, src) => Continue(next.(regs := m.regs[rd := AluResult(f, m.regs[rd], Value(m.regs, src))]), [])
    case Not(rd) => Continue(next.(regs := m.regs[rd := UINT64_MAX - m.regs[rd]]), [])
    case Mov(rd, src) => Continue(next.(regs := m.regs[rd := Value(m.regs, src)]), [])
    case Load(rd, addr) =>
      if addr >= MMIO_START then Fault
      else Continue(next.(regs := m.regs[rd := LoadWord(m.mem, addr)]), [MemAccess(addr, false)])
    case In(rd) => Continue(next.(regs := m.regs[rd := if input then 1 else 0]), [])
    case Store(rs, addr) =>
      if addr >= MMIO_START then Fault
      else Continue(next.(mem := StoreWord(m.mem, addr, m.regs[rs])), [MemAccess(addr, true)])
    case Out(rs) => if m.regs[rs] <= 1 then Continue(next.(output := m.regs[rs] == 1), []) else Fault
    case Halt => Halted
    case Cmp(rd, src) => Continue(next.(order := Compare(m.regs[rd], Value(m.regs, src))), [])
    case Jump(cond, target) => Continue(if Taken(cond, m.order) then m.(pc := Wrap(target * INSTR_SIZE)) else next, [])
  }

  /** Fetch, decode and execute at once. */
  function AtomicStep(m: Machine, input: bool): (o: Outcome)
    requires m.Ok() && m.pc + INSTR_SIZE <= MEM_SIZE
    ensures o.Continue? ==> o.m.Ok()
  {
    match Decode(Fetch(m.mem, m.pc))
    case None => Fault
    case Some(op) => Step(op, m, input)
  }

  // ---- branches ----

  /** Exactly one of JE, JG and JL would be taken. */
  lemma Trichotomy(order: Order)
    ensures Taken(IfEqual, order) || Taken(IfGreater, order) || Taken(IfLess, order)
    ensures !(Taken(IfEqual, order) && Taken(IfGreater, order)) && !(Taken(IfEqual, order) && Taken(IfLess, order))
    ensures !(Taken(IfGreater, order) && Taken(IfLess, order))
  {}

  function SignedOrder(a: Word, b: Word): Order {
    if ToSigned(a) < ToSigned(b) then Less else if ToSigned(a) == ToSigned(b) then Equal else Greater
  }

  /** The range of a signed 64-bit integer. */
  predicate Fits(d: int) {
    0 <= d + TWO64 / 2 < TWO64
  }

  /** A comparison finds the signed order exactly when the difference fits in 64
      signed bits; equality is always found. */
  lemma {:induction false} CompareIsSigned(a: Word, b: Word)
    ensures Compare(a, b) == SignedOrder(a, b) <==> Fits(ToSigned(a) - ToSigned(b))
    ensures Compare(a, b) == Equal <==> a == b
  {
    var d := ToSigned(a) - ToSigned(b);
    assert d < TWO64 && d + TWO64 > 0;
    if d < 0 { DivUnique(d, TWO64, -1, d + TWO64); } else { DivUnique(d, TWO64, 0, d); }
  }

  /** Only a comparison changes what the branches see. */
  lemma {:induction false} OrderFixedByCompare(op: Op, m: Machine, input: bool)
    requires m.Ok() && Step(op, m, input).Continue?
    ensures Step(op, m, input).m.order
      == match op case Cmp(rd, src) => Compare(m.regs[rd], Value(m.regs, src)) case _ => m.order
  {}

  /** Loads and stores stay inside memory. */
  lemma {:induction false} AccessInBounds(op: Op, m: Machine, input: bool)
    requires m.Ok() && Step(op, m, input).Continue?
    ensures forall a :: a in Step(op, m, input).access ==> a.addr + 7 < MEM_SIZE
  {}
}
