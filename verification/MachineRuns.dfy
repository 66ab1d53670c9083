/** Whole runs of the machine: what the loop in `run` does over any number of
    iterations, the reference string it records, and which comparison a branch sees. */
module MachineRuns {
  import opened Bits
  import opened Uapi
  import opened Words
  import opened Isa
  import opened IsaMeaning
  import opened Client

  datatype RunState = RunState(m: Machine, status: Status, trace: seq<MemAccess>)

  /** One more iteration for a program of `count` instructions, unless the run has
      stopped. */
  ghost function StepRun(r: RunState, count: nat, input: bool): (r': RunState)
    requires r.m.Ok()
    ensures r'.m.Ok()
  {
    if r.status != Running || r.m.pc + INSTR_SIZE > MEM_SIZE then r
    else if PastEnd(r.m, input, count) then r.(m := AfterDriver(r.m, input).value, status := Overrun)
    else match AtomicStep(r.m, input)
      case Continue(m', access) => RunState(m', Running, r.trace + access + [FetchAccess(m'.pc)])
      case Halted => r.(status := Finished)
      case Fault => r.(status := Failed)
  }

  /** The state after at most `n` iterations; `inputs` gives the input device's level at
      each of them. */
  ghost function RunMachine(m: Machine, count: nat, inputs: nat -> bool, n: nat): (r: RunState)
    requires m.Ok()
    ensures r.m.Ok()
  {
    if n == 0 then RunState(m, Running, [FetchAccess(m.pc)])
    else StepRun(RunMachine(m, count, inputs, n - 1), count, inputs(n - 1))
  }

  /** Up to iteration `n`, the run gives the client nothing it cannot carry out. */
  ghost predicate StaysInside(m: Machine, count: nat, inputs: nat -> bool, n: nat)
    requires m.Ok()
  {
    forall k :: 0 <= k < n ==> InsideAt(m, count, inputs, k)
  }

  ghost predicate InsideAt(m: Machine, count: nat, inputs: nat -> bool, k: nat)
    requires m.Ok()
  {
    var r := RunMachine(m, count, inputs, k);
    r.status == Running ==> Steppable(r.m, inputs(k))
  }

  /** `run`, for at most `n` iterations. */
  method Run(client: Client, count: nat, inputs: nat -> bool, n: nat) returns (status: Status)
    requires client.Ready() && client.trace == [FetchAccess(client.cpu.pc)]
    requires StaysInside(client.View(), count, inputs, n)
    modifies client`writeBuf, client`readBuf, client`trace, client.cpu, client.cpu.regs, client.memory
    ensures client.Valid()
    ensures RunState(client.View(), status, client.trace) == RunMachine(old(client.View()), count, inputs, n)
  {
    hide StepRun, AtomicStep, Steppable;
    ghost var m0 := client.View();
    status := Running;
    var k := 0;
    while k < n && status == Running
      invariant k <= n && client.Valid() && (status == Running ==> client.Ready())
      invariant RunState(client.View(), status, client.trace) == RunMachine(m0, count, inputs, k)
    {
      assert InsideAt(m0, count, inputs, k);
      status := RunOnce(client, count, inputs(k));
      k := k + 1;
    }
    StoppedStays(m0, count, inputs, k, n);
  }

  /** The body of the loop in `run`. */
  method RunOnce(client: Client, count: nat, input: bool) returns (status: Status)
    requires client.Ready() && Steppable(client.View(), input)
    modifies client`writeBuf, client`readBuf, client`trace, client.cpu, client.cpu.regs, client.memory
    ensures client.Valid() && (status == Running ==> client.Ready())
    ensures RunState(client.View(), status, client.trace)
      == StepRun(RunState(old(client.View()), Running, old(client.trace)), count, input)
  {
    hide AtomicStep, AfterDriver;
    status := client.Iterate(input, count);
  }

  /** Nothing happens after a run has stopped. */
  lemma {:induction false} StoppedStays(m: Machine, count: nat, inputs: nat -> bool, k: nat, n: nat)
    requires m.Ok() && k <= n && (k == n || RunMachine(m, count, inputs, k).status != Running)
    ensures RunMachine(m, count, inputs, n) == RunMachine(m, count, inputs, k)
  {
    if k < n { StoppedStays(m, count, inputs, k, n - 1); }
  }

  // ---- the reference string ----

  /** What executing one instruction adds to the reference string: its fetch, then its
      data access if it has one. */
  function References(m: Machine, input: bool): seq<MemAccess>
    requires m.Ok() && m.pc + INSTR_SIZE <= MEM_SIZE
  {
    [FetchAccess(m.pc)] +
    match Decode(Isa.Fetch(m.mem, m.pc))
    case Some(Load(_, addr)) => [MemAccess(addr, false)]
    case Some(Store(_, addr)) => [MemAccess(addr, true)]
    case _ => []
  }

  /** The references of the first `n` executed instructions, in order. */
  ghost function AllReferences(m: Machine, count: nat, inputs: nat -> bool, n: nat): seq<MemAccess>
    requires m.Ok()
  {
    if n == 0 then []
    else
      var r := RunMachine(m, count, inputs, n - 1);
      AllReferences(m, count, inputs, n - 1)
      + if r.status == Running && r.m.pc + INSTR_SIZE <= MEM_SIZE then References(r.m, inputs(n - 1)) else []
  }

  lemma StepReferences(r: RunState, count: nat, input: bool)
    requires r.m.Ok() && r.status == Running && r.m.pc + INSTR_SIZE <= MEM_SIZE
    requires StepRun(r, count, input).status in {Running, Finished}
    ensures var r' := StepRun(r, count, input);
      References(r.m, input) != [] && References(r.m, input)[0] == FetchAccess(r.m.pc)
      && r'.trace == r.trace + References(r.m, input)[1..] + if r'.status == Running then [FetchAccess(r'.m.pc)] else []
  {
    var op := Decode(Isa.Fetch(r.m.mem, r.m.pc)).value;
    assert References(r.m, input)[1..] ==
      match op {
        case Load(_, addr) => [MemAccess(addr, false)]
        case Store(_, addr) => [MemAccess(addr, true)]
        case _ => []
      };
  }

  lemma JoinReferences(all: seq<MemAccess>, f: MemAccess, refs: seq<MemAccess>, rest: seq<MemAccess>)
    requires refs != [] && refs[0] == f
    ensures all + [f] + refs[1..] + rest == all + refs + rest
  {
    assert [f] + refs[1..] == refs;
  }

  /** The recorded trace is exactly the references of the executed instructions; while
      the run goes on, the next instruction's fetch is already recorded. */
  lemma {:induction false} ReferenceString(m: Machine, count: nat, inputs: nat -> bool, n: nat)
    requires m.Ok() && forall k :: 0 <= k <= n ==> RunMachine(m, count, inputs, k).m.pc + INSTR_SIZE <= MEM_SIZE
    requires RunMachine(m, count, inputs, n).status in {Running, Finished}
    ensures var r := RunMachine(m, count, inputs, n);
      r.trace == AllReferences(m, count, inputs, n) + if r.status == Running then [FetchAccess(r.m.pc)] else []
  {
    hide AtomicStep, References, LoadWord;
    if n > 0 {
      var r := RunMachine(m, count, inputs, n - 1);
      ReferenceString(m, count, inputs, n - 1);
      if r.status == Running {
        StepReferences(r, count, inputs(n - 1));
        var r' := StepRun(r, count, inputs(n - 1));
        JoinReferences(AllReferences(m, count, inputs, n - 1), FetchAccess(r.m.pc), References(r.m, inputs(n - 1)),
          if r'.status == Running then [FetchAccess(r'.m.pc)] else []);
      }
    }
  }

  /** The operation the machine is about to execute. */
  function NextOp(r: RunState): Option<Op>
    requires r.m.Ok()
  {
    if r.status == Running && r.m.pc + INSTR_SIZE <= MEM_SIZE then Decode(Isa.Fetch(r.m.mem, r.m.pc)) else None
  }

  /** Does iteration `k` take up an instruction? */
  ghost predicate TakesUp(m: Machine, count: nat, inputs: nat -> bool, k: nat)
    requires m.Ok()
  {
    var r := RunMachine(m, count, inputs, k);
    r.status == Running && r.m.pc + INSTR_SIZE <= MEM_SIZE
  }

  /** Where in the trace iteration `k` finds its fetch: after the fetches and the data
      accesses of the instructions before. */
  ghost function FetchPlace(m: Machine, count: nat, inputs: nat -> bool, k: nat): nat
    requires m.Ok()
  {
    if k == 0 then 0
    else
      var op := NextOp(RunMachine(m, count, inputs, k - 1));
      FetchPlace(m, count, inputs, k - 1)
      + (if TakesUp(m, count, inputs, k - 1) then 1 else 0)
      + (if op.Some? && (op.value.Load? || op.value.Store?) then 1 else 0)
  }

  /** The trace has the fetch of iteration `k` in its place: a read at the program counter,
      and before the next fetch exactly the instruction's data access, if it has one. */
  ghost predicate RecordedAt(tr: seq<MemAccess>, m: Machine, count: nat, inputs: nat -> bool, k: nat)
    requires m.Ok()
  {
    var r, p, next := RunMachine(m, count, inputs, k), FetchPlace(m, count, inputs, k),
      FetchPlace(m, count, inputs, k + 1);
    && p < next <= |tr| && tr[p].addr == r.m.pc && !tr[p].isWrite
    && match NextOp(r)
       case Some(Load(_, addr)) => next == p + 2 && tr[p + 1].addr == addr && !tr[p + 1].isWrite
       case Some(Store(_, addr)) => next == p + 2 && tr[p + 1].addr == addr && tr[p + 1].isWrite
       case _ => next == p + 1
  }

  /** The trace after `n` iterations: every instruction taken up, in order, and while the
      run goes on the fetch of the next. */
  ghost predicate Records(tr: seq<MemAccess>, m: Machine, count: nat, inputs: nat -> bool, n: nat)
    requires m.Ok()
  {
    var r, last := RunMachine(m, count, inputs, n), FetchPlace(m, count, inputs, n);
    && (forall k :: 0 <= k < n && TakesUp(m, count, inputs, k) ==> RecordedAt(tr, m, count, inputs, k))
    && |tr| == last + (if r.status == Running then 1 else 0)
    && (r.status == Running ==> tr[last].addr == r.m.pc && !tr[last].isWrite)
  }

  lemma RecordedGrows(tr: seq<MemAccess>, tr': seq<MemAccess>, m: Machine, count: nat, inputs: nat -> bool, k: nat)
    requires m.Ok() && RecordedAt(tr, m, count, inputs, k) && tr <= tr'
    ensures RecordedAt(tr', m, count, inputs, k)
  {
    hide RunMachine, FetchPlace, NextOp;
  }

  /** What one iteration adds to the trace. */
  lemma StepRecords(r: RunState, count: nat, input: bool)
    requires r.m.Ok() && r.status == Running && r.m.pc + INSTR_SIZE <= MEM_SIZE
    requires StepRun(r, count, input).status != Overrun
    ensures var r' := StepRun(r, count, input);
      var next := if r'.status == Running then [MemAccess(r'.m.pc, false)] else [];
      r'.trace == r.trace + (match NextOp(r)
        case Some(Load(_, addr)) => [MemAccess(addr, false)]
        case Some(Store(_, addr)) => [MemAccess(addr, true)]
        case _ => []) + next
  {
    hide AluResult, Compare, StoreWord, LoadWord, Isa.Fetch;
    DecodedInBounds(Isa.Fetch(r.m.mem, r.m.pc));
    hide Decode;
  }

  /** Every run that does not leave its program, whether it goes on, halts or fails, has
      recorded for each instruction that it took up one read at its program counter
      followed by its data access, in order, and nothing else. */
  lemma {:induction false} RecordedTrace(m: Machine, count: nat, inputs: nat -> bool, n: nat)
    requires m.Ok() && RunMachine(m, count, inputs, n).status != Overrun
    ensures Records(RunMachine(m, count, inputs, n).trace, m, count, inputs, n)
  {
    hide StepRun, NextOp;
    if n > 0 {
      var r, r' := RunMachine(m, count, inputs, n - 1), RunMachine(m, count, inputs, n);
      StillNotOverrun(r, count, inputs(n - 1));
      RecordedTrace(m, count, inputs, n - 1);
      if TakesUp(m, count, inputs, n - 1) {
        StepRecords(r, count, inputs(n - 1));
        assert RecordedAt(r'.trace, m, count, inputs, n - 1);
      } else {
        NothingTakenUp(r, count, inputs(n - 1));
      }
      forall k | 0 <= k < n - 1 && TakesUp(m, count, inputs, k) ensures RecordedAt(r'.trace, m, count, inputs, k) {
        RecordedGrows(r.trace, r'.trace, m, count, inputs, k);
      }
    }
  }

  lemma StillNotOverrun(r: RunState, count: nat, input: bool)
    requires r.m.Ok() && StepRun(r, count, input).status != Overrun
    ensures r.status != Overrun
  {}

  lemma NothingTakenUp(r: RunState, count: nat, input: bool)
    requires r.m.Ok() && !(r.status == Running && r.m.pc + INSTR_SIZE <= MEM_SIZE)
    ensures StepRun(r, count, input) == r && NextOp(r).None?
  {}

  // ---- branches ----

  predicate IsCompare(op: Option<Op>) { op.Some? && op.value.Cmp? }

  ghost predicate CompareAt(m: Machine, count: nat, inputs: nat -> bool, k: nat)
    requires m.Ok()
  {
    IsCompare(NextOp(RunMachine(m, count, inputs, k)))
  }

  /** What branches see after the next step. */
  function Decided(r: RunState): Order
    requires r.m.Ok()
  {
    match NextOp(r)
    case Some(Cmp(rd, src)) => Compare(r.m.regs[rd], Value(r.m.regs, src))
    case _ => r.m.order
  }

  lemma DriverOrder(m: Machine, input: bool)
    requires m.Ok() && m.pc + INSTR_SIZE <= MEM_SIZE && AfterDriver(m, input).Some?
    ensures Decode(Isa.Fetch(m.mem, m.pc)).Some?
    ensures var op := Decode(Isa.Fetch(m.mem, m.pc)).value;
      AfterDriver(m, input).value.order
        == match op case Cmp(rd, src) => Compare(m.regs[rd], Value(m.regs, src)) case _ => m.order
  {}

  lemma StepOrder(r: RunState, count: nat, input: bool)
    requires r.m.Ok()
    ensures StepRun(r, count, input).m.order == Decided(r)
    ensures !IsCompare(NextOp(r)) ==> Decided(r) == r.m.order
  {
    hide Decode, Step, AfterDriver, Compare, Value;
    if r.status == Running && r.m.pc + INSTR_SIZE <= MEM_SIZE {
      if PastEnd(r.m, input, count) {
        DriverOrder(r.m, input);
      } else if NextOp(r).Some? && Step(NextOp(r).value, r.m, input).Continue? {
        OrderFixedByCompare(NextOp(r).value, r.m, input);
      } else {
        StoppedOrder(r.m, input);
      }
    }
  }

  /** An accepted comparison never stops a run. */
  lemma StoppedOrder(m: Machine, input: bool)
    requires m.Ok() && m.pc + INSTR_SIZE <= MEM_SIZE && !AtomicStep(m, input).Continue?
    ensures !IsCompare(Decode(Isa.Fetch(m.mem, m.pc)))
  {}

  ghost function OrderAt(m: Machine, count: nat, inputs: nat -> bool, k: nat): Order
    requires m.Ok()
  {
    RunMachine(m, count, inputs, k).m.order
  }

  lemma OrderAfter(m: Machine, count: nat, inputs: nat -> bool, k: nat)
    requires m.Ok()
    ensures OrderAt(m, count, inputs, k + 1) == Decided(RunMachine(m, count, inputs, k))
    ensures !CompareAt(m, count, inputs, k) ==> OrderAt(m, count, inputs, k + 1) == OrderAt(m, count, inputs, k)
  {
    StepOrder(RunMachine(m, count, inputs, k), count, inputs(k));
  }

  /** No other instruction changes what the branches see. */
  lemma {:induction false} NoCompareBetween(m: Machine, count: nat, inputs: nat -> bool, i: nat, n: nat)
    requires m.Ok() && i <= n && forall k :: i <= k < n ==> !CompareAt(m, count, inputs, k)
    ensures OrderAt(m, count, inputs, n) == OrderAt(m, count, inputs, i)
  {
    hide RunMachine, CompareAt, OrderAt;
    if i < n {
      NoCompareBetween(m, count, inputs, i, n - 1);
      OrderAfter(m, count, inputs, n - 1);
    }
  }

  /** Through any number of other instructions, branches see the latest comparison. */
  lemma {:induction false} LatestCompareDecides(m: Machine, count: nat, inputs: nat -> bool, i: nat, n: nat)
    requires m.Ok() && i < n && CompareAt(m, count, inputs, i)
    requires forall k :: i < k < n ==> !CompareAt(m, count, inputs, k)
    ensures var r := RunMachine(m, count, inputs, i); var op := NextOp(r).value;
      OrderAt(m, count, inputs, n) == Compare(r.m.regs[op.rd], Value(r.m.regs, op.src))
  {
    hide RunMachine, OrderAt, NextOp, Decided;
    NoCompareBetween(m, count, inputs, i + 1, n);
    OrderAfter(m, count, inputs, i);
    DecidedByCompare(RunMachine(m, count, inputs, i));
  }

  lemma DecidedByCompare(r: RunState)
    requires r.m.Ok() && IsCompare(NextOp(r))
    ensures Decided(r) == Compare(r.m.regs[NextOp(r).value.rd], Value(r.m.regs, NextOp(r).value.src))
  {}

  /** Would the jumps of the three conditional kinds all go as this order says? */
  predicate BranchesAs(seen: Order, order: Order) {
    forall cond: Cond :: Taken(cond, seen) <==> Taken(cond, order)
  }

  /** At any branch after a comparison, exactly one of JE, JG and JL is taken, and it is
      the one for the signed order of the operands compared last if and only if their
      difference fits in 64 signed bits. */
  lemma {:induction false} BranchDecided(m: Machine, count: nat, inputs: nat -> bool, i: nat, n: nat)
    requires m.Ok() && i < n && CompareAt(m, count, inputs, i)
    requires forall k :: i < k < n ==> !CompareAt(m, count, inputs, k)
    ensures var order := OrderAt(m, count, inputs, n);
      && (Taken(IfEqual, order) || Taken(IfGreater, order) || Taken(IfLess, order))
      && !(Taken(IfEqual, order) && Taken(IfGreater, order)) && !(Taken(IfEqual, order) && Taken(IfLess, order))
      && !(Taken(IfGreater, order) && Taken(IfLess, order))
    ensures var r := RunMachine(m, count, inputs, i); var op := NextOp(r).value;
      var a, b := r.m.regs[op.rd], Value(r.m.regs, op.src);
      BranchesAs(OrderAt(m, count, inputs, n), SignedOrder(a, b)) <==> Fits(ToSigned(a) - ToSigned(b))
  {
    hide RunMachine, OrderAt, NextOp, CompareAt, Compare, SignedOrder, Fits;
    LatestCompareDecides(m, count, inputs, i, n);
    ComparedAt(m, count, inputs, i);
    var r := RunMachine(m, count, inputs, i);
    var op := NextOp(r).value;
    CompareIsSigned(r.m.regs[op.rd], Value(r.m.regs, op.src));
    Trichotomy(OrderAt(m, count, inputs, n));
    SameBranches(OrderAt(m, count, inputs, n), SignedOrder(r.m.regs[op.rd], Value(r.m.regs, op.src)));
  }

  lemma ComparedAt(m: Machine, count: nat, inputs: nat -> bool, i: nat)
    requires m.Ok() && CompareAt(m, count, inputs, i)
    ensures var op := NextOp(RunMachine(m, count, inputs, i)); op.Some? && op.value.Cmp?
  {}

  lemma SameBranches(a: Order, b: Order)
    ensures BranchesAs(a, b) <==> a == b
  {
    if BranchesAs(a, b) {
      assert Taken(IfEqual, a) <==> Taken(IfEqual, b);
      assert Taken(IfLess, a) <==> Taken(IfLess, b);
    }
  }

  /** The least signed number is found greater than one. */
  lemma {:induction false} DifferenceWraps()
    ensures var a, b: Word := TWO64 / 2, 1;
      && ToSigned(a) == -(TWO64 / 2) && ToSigned(b) == 1 && !Fits(ToSigned(a) - ToSigned(b))
      && SignedOrder(a, b) == Less && Compare(a, b) == Greater
  {
    var d := ToSigned(TWO64 / 2) - 1;
    DivUnique(d, TWO64, -1, d + TWO64);
  }

  /** JMP always goes to its target, JE exactly after equality, JG after greater and JL
      after less; otherwise the next instruction follows. */
  lemma {:induction false} JumpGoes(m: Machine, count: nat, inputs: nat -> bool, n: nat)
    requires m.Ok() && RunMachine(m, count, inputs, n + 1).status == Running
    requires var op := NextOp(RunMachine(m, count, inputs, n)); op.Some? && op.value.Jump?
    ensures var r, r' := RunMachine(m, count, inputs, n), RunMachine(m, count, inputs, n + 1);
      var op := NextOp(r).value;
      var target, next := op.target * 11 % 0x1_0000_0000_0000_0000, (r.m.pc + 11) % 0x1_0000_0000_0000_0000;
      && r'.m == r.m.(pc := r'.m.pc)
      && (op.cond == Always ==> r'.m.pc == target)
      && (op.cond == IfEqual ==> r'.m.pc == if r.m.order == Equal then target else next)
      && (op.cond == IfGreater ==> r'.m.pc == if r.m.order == Greater then target else next)
      && (op.cond == IfLess ==> r'.m.pc == if r.m.order == Less then target else next)
  {
    hide Decode, AfterDriver, LoadWord;
  }

  /** A conditional jump after a comparison of `a` and `b` whose difference fits goes by
      their signed order, however many other instructions stand between the two. */
  lemma {:induction false} JumpsBySign(m: Machine, count: nat, inputs: nat -> bool, i: nat, n: nat)
    requires m.Ok() && i < n && CompareAt(m, count, inputs, i)
    requires forall k :: i < k < n ==> !CompareAt(m, count, inputs, k)
    requires var op := NextOp(RunMachine(m, count, inputs, n)); op.Some? && op.value.Jump?
    requires RunMachine(m, count, inputs, n + 1).status == Running
    requires var (a, b) := Compared(m, count, inputs, i); Fits(ToSigned(a) - ToSigned(b))
    ensures var (a, b) := Compared(m, count, inputs, i);
      var r, r' := RunMachine(m, count, inputs, n), RunMachine(m, count, inputs, n + 1);
      var op := NextOp(r).value;
      var target, next := op.target * 11 % 0x1_0000_0000_0000_0000, (r.m.pc + 11) % 0x1_0000_0000_0000_0000;
      && (op.cond == IfEqual ==> r'.m.pc == if ToSigned(a) == ToSigned(b) then target else next)
      && (op.cond == IfGreater ==> r'.m.pc == if ToSigned(a) > ToSigned(b) then target else next)
      && (op.cond == IfLess ==> r'.m.pc == if ToSigned(a) < ToSigned(b) then target else next)
  {
    hide RunMachine, NextOp, CompareAt, Compare, Fits, ToSigned;
    LatestCompareDecides(m, count, inputs, i, n);
    ComparedAt(m, count, inputs, i);
    var (a, b) := Compared(m, count, inputs, i);
    CompareIsSigned(a, b);
    JumpGoes(m, count, inputs, n);
  }

  /** The operands of the comparison at step `i`. */
  ghost function Compared(m: Machine, count: nat, inputs: nat -> bool, i: nat): (Word, Word)
    requires m.Ok() && CompareAt(m, count, inputs, i)
  {
    var r := RunMachine(m, count, inputs, i);
    var op := NextOp(r).value;
    (r.m.regs[op.rd], Value(r.m.regs, op.src))
  }

  // ---- what steps mean ----

  /** The eleven bytes at `pc` are this instruction. */
  predicate Stands(mem: seq<Byte>, pc: nat, raw: Raw)
    requires pc + 11 <= |mem|
  {
    raw.opcode == mem[pc] && raw.mode == mem[pc + 1] && raw.operand1 == mem[pc + 2] && Holds(mem, pc + 3, raw.operand2)
  }

  /** The operation that stands at the program counter ends with `o`; if none does, the
      CPU rejects it. */
  ghost predicate Executes(m: Machine, input: bool, o: Outcome)
    requires m.Ok() && m.pc + 11 <= MEM_SIZE
  {
    exists raw :: Stands(m.mem, m.pc, raw) &&
      if exists op :: Encodes(raw, op) then exists op :: Encodes(raw, op) && Does(op, m, input, o) else o == Fault
  }

  /** The run goes on with the machine that the outcome leaves, recording its access and
      the next fetch, or stops with the one it had. */
  predicate Ends(r: RunState, o: Outcome, r': RunState) {
    match o
    case Continue(m', access) => r' == RunState(m', Running, r.trace + access + [MemAccess(m'.pc, false)])
    case Halted => r' == r.(status := Finished)
    case Fault => r' == r.(status := Failed)
  }

  /** An atomic step ends as the bytes at the program counter say, and in no other way. */
  lemma {:induction false} AtomicStepMeant(m: Machine, input: bool, o: Outcome)
    requires m.Ok() && m.pc + 11 <= MEM_SIZE
    ensures Executes(m, input, o) <==> o == AtomicStep(m, input)
  {
    hide Decode, Does, Encodes, LoadWord, Step, Holds;
    var raw := Isa.Fetch(m.mem, m.pc);
    var at := m.pc + 3;
    forall w: Word ensures Holds(m.mem, at, w) <==> w == LoadWord(m.mem, at) { LoadedHolds(m.mem, at, w); }
    assert Stands(m.mem, m.pc, raw);
    assert forall raw' :: Stands(m.mem, m.pc, raw') ==> raw' == raw;
    forall op ensures Decode(raw) == Some(op) <==> Encodes(raw, op) { DecodedAsEncoded(raw, op); }
    if Decode(raw).Some? {
      StepIsMeant(Decode(raw).value, m, input, o);
    }
  }

  /** Each iteration of a run inside the program does what the bytes at its program
      counter mean. */
  lemma {:induction false} RunMeant(m: Machine, count: nat, inputs: nat -> bool, n: nat)
    requires m.Ok()
    requires var r := RunMachine(m, count, inputs, n);
      r.status == Running && r.m.pc + 11 <= MEM_SIZE && r.m.pc / 11 < count
    ensures var r := RunMachine(m, count, inputs, n);
      exists o :: Executes(r.m, inputs(n), o) && Ends(r, o, RunMachine(m, count, inputs, n + 1))
  {
    hide AtomicStep, Executes;
    var r := RunMachine(m, count, inputs, n);
    AtomicStepMeant(r.m, inputs(n), AtomicStep(r.m, inputs(n)));
  }

  /** The exit for an instruction past the program is taken exactly for an index that is
      not below the count, after the driver has accepted the instruction. */
  lemma {:induction false} LeavesProgram(m: Machine, count: nat, inputs: nat -> bool, n: nat)
    requires m.Ok()
    requires var r := RunMachine(m, count, inputs, n); r.status == Running && r.m.pc + 11 <= MEM_SIZE
    ensures var r, r' := RunMachine(m, count, inputs, n), RunMachine(m, count, inputs, n + 1);
      && (r'.status == Overrun <==> r.m.pc / 11 >= count && !Executes(r.m, inputs(n), Fault))
      && (r'.status == Overrun ==> r'.trace == r.trace && r'.m.mem == r.m.mem)
  {
    hide Executes, Decode, LoadWord;
    var r := RunMachine(m, count, inputs, n);
    AtomicStepMeant(r.m, inputs(n), Fault);
    DecodedInBounds(Isa.Fetch(r.m.mem, r.m.pc));
  }

  // ---- bounds ----

  /** Every access that a run records stays in memory with all its eight bytes. */
  lemma {:induction false} TraceInBounds(m: Machine, count: nat, inputs: nat -> bool, n: nat)
    requires m.Ok() && forall k :: 0 <= k <= n ==> RunMachine(m, count, inputs, k).m.pc + INSTR_SIZE <= MEM_SIZE
    ensures forall a :: a in RunMachine(m, count, inputs, n).trace ==> a.addr + 7 < MEM_SIZE
  {
    hide AtomicStep, AfterDriver;
    if n > 0 {
      TraceInBounds(m, count, inputs, n - 1);
      StepInBounds(RunMachine(m, count, inputs, n - 1).m, inputs(n - 1));
    }
  }

  lemma StepInBounds(m: Machine, input: bool)
    requires m.Ok()
    ensures m.pc + INSTR_SIZE <= MEM_SIZE && AtomicStep(m, input).Continue? ==>
      forall a :: a in AtomicStep(m, input).access ==> a.addr + 7 < MEM_SIZE
  {
    hide Decode, Step;
    if m.pc + INSTR_SIZE <= MEM_SIZE && AtomicStep(m, input).Continue? {
      AccessInBounds(Decode(Isa.Fetch(m.mem, m.pc)).value, m, input);
    }
  }
}
