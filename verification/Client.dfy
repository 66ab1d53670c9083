/** The client of the CPU driver: it owns memory, feeds instructions to the driver,
    completes loads and stores, and records every memory access. */
module Client {
  import opened Bits
  import opened Uapi
  import opened Words
  import opened Isa
  import opened Driver

  /** How far `run` has come: `Overrun` is its exit for an instruction past the program. */
  datatype Status = Running | Finished | Failed | Overrun

  function FetchAccess(pc: Word): MemAccess { MemAccess(pc, false) }

  class Client {
    const memory: array<Byte>
    const cpu: Cpu
    var writeBuf: WriteValue
    var readBuf: ReadValue
    /** What has been written to the trace collector. */
    var trace: seq<MemAccess>

    ghost predicate Valid()
      reads cpu
    {
      memory.Length == MEM_SIZE && cpu.Valid()
    }

    ghost function View(): (m: Machine)
      requires Valid()
      reads cpu, cpu.regs, memory
      ensures m.Ok()
    {
      Machine(cpu.regs[..], cpu.pc, OrderOf(cpu.fr), memory[..], cpu.output)
    }

    /** At the head of the loop: the next instruction is in hand, no load is pending. */
    ghost predicate Ready()
      reads this, cpu, cpu.regs, memory
    {
      && Valid() && !cpu.loadPending
      && cpu.pc + INSTR_SIZE <= MEM_SIZE && readBuf.pc == cpu.pc
      && writeBuf.isInstruction && writeBuf.instruction == Isa.Fetch(memory[..], cpu.pc)
    }

    /** `read_from_memory`. */
    method ReadFromMemory(address: nat) returns (value: Word)
      requires Valid() && address + 8 <= MEM_SIZE
      ensures value == LoadWord(memory[..], address)
    {
      ghost var bytes := memory[address..address + 8];
      var v := 0;
      var i := 0;
      while i < 8
        invariant i <= 8 && 0 <= v == LeValue(bytes[..i])
      {
        LeValueBound(bytes[..i]);
        LeValueAppend(bytes[..i], bytes[i]);
        OrDisjoint(v, memory[address + i], 8 * i);
        assert bytes[..i + 1] == bytes[..i] + [bytes[i]];
        v := Or(v, memory[address + i] * Pow2(8 * i));
        i := i + 1;
      }
      assert bytes[..8] == bytes == memory[..][address..address + 8];
      assert v == LoadWord(memory[..], address);
      value := v;
    }

    /** `write_to_memory`. */
    method WriteToMemory(address: nat, value: Word)
      requires Valid() && address + 8 <= MEM_SIZE
      modifies memory
      ensures memory[..] == StoreWord(old(memory[..]), address, value)
    {
      var i := 0;
      while i < 8
        invariant i <= 8
        invariant memory[..] == old(memory[..address]) + LeBytes(value, 8)[..i] + old(memory[address + i..])
      {
        LeBytesAt(value, 8, i);
        memory[address + i] := And(Shr(value, 8 * i), 0xFF);
        i := i + 1;
      }
    }

    /** `fetch_next`. */
    method FetchNext(pc: nat) returns (raw: Raw)
      requires Valid() && pc + INSTR_SIZE <= MEM_SIZE
      ensures raw == Isa.Fetch(memory[..], pc)
    {
      var operand2 := ReadFromMemory(pc + 3);
      raw := Raw(memory[pc], memory[pc + 1], memory[pc + 2], operand2);
    }

    /** The start of `run`: the first instruction is fetched and recorded. */
    constructor (memory: array<Byte>)
      requires memory.Length == MEM_SIZE
      ensures this.memory == memory && Ready() && trace == [FetchAccess(0)]
      ensures fresh(cpu) && fresh(cpu.regs)
      ensures View() == Machine([0, 0, 0, 0], 0, Greater, memory[..], false)
    {
      this.memory := memory;
      cpu := new Cpu();
      readBuf := ReadValue(0, 0, 0, 0);
      writeBuf := WriteValue(Raw(0, 0, 0, 0), 0, true);
      trace := [];
      new;
      var first := FetchNext(0);
      writeBuf := WriteValue(first, 0, true);
      trace := trace + [FetchAccess(0)];
    }

    /** The data half of a load: hand the driver the value it waits for. */
    method CompleteLoad()
      requires Valid() && cpu.loadPending && cpu.pendingRegIdx < 4 && readBuf.memAddr < MMIO_START
      modifies this`writeBuf, this`trace, cpu`pendingInstruction, cpu`loadPending, cpu.regs
      ensures Valid() && !cpu.loadPending && writeBuf.isInstruction
      ensures View() == old(View()).(regs :=
        old(View()).regs[cpu.pendingRegIdx := LoadWord(memory[..], readBuf.memAddr)])
      ensures trace == old(trace) + [MemAccess(readBuf.memAddr, false)]
    {
      var val := ReadFromMemory(readBuf.memAddr);
      writeBuf := writeBuf.(isInstruction := false, val := val);
      cpu.Write(writeBuf);
      trace := trace + [MemAccess(readBuf.memAddr, false)];
      writeBuf := writeBuf.(isInstruction := true);
    }

    /** The data half of a store. */
    method CompleteStore()
      requires Valid() && readBuf.memAddr < MMIO_START
      modifies this`trace, memory
      ensures Valid()
      ensures View() == old(View()).(mem := StoreWord(old(memory[..]), readBuf.memAddr, readBuf.val))
      ensures trace == old(trace) + [MemAccess(readBuf.memAddr, true)]
    {
      WriteToMemory(readBuf.memAddr, readBuf.val);
      trace := trace + [MemAccess(readBuf.memAddr, true)];
    }

    /** Fetch the instruction the driver's program counter points to, and record it. */
    method FetchAndRecord()
      requires Valid() && !cpu.loadPending && readBuf.pc == cpu.pc && cpu.pc + INSTR_SIZE <= MEM_SIZE
      modifies this`writeBuf, this`trace
      ensures writeBuf.instruction == Isa.Fetch(memory[..], cpu.pc)
        && writeBuf.isInstruction == old(writeBuf.isInstruction)
      ensures trace == old(trace) + [FetchAccess(cpu.pc)]
    {
      var raw := FetchNext(readBuf.pc);
      writeBuf := writeBuf.(instruction := raw);
      trace := trace + [FetchAccess(readBuf.pc)];
    }

    /** The driver's half of an iteration: hand over the instruction and read the result. */
    method Execute(input: bool) returns (ok: bool)
      requires Ready() && RegisterNamed(Isa.Fetch(memory[..], cpu.pc))
      modifies this`readBuf, cpu, cpu.regs
      ensures Valid() && memory[..] == old(memory[..])
      ensures var op := Decode(Isa.Fetch(memory[..], old(cpu.pc)));
        && (ok <==> op.Some? && Phase(op.value, CoreOf(old(View())), input).1 != -EINVAL)
        && (!ok || readBuf.execReturn == EXEC_HALT ==> View() == old(View()))
        && (ok ==>
             && (CoreOf(View()), readBuf.execReturn) == Phase(op.value, CoreOf(old(View())), input)
             && readBuf.pc == cpu.pc && (cpu.loadPending <==> readBuf.execReturn == EXEC_PENDING_MEM_READ)
             && (readBuf.execReturn == EXEC_PENDING_MEM_READ ==>
                op.value.Load? && op.value.addr == readBuf.memAddr && cpu.pendingRegIdx == op.value.rd)
             && (readBuf.execReturn == EXEC_PENDING_MEM_WRITE ==>
                op.value.Store? && op.value.addr == readBuf.memAddr && readBuf.val == View().regs[op.value.rs]))
    {
      hide Decode, Phase, Isa.Fetch;
      cpu.Write(writeBuf);
      ResponseMeant(writeBuf.instruction, CoreOf(View()), input);
      var rv;
      ok, rv := cpu.Read(input);
      if ok {
        readBuf := rv;
      }
    }

    /** The client's half: complete the memory access the driver asked for, if any. */
    method Complete(ghost op: Op)
      requires Valid() && (cpu.loadPending <==> readBuf.execReturn == EXEC_PENDING_MEM_READ) && writeBuf.isInstruction
      requires readBuf.execReturn == EXEC_PENDING_MEM_READ ==>
        op.Load? && op.addr == readBuf.memAddr < MMIO_START && cpu.pendingRegIdx == op.rd
      requires readBuf.execReturn == EXEC_PENDING_MEM_WRITE ==>
        op.Store? && op.addr == readBuf.memAddr < MMIO_START && readBuf.val == View().regs[op.rs]
      modifies this`writeBuf, this`trace, cpu`pendingInstruction, cpu`loadPending, cpu.regs, memory
      ensures Valid() && !cpu.loadPending && writeBuf.isInstruction && cpu.pc == old(cpu.pc)
      ensures var (m, access) := Completed(op, old(View()), readBuf.execReturn);
        View() == m && trace == old(trace) + access
    {
      if readBuf.execReturn == EXEC_PENDING_MEM_READ {
        CompleteLoad();
      } else if readBuf.execReturn == EXEC_PENDING_MEM_WRITE {
        CompleteStore();
      } else {
        assert trace + [] == trace;
      }
    }

    /** One iteration of the loop in `run`: hand over the instruction, have the driver
        execute it, stop if it was past the program's `count` instructions, complete its
        memory access, and fetch the next. Inside the program it equals one atomic step,
        and pushes the data access and the next fetch. */
    method Iterate(input: bool, count: nat) returns (status: Status)
      requires Ready() && Steppable(View(), input)
      modifies this`writeBuf, this`readBuf, this`trace, cpu, cpu.regs, memory
      ensures Valid()
      ensures if PastEnd(old(View()), input, count)
        then status == Overrun && View() == AfterDriver(old(View()), input).value && trace == old(trace)
        else match AtomicStep(old(View()), input)
        case Continue(m, access) =>
          status == Running && Ready() && View() == m && trace == old(trace) + access + [FetchAccess(m.pc)]
        case Halted => status == Finished && View() == old(View()) && trace == old(trace)
        case Fault => status == Failed && View() == old(View()) && trace == old(trace)
    {
      hide Decode, Phase, Step, Isa.Fetch, LoadWord, StoreWord;
      ghost var m, op := View(), Decode(Isa.Fetch(memory[..], cpu.pc));
      DecodedInBounds(Isa.Fetch(memory[..], cpu.pc));
      if op.Some? { SplitPhase(op.value, m, input); }
      var i := readBuf.pc / INSTR_SIZE;
      var ok := Execute(input);
      if !ok {
        return Failed;
      }
      if i >= count {
        return Overrun;
      }
      if readBuf.execReturn == EXEC_HALT {
        return Finished;
      }
      Complete(op.value);
      FetchAndRecord();
      status := Running;
    }
  }

  // ---- split phases against atomic steps ----

  ghost function CoreOf(m: Machine): Core { Core(m.regs, m.pc, m.order, m.output) }

  ghost function WithCore(m: Machine, c: Core): Machine {
    Machine(c.regs, c.pc, c.order, m.mem, c.output)
  }

  /** The machine after the driver's half of the next instruction, unless it is rejected. */
  ghost function AfterDriver(m: Machine, input: bool): (r: Option<Machine>)
    requires m.Ok() && m.pc + INSTR_SIZE <= MEM_SIZE
    ensures r.Some? ==> r.value.Ok()
  {
    match Decode(Isa.Fetch(m.mem, m.pc))
    case None => None
    case Some(op) =>
      var (c, code) := Phase(op, CoreOf(m), input);
      if code == -EINVAL then None else Some(WithCore(m, c))
  }

  /** The next instruction is past the program and the driver accepts it. */
  ghost predicate PastEnd(m: Machine, input: bool, count: nat)
    requires m.Ok() && m.pc + INSTR_SIZE <= MEM_SIZE
  {
    m.pc / INSTR_SIZE >= count && AfterDriver(m, input).Some?
  }

  /** The client's half of an instruction: the machine once the access is complete,
      and the access. */
  ghost function Completed(op: Op, m: Machine, code: int): (Machine, seq<MemAccess>)
    requires m.Ok() && (code == EXEC_PENDING_MEM_READ ==> op.Load? && op.addr < MMIO_START)
    requires code == EXEC_PENDING_MEM_WRITE ==> op.Store? && op.addr < MMIO_START
  {
    if code == EXEC_PENDING_MEM_READ then
      (m.(regs := m.regs[op.rd := LoadWord(m.mem, op.addr)]), [MemAccess(op.addr, false)])
    else if code == EXEC_PENDING_MEM_WRITE then
      (m.(mem := StoreWord(m.mem, op.addr, m.regs[op.rs])), [MemAccess(op.addr, true)])
    else (m, [])
  }

  predicate InBounds(op: Op) {
    (op.Load? || op.Store?) ==> op.addr < MMIO_START
  }

  /** Decoded loads and stores never reach the device addresses. */
  lemma DecodedInBounds(raw: Raw)
    ensures Decode(raw).Some? ==> InBounds(Decode(raw).value)
  {}

  /** The driver's half followed by the client's half is one atomic step. */
  lemma {:induction false} SplitPhase(op: Op, m: Machine, input: bool)
    requires m.Ok() && InBounds(op)
    ensures var (c, code) := Phase(op, CoreOf(m), input);
      Step(op, m, input) ==
        if code == -EINVAL then Fault
        else if code == EXEC_HALT then Halted
        else var (m', access) := Completed(op, WithCore(m, c), code); Continue(m', access)
  {}

  /** What the client takes for granted of the program: a memory mode names one of the
      four registers, and control stays inside memory. */
  predicate Steppable(m: Machine, input: bool) {
    && m.Ok() && m.pc + INSTR_SIZE <= MEM_SIZE
    && RegisterNamed(Isa.Fetch(m.mem, m.pc))
    && (AtomicStep(m, input).Continue? ==> AtomicStep(m, input).m.pc + INSTR_SIZE <= MEM_SIZE)
  }
}
