/** The CPU driver: it owns registers, program counter and flags, executes one
    instruction per read, and leaves memory accesses to its client. */
module Driver {
  import opened Uapi
  import opened Words
  import opened Isa

  const EXEC_SUCCESS: int := 0
  const EXEC_HALT: int := -1
  const EXEC_PENDING_MEM_READ: int := 1
  const EXEC_PENDING_MEM_WRITE: int := 2
  const EXEC_PENDING_MMIO_READ: int := 3
  const EINVAL: int := 22

  /** `struct write_value` and `struct read_value`. */
  datatype WriteValue = WriteValue(instruction: Raw, val: Word, isInstruction: bool)
  datatype ReadValue = ReadValue(pc: Word, memAddr: Word, val: Word, execReturn: int)

  // ---- flags ----

  predicate IsSet(fr: bv16, flag: bv16) { fr & flag != 0 }

  /** `handle_compare`. */
  function SetFlags(fr: bv16, result: int): bv16 {
    var fr1 := if result == 0 then fr | ZF else fr & !ZF;
    if result < 0 then fr1 | SF | CF else fr1 & !SF & !CF
  }

  /** Zero and sign flag are never both set. */
  predicate FlagsOk(fr: bv16) {
    !(IsSet(fr, ZF) && IsSet(fr, SF))
  }

  /** What the flags say about the last comparison. */
  function OrderOf(fr: bv16): Order {
    if IsSet(fr, ZF) then Equal else if IsSet(fr, SF) then Less else Greater
  }

  lemma {:induction false} FlagsFollowResult(fr: bv16, result: int)
    ensures FlagsOk(SetFlags(fr, result))
    ensures OrderOf(SetFlags(fr, result)) == if result == 0 then Equal else if result < 0 then Less else Greater
    ensures IsSet(SetFlags(fr, result), CF) <==> IsSet(SetFlags(fr, result), SF)
  {}

  /** The flag register after a comparison: zero is bit 6, sign bit 7, carry bit 0, and the
      other bits are as before. */
  lemma {:induction false} FlagBits(fr: bv16, result: int)
    ensures result == 0 ==> SetFlags(fr, result) == (fr & 0xFF3E) | 0x40
    ensures result < 0 ==> SetFlags(fr, result) == (fr & 0xFF3E) | 0x81
    ensures result > 0 ==> SetFlags(fr, result) == fr & 0xFF3E
  {}

  /** The driver's tests for JE, JG and JL. */
  lemma {:induction false} BranchTests(fr: bv16)
    requires FlagsOk(fr)
    ensures IsSet(fr, ZF) <==> Taken(IfEqual, OrderOf(fr))
    ensures !IsSet(fr, SF) && !IsSet(fr, ZF) <==> Taken(IfGreater, OrderOf(fr))
    ensures IsSet(fr, SF) <==> Taken(IfLess, OrderOf(fr))
  {}

  // ---- the processor ----

  /** What the client of the driver can rely on: registers, program counter, what the
      flags say, and the output device. */
  datatype Core = Core(regs: seq<Word>, pc: Word, order: Order, output: bool)

  /** The driver's half of an instruction: the new core and the result code. */
  function Phase(op: Op, c: Core, input: bool): (r: (Core, int))
    requires |c.regs| == 4
    ensures |r.0.regs| == 4
  {
    var next := c.(pc := Isa.Advance(c.pc));
    match op
    case Bin(f, rd, src) => (next.(regs := c.regs[rd := AluResult(f, c.regs[rd], Value(c.regs, src))]), EXEC_SUCCESS)
    case Not(rd) => (next.(regs := c.regs[rd := UINT64_MAX - c.regs[rd]]), EXEC_SUCCESS)
    case Mov(rd, src) => (next.(regs := c.regs[rd := Value(c.regs, src)]), EXEC_SUCCESS)
    case Load(_, _) => (next, EXEC_PENDING_MEM_READ)
    case In(rd) => (next.(regs := c.regs[rd := if input then 1 else 0]), EXEC_PENDING_MMIO_READ)
    case Store(_, _) => (next, EXEC_PENDING_MEM_WRITE)
    case Out(rs) => if c.regs[rs] <= 1 then (next.(output := c.regs[rs] == 1), EXEC_SUCCESS) else (c, -EINVAL)
    case Halt => (c, EXEC_HALT)
    case Cmp(rd, src) => (next.(order := Compare(c.regs[rd], Value(c.regs, src))), EXEC_SUCCESS)
    case Jump(cond, target) =>
      (if Taken(cond, c.order) then c.(pc := Wrap(target * INSTR_SIZE)) else next, EXEC_SUCCESS)
  }

  /** The result codes in numbers. */
  lemma {:induction false} CodesInNumbers(op: Op, c: Core, input: bool)
    requires |c.regs| == 4
    ensures Phase(op, c, input).1 ==
      match op
      case Load(_, _) => 1
      case Store(_, _) => 2
      case In(_) => 3
      case Halt => -1
      case Out(rs) => if c.regs[rs] <= 1 then 0 else -22
      case _ => 0
  {}

  /** Memory modes name their register in a byte the driver does not check. */
  predicate RegisterNamed(raw: Raw) {
    (raw.opcode == MOV && (raw.mode == DIRECT_LOAD || raw.mode == DIRECT_STORE) && raw.operand2 < MMIO_START)
    ==> raw.operand1 < 4
  }

  /** The driver's half of an encoded instruction. It rejects what does not decode, but
      passes a memory access on whatever register its byte names. */
  function Respond(raw: Raw, c: Core, input: bool): (r: (Core, int))
    requires |c.regs| == 4
  {
    if !RegisterNamed(raw) then
      (c.(pc := Isa.Advance(c.pc)), if raw.mode == DIRECT_LOAD then EXEC_PENDING_MEM_READ else EXEC_PENDING_MEM_WRITE)
    else match Decode(raw)
      case Some(op) => Phase(op, c, input)
      case None => (c, -EINVAL)
  }

  /** A memory access with a register is handed on as the load or store it stands for;
      an error or a halt changes nothing. */
  lemma ResponseMeant(raw: Raw, c: Core, input: bool)
    requires RegisterNamed(raw) && |c.regs| == 4
    ensures var (c', code) := Respond(raw, c, input);
      && (code == -EINVAL || code == EXEC_HALT ==> c' == c)
      && (code == EXEC_PENDING_MEM_READ ==> Decode(raw) == Some(Load(raw.operand1, raw.operand2)))
      && (code == EXEC_PENDING_MEM_WRITE ==> Decode(raw) == Some(Store(raw.operand1, raw.operand2)))
  {}

  class Cpu {
    const regs: array<Word>
    var pc: Word
    var fr: bv16
    var pendingMemAddr: Word
    var pendingRegIdx: Byte
    var pendingMmioRead: Byte
    var pendingInstruction: Raw
    var output: bool
    /** Is a load waiting for its value? */
    ghost var loadPending: bool

    ghost predicate Valid()
      reads this
    {
      regs.Length == 4 && FlagsOk(fr)
    }

    ghost function View(): (c: Core)
      reads this, regs
      ensures |c.regs| == regs.Length
    {
      Core(regs[..], pc, OrderOf(fr), output)
    }

    /** A zeroed context, as `cpu_open` allocates it. */
    constructor ()
      ensures Valid() && fresh(regs) && !loadPending
      ensures regs[..] == [0, 0, 0, 0] && pc == 0 && OrderOf(fr) == Greater && !output
    {
      regs := new Word[4](_ => 0);
      pc, fr, pendingMemAddr, pendingRegIdx, pendingMmioRead := 0, 0, 0, 0, 0;
      pendingInstruction := Raw(0, 0, 0, 0);
      output, loadPending := false, false;
    }

    /** `handle_compare`. */
    method HandleCompare(result: int)
      modifies this`fr
      ensures fr == SetFlags(old(fr), result)
    {
      var flags := fr;
      if result == 0 {
        flags := flags | ZF;
      } else {
        flags := flags & !ZF;
      }
      if result < 0 {
        flags := flags | SF | CF;
      } else {
        flags := flags & !SF & !CF;
      }
      fr := flags;
    }

    /** `handle_compare_immediate` and `handle_compare_register`. */
    method CompareValues(a: Word, b: Word)
      requires Valid()
      modifies this`fr
      ensures Valid() && OrderOf(fr) == Compare(a, b)
      ensures a == b ==> fr == (old(fr) & 0xFF3E) | 0x40
      ensures Compare(a, b) == Less ==> fr == (old(fr) & 0xFF3E) | 0x81
      ensures Compare(a, b) == Greater ==> fr == old(fr) & 0xFF3E
    {
      CompareIsSigned(a, b);
      var result := ToSigned(Wrap(ToSigned(a) - ToSigned(b)));
      FlagsFollowResult(fr, result);
      FlagBits(fr, result);
      HandleCompare(result);
    }

    /** The second operand of a two-operand form; `ok` unless its mode or register is
        rejected. */
    method SecondOperand(raw: Raw) returns (ok: bool, value: Word)
      requires Valid()
      ensures ok <==> DecodeSrc(raw).Some?
      ensures ok ==> value == Value(regs[..], DecodeSrc(raw).value)
    {
      if raw.mode == IMMEDIATE {
        return true, raw.operand2;
      } else if raw.mode == REGISTER && raw.operand2 < 4 {
        return true, regs[raw.operand2];
      }
      return false, 0;
    }

    /** ADD, SUB, AND and OR. */
    method ExecuteBin(f: Alu, raw: Raw) returns (code: int)
      requires Valid()
      modifies this`pc, regs
      ensures Valid()
      ensures DecodeRegSrc(raw).None? ==> code == -EINVAL && View() == old(View())
      ensures DecodeRegSrc(raw).Some? ==>
        (View(), code) == Phase(Bin(f, DecodeRegSrc(raw).value.0, DecodeRegSrc(raw).value.1), old(View()), false)
    {
      var ok, value := SecondOperand(raw);
      if raw.operand1 >= 4 || !ok {
        return -EINVAL;
      }
      regs[raw.operand1] := AluResult(f, regs[raw.operand1], value);
      pc := Isa.Advance(pc);
      code := EXEC_SUCCESS;
    }

    method ExecuteNot(raw: Raw) returns (code: int)
      requires Valid() && raw.opcode == NOT
      modifies this`pc, regs
      ensures Valid()
      ensures Decode(raw).None? ==> code == -EINVAL && View() == old(View())
      ensures Decode(raw).Some? ==> (View(), code) == Phase(Decode(raw).value, old(View()), false)
    {
      if raw.mode != REGISTER || raw.operand2 >= 4 {
        return -EINVAL;
      }
      regs[raw.operand2] := UINT64_MAX - regs[raw.operand2];
      pc := Isa.Advance(pc);
      code := EXEC_SUCCESS;
    }

    method ExecuteCmp(raw: Raw) returns (code: int)
      requires Valid() && raw.opcode == CMP
      modifies this`pc, this`fr
      ensures Valid()
      ensures Decode(raw).None? ==> code == -EINVAL && View() == old(View())
      ensures Decode(raw).Some? ==> (View(), code) == Phase(Decode(raw).value, old(View()), false)
    {
      var ok, value := SecondOperand(raw);
      if raw.operand1 >= 4 || !ok {
        return -EINVAL;
      }
      CompareValues(regs[raw.operand1], value);
      pc := Isa.Advance(pc);
      code := EXEC_SUCCESS;
    }

    /** JMP, JE, JG and JL, by their tests of the flags. */
    method ExecuteJump(raw: Raw) returns (code: int)
      requires Valid() && (raw.opcode == JMP || raw.opcode == JE || raw.opcode == JG || raw.opcode == JL)
      modifies this`pc
      ensures Valid() && Decode(raw).Some?
      ensures (View(), code) == Phase(Decode(raw).value, old(View()), false)
    {
      BranchTests(fr);
      if raw.opcode == JMP
         || (raw.opcode == JE && IsSet(fr, ZF))
         || (raw.opcode == JG && !IsSet(fr, SF) && !IsSet(fr, ZF))
         || (raw.opcode == JL && IsSet(fr, SF)) {
        pc := Wrap(raw.operand2 * INSTR_SIZE);
      } else {
        pc := Isa.Advance(pc);
      }
      code := EXEC_SUCCESS;
    }

    /** MOV from memory or from the input device. */
    method ExecuteLoad(raw: Raw, input: bool) returns (code: int)
      requires Valid() && raw.opcode == MOV && raw.mode == DIRECT_LOAD
      modifies this`pc, this`pendingMemAddr, this`pendingRegIdx, this`pendingMmioRead, this`loadPending, regs
      ensures Valid()
      ensures (View(), code) == Respond(raw, old(View()), input)
      ensures code == EXEC_PENDING_MEM_READ ==> pendingMemAddr == raw.operand2 && pendingRegIdx == raw.operand1
      ensures code != EXEC_PENDING_MEM_WRITE
      ensures loadPending == (old(loadPending) || code == EXEC_PENDING_MEM_READ)
      ensures code == EXEC_PENDING_MMIO_READ ==> pendingMmioRead == if input then 1 else 0
    {
      if raw.operand2 >= MMIO_START {
        if raw.operand2 == MMIO_INPUT && raw.operand1 < 4 {
          pendingMmioRead := if input then 1 else 0;
          regs[raw.operand1] := pendingMmioRead;
          pc := Isa.Advance(pc);
          return EXEC_PENDING_MMIO_READ;
        }
        return -EINVAL;
      }
      pendingMemAddr := raw.operand2;
      pendingRegIdx := raw.operand1;
      loadPending := true;
      pc := Isa.Advance(pc);
      code := EXEC_PENDING_MEM_READ;
    }

    /** MOV to memory, to the output device, or to the address that halts. */
    method ExecuteStore(raw: Raw) returns (code: int)
      requires Valid() && raw.opcode == MOV && raw.mode == DIRECT_STORE
      modifies this`pc, this`pendingMemAddr, this`pendingRegIdx, this`output
      ensures Valid()
      ensures (View(), code) == Respond(raw, old(View()), false)
      ensures code == EXEC_PENDING_MEM_WRITE ==> pendingMemAddr == raw.operand2 && pendingRegIdx == raw.operand1
      ensures code != EXEC_PENDING_MEM_READ && code != EXEC_PENDING_MMIO_READ
    {
      if raw.operand2 >= MMIO_START {
        if raw.operand2 == MMIO_HALT {
          return EXEC_HALT;
        }
        if raw.operand2 == MMIO_OUTPUT && raw.operand1 < 4 && regs[raw.operand1] <= 1 {
          output := regs[raw.operand1] == 1;
          pc := Isa.Advance(pc);
          return EXEC_SUCCESS;
        }
        return -EINVAL;
      }
      pendingMemAddr := raw.operand2;
      pendingRegIdx := raw.operand1;
      pc := Isa.Advance(pc);
      code := EXEC_PENDING_MEM_WRITE;
    }

    method ExecuteMov(raw: Raw, input: bool) returns (code: int)
      requires Valid() && raw.opcode == MOV
      modifies this`pc, this`pendingMemAddr, this`pendingRegIdx, this`pendingMmioRead, this`loadPending,
        this`output, regs
      ensures Valid()
      ensures (View(), code) == Respond(raw, old(View()), input)
      ensures code == EXEC_PENDING_MEM_READ || code == EXEC_PENDING_MEM_WRITE ==>
        pendingMemAddr == raw.operand2 && pendingRegIdx == raw.operand1
      ensures loadPending == (old(loadPending) || code == EXEC_PENDING_MEM_READ)
      ensures code == EXEC_PENDING_MMIO_READ ==> pendingMmioRead == if input then 1 else 0
    {
      if raw.mode == DIRECT_LOAD {
        code := ExecuteLoad(raw, input);
      } else if raw.mode == DIRECT_STORE {
        code := ExecuteStore(raw);
      } else {
        var ok, value := SecondOperand(raw);
        if raw.operand1 >= 4 || !ok {
          return -EINVAL;
        }
        regs[raw.operand1] := value;
        pc := Isa.Advance(pc);
        code := EXEC_SUCCESS;
      }
    }

    /** `execute_instruction`: the driver's half of what the instruction means, or
        EINVAL and no change if it means nothing. An earlier load that still waits for its
        value is overtaken by a later one. */
    method ExecuteInstruction(raw: Raw, input: bool) returns (code: int)
      requires Valid()
      modifies this`pc, this`fr, this`pendingMemAddr, this`pendingRegIdx, this`pendingMmioRead, this`loadPending,
        this`output, regs
      ensures Valid()
      ensures (View(), code) == Respond(raw, old(View()), input)
      ensures code == EXEC_PENDING_MEM_READ || code == EXEC_PENDING_MEM_WRITE ==>
        pendingMemAddr == raw.operand2 && pendingRegIdx == raw.operand1
      ensures loadPending == (old(loadPending) || code == EXEC_PENDING_MEM_READ)
      ensures code == EXEC_PENDING_MMIO_READ ==> pendingMmioRead == if input then 1 else 0
    {
      if raw.opcode == ADD {
        code := ExecuteBin(Add, raw);
      } else if raw.opcode == SUB {
        code := ExecuteBin(Sub, raw);
      } else if raw.opcode == AND {
        code := ExecuteBin(And2, raw);
      } else if raw.opcode == OR {
        code := ExecuteBin(Or2, raw);
      } else if raw.opcode == NOT {
        code := ExecuteNot(raw);
      } else if raw.opcode == MOV {
        code := ExecuteMov(raw, input);
      } else if raw.opcode == CMP {
        code := ExecuteCmp(raw);
      } else if raw.opcode == JMP || raw.opcode == JE || raw.opcode == JG || raw.opcode == JL {
        code := ExecuteJump(raw);
      } else {
        code := -EINVAL;
      }
    }

    /** `cpu_write`: hand over the next instruction, or the value a load waits for. */
    method Write(wv: WriteValue)
      requires Valid() && (!wv.isInstruction ==> pendingRegIdx < 4)
      modifies this`pendingInstruction, this`loadPending, regs
      ensures Valid()
      ensures wv.isInstruction ==>
        pendingInstruction == wv.instruction && View() == old(View()) && loadPending == old(loadPending)
      ensures !wv.isInstruction ==>
        && pendingInstruction == old(pendingInstruction) && !loadPending
        && View() == old(View()).(regs := old(regs[..])[pendingRegIdx := wv.val])
    {
      if wv.isInstruction {
        pendingInstruction := wv.instruction;
      } else {
        regs[pendingRegIdx] := wv.val;
        loadPending := false;
      }
    }

    /** `cpu_read` past its wait: execute the pending instruction and report. For a store
        it follows the pointer to the register named, so there must be one. */
    method Read(input: bool) returns (ok: bool, rv: ReadValue)
      requires Valid() && (RegisterNamed(pendingInstruction) || pendingInstruction.mode == DIRECT_LOAD)
      modifies this`pc, this`fr, this`pendingMemAddr, this`pendingRegIdx, this`pendingMmioRead, this`loadPending,
        this`output, regs
      ensures Valid()
      ensures var (c, code) := Respond(pendingInstruction, old(View()), input);
        View() == c && (ok <==> code != -EINVAL) && (ok ==> rv.execReturn == code && rv.pc == pc)
      ensures loadPending == (old(loadPending) || (ok && rv.execReturn == EXEC_PENDING_MEM_READ))
      ensures ok && rv.execReturn == EXEC_PENDING_MEM_READ ==>
        rv.memAddr == pendingInstruction.operand2 && pendingRegIdx == pendingInstruction.operand1
      ensures ok && rv.execReturn == EXEC_PENDING_MEM_WRITE ==>
        pendingInstruction.operand1 < 4 && rv.memAddr == pendingInstruction.operand2
        && rv.val == View().regs[pendingInstruction.operand1]
      ensures ok && rv.execReturn == EXEC_PENDING_MMIO_READ ==> rv.val == if input then 1 else 0
    {
      var code := ExecuteInstruction(pendingInstruction, input);
      rv := ReadValue(pc, 0, 0, code);
      if code == -EINVAL {
        return false, rv;
      }
      if code == EXEC_PENDING_MEM_READ {
        rv := rv.(memAddr := pendingMemAddr);
      } else if code == EXEC_PENDING_MEM_WRITE {
        rv := rv.(memAddr := pendingMemAddr, val := regs[pendingRegIdx]);
      } else if code == EXEC_PENDING_MMIO_READ {
        rv := rv.(val := pendingMmioRead);
      }
      ok := true;
    }
  }
}
