/** The instruction set once more, by numbers, bits and bytes alone: what each operation
    does to its operands, and which encodings stand for it. The machine's functions are
    proved to be the only ones that fit. */
module IsaMeaning {
  import opened Bits
  import opened Uapi
  import opened Words
  import opened Isa

  // ---- arithmetic ----

  /** `c` is what a two-operand instruction leaves of `a` and `b`: sum or difference, up
      to one turn around 2^64, or the operands combined bit by bit. */
  ghost predicate Computes(f: Alu, a: Word, b: Word, c: Word) {
    match f
    case Add => c == a + b || c == a + b - 0x1_0000_0000_0000_0000
    case Sub => c == a - b || c == a - b + 0x1_0000_0000_0000_0000
    case And2 => forall k: nat :: k < 64 ==> (Bit(c, k) <==> Bit(a, k) && Bit(b, k))
    case Or2 => forall k: nat :: k < 64 ==> (Bit(c, k) <==> Bit(a, k) || Bit(b, k))
  }

  ghost predicate Inverts(a: Word, c: Word) {
    forall k: nat :: k < 64 ==> (Bit(c, k) <==> !Bit(a, k))
  }

  lemma SameWord(a: Word, b: Word)
    requires SameBits(a, b, 64)
    ensures a == b
  {
    Pow2Values();
    BitsDetermine(a, b, 64);
  }

  /** Every two-operand instruction leaves what it should, and nothing else would be. */
  lemma {:induction false} AluComputes(f: Alu, a: Word, b: Word, c: Word)
    ensures Computes(f, a, b, c) <==> c == AluResult(f, a, b)
  {
    hide Bit, And, Or;
    match f
    case Add =>
    case Sub =>
    case And2 =>
      forall k: nat | k < 64 ensures Bit(AluResult(f, a, b), k) <==> Bit(a, k) && Bit(b, k) { AndBit(a, b, k); }
      if Computes(f, a, b, c) { SameWord(c, AluResult(f, a, b)); }
    case Or2 =>
      forall k: nat | k < 64 ensures Bit(AluResult(f, a, b), k) <==> Bit(a, k) || Bit(b, k) { OrBit(a, b, k); }
      if Computes(f, a, b, c) { SameWord(c, AluResult(f, a, b)); }
  }

  lemma {:induction false} InvertedBits(a: Word, c: Word)
    ensures Inverts(a, c) <==> c == UINT64_MAX - a
  {
    hide Bit;
    Pow2Values();
    forall k: nat | k < 64 ensures Bit(UINT64_MAX - a, k) <==> !Bit(a, k) { NotBit(a, 64, k); }
    if Inverts(a, c) { SameWord(c, UINT64_MAX - a); }
  }

  /** Without a carry ADD is addition, nothing added changes nothing, and SUB takes back
      what ADD added. */
  lemma {:induction false} AddAndSubtract(a: Word, b: Word)
    ensures a + b < TWO64 ==> AluResult(Add, a, b) == a + b
    ensures a >= b ==> AluResult(Sub, a, b) == a - b
    ensures AluResult(Add, a, 0) == a && AluResult(Sub, a, 0) == a
    ensures AluResult(Sub, AluResult(Add, a, b), b) == a && AluResult(Add, AluResult(Sub, a, b), b) == a
  {}

  // ---- comparison ----

  /** What CMP finds: equality always, and the signed order turned around exactly if the
      difference does not fit in 64 signed bits. */
  predicate Finds(a: Word, b: Word, order: Order) {
    var x := if a < 0x8000_0000_0000_0000 then a as int else a - 0x1_0000_0000_0000_0000;
    var y := if b < 0x8000_0000_0000_0000 then b as int else b - 0x1_0000_0000_0000_0000;
    if x == y then order == Equal
    else if -0x8000_0000_0000_0000 <= x - y < 0x8000_0000_0000_0000 then
      order == if x < y then Less else Greater
    else order == if x < y then Greater else Less
  }

  lemma {:induction false} CompareFinds(a: Word, b: Word, order: Order)
    ensures Finds(a, b, order) <==> order == Compare(a, b)
  {
    var d := ToSigned(a) - ToSigned(b);
    if d < 0 { DivUnique(d, TWO64, -1, d + TWO64); } else { DivUnique(d, TWO64, 0, d); }
  }

  // ---- words in memory ----

  function ByteAt(mem: seq<Byte>, i: nat): nat
    requires i < |mem|
  {
    mem[i]
  }

  /** The eight bytes at `addr` are `w`, the least significant first. */
  predicate Holds(mem: seq<Byte>, addr: nat, w: Word)
    requires addr + 8 <= |mem|
  {
    w == ByteAt(mem, addr) + 0x100 * ByteAt(mem, addr + 1) + 0x1_0000 * ByteAt(mem, addr + 2)
      + 0x100_0000 * ByteAt(mem, addr + 3) + 0x1_0000_0000 * ByteAt(mem, addr + 4)
      + 0x100_0000_0000 * ByteAt(mem, addr + 5) + 0x1_0000_0000_0000 * ByteAt(mem, addr + 6)
      + 0x100_0000_0000_0000 * ByteAt(mem, addr + 7)
  }

  lemma OneByte(bs: seq<Byte>, i: nat)
    requires i < |bs|
    ensures LeValue(bs[i..]) == bs[i] + 256 * LeValue(bs[i + 1..])
  {
    assert bs[i..][1..] == bs[i + 1..];
  }

  lemma LoadedHolds(mem: seq<Byte>, addr: nat, w: Word)
    requires addr + 8 <= |mem|
    ensures Holds(mem, addr, w) <==> w == LoadWord(mem, addr)
  {
    hide LeValue;
    var bs := mem[addr..addr + 8];
    assert bs[0..] == bs && bs[8..] == [];
    OneByte(bs, 0); OneByte(bs, 1); OneByte(bs, 2); OneByte(bs, 3);
    OneByte(bs, 4); OneByte(bs, 5); OneByte(bs, 6); OneByte(bs, 7);
    NoBytes();
  }

  lemma NoBytes()
    ensures LeValue([]) == 0
  {}

  /** `mem'` is `mem` with the eight bytes at `addr` set to `w`. */
  ghost predicate Stored(mem: seq<Byte>, addr: nat, w: Word, mem': seq<Byte>)
    requires addr + 8 <= |mem|
  {
    && |mem'| == |mem| && Holds(mem', addr, w)
    && forall i :: 0 <= i < |mem| && !(addr <= i < addr + 8) ==> mem'[i] == mem[i]
  }

  lemma {:induction false} SameBytes(a: seq<Byte>, b: seq<Byte>)
    requires |a| == |b| && LeValue(a) == LeValue(b)
    ensures a == b
  {
    if a != [] {
      assert a[0] == b[0] && LeValue(a[1..]) == LeValue(b[1..]);
      SameBytes(a[1..], b[1..]);
      assert a == [a[0]] + a[1..] && b == [b[0]] + b[1..];
    }
  }

  lemma StoredWord(mem: seq<Byte>, addr: nat, w: Word, mem': seq<Byte>)
    requires addr + 8 <= |mem|
    ensures Stored(mem, addr, w, mem') <==> mem' == StoreWord(mem, addr, w)
  {
    hide LeValue, LeBytes, Holds;
    var s := StoreWord(mem, addr, w);
    StoreThenLoad(mem, addr, w, addr);
    LoadedHolds(s, addr, w);
    assert Stored(mem, addr, w, s);
    if Stored(mem, addr, w, mem') {
      LoadedHolds(mem', addr, w);
      SameBytes(mem'[addr..addr + 8], s[addr..addr + 8]);
      assert forall i :: addr <= i < addr + 8 ==> mem'[i] == mem'[addr..addr + 8][i - addr];
      assert forall i :: addr <= i < addr + 8 ==> s[i] == s[addr..addr + 8][i - addr];
      assert mem' == s;
    }
  }

  // ---- operations ----

  /** Does a jump leave its instruction, given what the last comparison found? */
  predicate Jumps(cond: Cond, order: Order) {
    cond == Always || (cond == IfEqual && order == Equal) || (cond == IfGreater && order == Greater)
    || (cond == IfLess && order == Less)
  }

  predicate Reads(src: Src, regs: seq<Word>, w: Word)
    requires |regs| == 4
  {
    match src
    case Imm(v) => w == v
    case FromReg(r) => w == regs[r]
  }

  /** `o` is how an operation ends: memory is below 0xFFF0, and nothing but the registers,
      bytes and flags named changes. */
  ghost predicate Does(op: Op, m: Machine, input: bool, o: Outcome)
    requires m.Ok()
  {
    var next := m.(pc := (m.pc + 11) % 0x1_0000_0000_0000_0000);
    match op
    case Bin(f, rd, src) =>
      && o.Continue? && o.access == [] && |o.m.regs| == 4 && o.m == next.(regs := m.regs[rd := o.m.regs[rd]])
      && exists b: Word :: Reads(src, m.regs, b) && Computes(f, m.regs[rd], b, o.m.regs[rd])
    case Not(rd) =>
      && o.Continue? && o.access == [] && |o.m.regs| == 4 && o.m == next.(regs := m.regs[rd := o.m.regs[rd]])
      && Inverts(m.regs[rd], o.m.regs[rd])
    case Mov(rd, src) =>
      && o.Continue? && o.access == [] && |o.m.regs| == 4 && o.m == next.(regs := m.regs[rd := o.m.regs[rd]])
      && Reads(src, m.regs, o.m.regs[rd])
    case Load(rd, addr) =>
      if addr >= 0xFFF0 then o == Fault
      else
        && o.Continue? && o.access == [MemAccess(addr, false)] && |o.m.regs| == 4
        && o.m == next.(regs := m.regs[rd := o.m.regs[rd]]) && Holds(m.mem, addr, o.m.regs[rd])
    case In(rd) => o == Continue(next.(regs := m.regs[rd := if input then 1 else 0]), [])
    case Store(rs, addr) =>
      if addr >= 0xFFF0 then o == Fault
      else
        && o.Continue? && o.access == [MemAccess(addr, true)]
        && o.m == next.(mem := o.m.mem) && Stored(m.mem, addr, m.regs[rs], o.m.mem)
    case Out(rs) =>
      if m.regs[rs] == 0 then o == Continue(next.(output := false), [])
      else if m.regs[rs] == 1 then o == Continue(next.(output := true), [])
      else o == Fault
    case Halt => o == Halted
    case Cmp(rd, src) =>
      && o.Continue? && o.access == [] && o.m == next.(order := o.m.order)
      && exists b: Word :: Reads(src, m.regs, b) && Finds(m.regs[rd], b, o.m.order)
    case Jump(cond, target) =>
      o == Continue(if Jumps(cond, m.order) then m.(pc := target * 11 % 0x1_0000_0000_0000_0000) else next, [])
  }

  lemma ReadValue(src: Src, regs: seq<Word>, w: Word)
    requires |regs| == 4
    ensures Reads(src, regs, w) <==> w == Value(regs, src)
  {}

  lemma Updated(regs: seq<Word>, r: RegIdx, w: Word)
    requires |regs| == 4
    ensures regs[r := w][r] == w
  {}

  /** The step of every operation is how it ends, and no other outcome is. */
  lemma {:induction false} StepIsMeant(op: Op, m: Machine, input: bool, o: Outcome)
    requires m.Ok()
    ensures Does(op, m, input, o) <==> o == Step(op, m, input)
  {
    hide Computes, AluResult, Inverts, Reads, Value, Holds, LoadWord, Stored, StoreWord, Finds, Compare;
    match op
    case Bin(f, rd, src) =>
      forall b: Word ensures Reads(src, m.regs, b) <==> b == Value(m.regs, src) { ReadValue(src, m.regs, b); }
      var b := Value(m.regs, src);
      assert Reads(src, m.regs, b);
      Updated(m.regs, rd, AluResult(f, m.regs[rd], b));
      forall c: Word ensures Computes(f, m.regs[rd], b, c) <==> c == AluResult(f, m.regs[rd], b) {
        AluComputes(f, m.regs[rd], b, c);
      }
    case Not(rd) =>
      forall c: Word ensures Inverts(m.regs[rd], c) <==> c == UINT64_MAX - m.regs[rd] { InvertedBits(m.regs[rd], c); }
    case Mov(rd, src) =>
      forall b: Word ensures Reads(src, m.regs, b) <==> b == Value(m.regs, src) { ReadValue(src, m.regs, b); }
    case Load(rd, addr) =>
      if addr < 0xFFF0 {
        forall w: Word ensures Holds(m.mem, addr, w) <==> w == LoadWord(m.mem, addr) { LoadedHolds(m.mem, addr, w); }
      }
    case Store(rs, addr) =>
      if addr < 0xFFF0 && o.Continue? { StoredWord(m.mem, addr, m.regs[rs], o.m.mem); }
    case Cmp(rd, src) =>
      forall b: Word ensures Reads(src, m.regs, b) <==> b == Value(m.regs, src) { ReadValue(src, m.regs, b); }
      if o.Continue? { CompareFinds(m.regs[rd], Value(m.regs, src), o.m.order); }
    case In(_) =>
    case Out(_) =>
    case Halt =>
    case Jump(_, _) =>
  }

  // ---- encodings ----

  /** The second byte and the last eight of a two-operand instruction. */
  predicate NamesSource(raw: Raw, src: Src) {
    match src
    case Imm(w) => raw.mode == 0 && raw.operand2 == w
    case FromReg(r) => raw.mode == 1 && raw.operand2 == r
  }

  /** The encodings of an operation, in numbers. Fields that the CPU does not look at are
      free. */
  predicate Encodes(raw: Raw, op: Op) {
    match op
    case Bin(f, rd, src) =>
      && raw.opcode == (match f case Add => 0x00 case Sub => 0x01 case And2 => 0x02 case Or2 => 0x03)
      && raw.operand1 == rd && NamesSource(raw, src)
    case Not(rd) => raw.opcode == 0x04 && raw.mode == 1 && raw.operand2 == rd
    case Mov(rd, src) => raw.opcode == 0x10 && raw.operand1 == rd && NamesSource(raw, src)
    case Load(rd, addr) => raw == Raw(0x10, 2, rd, addr) && addr < 0xFFF0
    case In(rd) => raw == Raw(0x10, 2, rd, 0xFFFD)
    case Store(rs, addr) => raw == Raw(0x10, 3, rs, addr) && addr < 0xFFF0
    case Out(rs) => raw == Raw(0x10, 3, rs, 0xFFFE)
    case Halt => raw.opcode == 0x10 && raw.mode == 3 && raw.operand2 == 0xFFFF
    case Cmp(rd, src) => raw.opcode == 0x20 && raw.operand1 == rd && NamesSource(raw, src)
    case Jump(cond, target) =>
      && raw.opcode == (match cond case Always => 0x21 case IfEqual => 0x22 case IfGreater => 0x23 case IfLess => 0x24)
      && raw.operand2 == target
  }

  /** The CPU decodes exactly these encodings to an operation, and rejects all others. */
  lemma {:induction false} DecodedAsEncoded(raw: Raw, op: Op)
    ensures Decode(raw) == Some(op) <==> Encodes(raw, op)
  {}
}
