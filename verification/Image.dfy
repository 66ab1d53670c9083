/** The code image: encoded instructions laid out in memory (`store_machine_code`). */
module Image {
  import opened Bits
  import opened Uapi
  import opened Words
  import opened Isa

  /** The eleven bytes of an instruction. */
  function Encode(raw: Raw): (bs: seq<Byte>)
    ensures |bs| == INSTR_SIZE
  {
    [raw.opcode, raw.mode, raw.operand1] + LeBytes(raw.operand2, 8)
  }

  function ImageOf(raws: seq<Raw>): (bs: seq<Byte>)
    ensures |bs| == INSTR_SIZE * |raws|
  {
    if raws == [] then [] else ImageOf(raws[..|raws| - 1]) + Encode(raws[|raws| - 1])
  }

  /** `store_machine_code` asks for room for one more instruction than it stores. */
  predicate Fits(count: nat, size: nat) {
    count * INSTR_SIZE + INSTR_SIZE <= size
  }

  /** In the emulated memory there is room for 5956 instructions and no more. */
  lemma {:induction false} LargestImage(count: nat)
    ensures Fits(count, MEM_SIZE) <==> count <= 5956
  {}

  lemma {:induction false} ImageAt(raws: seq<Raw>, i: nat)
    requires i < |raws|
    ensures ImageOf(raws)[INSTR_SIZE * i..INSTR_SIZE * i + INSTR_SIZE] == Encode(raws[i])
  {
    var n := |raws| - 1;
    if i < n {
      ImageAt(raws[..n], i);
    }
  }

  /** What is fetched at an instruction's place in memory is the instruction. */
  lemma {:induction false} FetchImage(mem: seq<Byte>, raws: seq<Raw>, i: nat)
    requires i < |raws| && ImageOf(raws) <= mem
    ensures INSTR_SIZE * i + INSTR_SIZE <= |mem| && Isa.Fetch(mem, INSTR_SIZE * i) == raws[i]
  {
    hide ImageOf, Encode, LoadWord;
    var pc := INSTR_SIZE * i;
    ImageAt(raws, i);
    InPrefix(ImageOf(raws), mem, pc);
    FetchEncoded(mem, pc, raws[i]);
  }

  lemma InPrefix(image: seq<Byte>, mem: seq<Byte>, pc: nat)
    requires image <= mem && pc + INSTR_SIZE <= |image|
    ensures mem[pc..pc + INSTR_SIZE] == image[pc..pc + INSTR_SIZE]
  {
    assert mem[..|image|] == image;
  }

  lemma FetchEncoded(mem: seq<Byte>, pc: nat, raw: Raw)
    requires pc + INSTR_SIZE <= |mem| && mem[pc..pc + INSTR_SIZE] == Encode(raw)
    ensures Isa.Fetch(mem, pc) == raw
  {
    var bs := mem[pc..pc + INSTR_SIZE];
    assert mem[pc] == bs[0] && mem[pc + 1] == bs[1] && mem[pc + 2] == bs[2];
    assert mem[pc + 3..pc + 11] == bs[3..] == LeBytes(raw.operand2, 8);
    Pow2Values();
    LeValueOfBytes(raw.operand2, 8);
  }

  /** Writing a word beyond the image leaves the image alone. */
  lemma {:induction false} StoreBeyondImage(mem: seq<Byte>, raws: seq<Raw>, addr: nat, w: Word)
    requires ImageOf(raws) <= mem && |ImageOf(raws)| <= addr && addr + 8 <= |mem|
    ensures ImageOf(raws) <= StoreWord(mem, addr, w)
  {
    assert StoreWord(mem, addr, w)[..|ImageOf(raws)|] == mem[..|ImageOf(raws)|];
  }

  /** `store_machine_code`: nothing is stored when the image does not fit. */
  method StoreMachineCode(memory: array<Byte>, instructions: array<Raw>, count: nat)
    requires count <= instructions.Length
    modifies memory
    ensures Fits(count, memory.Length) ==>
      memory[..] == ImageOf(instructions[..count]) + old(memory[INSTR_SIZE * count..])
    ensures !Fits(count, memory.Length) ==> memory[..] == old(memory[..])
  {
    if count * INSTR_SIZE + INSTR_SIZE > memory.Length {
      return;
    }
    hide ImageOf, Encode;
    assert instructions[..0] == [];
    NoImage();
    var i := 0;
    while i < count
      invariant i <= count
      invariant memory[..] == ImageOf(instructions[..i]) + old(memory[INSTR_SIZE * i..])
    {
      StoreInstruction(memory, i, instructions[i], instructions[..i], old(memory[INSTR_SIZE * i..]));
      OneMore(instructions[..], i, old(memory[..]));
      i := i + 1;
    }
  }

  lemma NoImage()
    ensures ImageOf([]) == []
  {}

  lemma OneMore(raws: seq<Raw>, i: nat, mem: seq<Byte>)
    requires i < |raws| && INSTR_SIZE * (i + 1) <= |mem|
    ensures ImageOf(raws[..i + 1]) == ImageOf(raws[..i]) + Encode(raws[i])
    ensures mem[INSTR_SIZE * i..][INSTR_SIZE..] == mem[INSTR_SIZE * (i + 1)..]
  {
    assert raws[..i + 1][..i] == raws[..i];
  }

  /** One iteration of the loop in `store_machine_code`. */
  method StoreInstruction(memory: array<Byte>, i: nat, raw: Raw, ghost before: seq<Raw>, ghost rest: seq<Byte>)
    requires |before| == i && |rest| >= INSTR_SIZE && memory[..] == ImageOf(before) + rest
    modifies memory
    ensures memory[..] == ImageOf(before) + Encode(raw) + rest[INSTR_SIZE..]
  {
    var at := i * INSTR_SIZE;
    memory[at + 0] := raw.opcode;
    memory[at + 1] := raw.mode;
    memory[at + 2] := raw.operand1;
    var bytes := LeBytes(raw.operand2, 8);
    forall k | 0 <= k < 8 {
      memory[at + 3 + k] := bytes[k];
    }
  }
}
