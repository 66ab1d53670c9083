/** What the program of userspace/doc/test4.txt does, as written and on the machine. */
module DevicesExample {
  import opened Uapi
  import opened Words
  import opened Isa
  import opened Numerals
  import opened Source
  import opened SourceRuns
  import opened Client
  import opened MachineRuns
  import opened AsmCorrect
  import opened AsmExample

  // ---- the device program ----

  lemma DevicesLines()
    ensures TargetsDefined(Devices()) && |Devices()| == 5
    ensures forall k :: 0 <= k < 5 ==> NextCode(Devices(), k) == k
  {}

  lemma RunOneMore(prog: seq<Line>, s: SourceState, inputs: nat -> bool, n: nat)
    requires s.Ok() && s.pos <= |prog| && TargetsDefined(prog)
    ensures RunSource(prog, s, inputs, n + 1) == StepSource(prog, RunSource(prog, s, inputs, n), inputs(n))
  {}

  /** Where the device program is after `n` steps: it lights the output, reads the input,
      and takes one off what it read; the last line puts the output out if that is zero,
      and is refused if it is not. */
  function DevicesAfter(mem: seq<Byte>, input: bool, n: nat): SourceRun
    requires n <= 6
  {
    var read := if input then 1 else 0;
    var less: Word := if input then 0 else 0xFFFF_FFFF_FFFF_FFFF;
    if n == 0 then SourceRun(SourceState(0, [0, 0, 0, 0], Greater, mem, false), Running)
    else if n == 1 then SourceRun(SourceState(1, [1, 0, 0, 0], Greater, mem, false), Running)
    else if n == 2 then SourceRun(SourceState(2, [1, 0, 0, 0], Greater, mem, true), Running)
    else if n == 3 then SourceRun(SourceState(3, [read, 0, 0, 0], Greater, mem, true), Running)
    else if n == 4 then SourceRun(SourceState(4, [less, 0, 0, 0], Greater, mem, true), Running)
    else if !input then SourceRun(SourceState(4, [less, 0, 0, 0], Greater, mem, true), Failed)
    else SourceRun(SourceState(5, [less, 0, 0, 0], Greater, mem, false), if n == 5 then Running else Finished)
  }

  lemma OneValue()
    ensures Numeral(NoSign, NoPrefix, "1").Value(10) == 1
  {
    OneDigit('1', 10);
    assert ['1'] == "1";
  }

  lemma FirstSteps(mem: seq<Byte>, input: bool, level: bool, n: nat)
    requires |mem| == MEM_SIZE && n < 3 && (n == 2 ==> level == input)
    ensures TargetsDefined(Devices())
    ensures StepSource(Devices(), DevicesAfter(mem, input, n), level) == DevicesAfter(mem, input, n + 1)
  {
    hide Numeral.Value, LoadWord, StoreWord;
    DevicesLines();
    NumeralValues();
    OneValue();
  }

  lemma LastSteps(mem: seq<Byte>, input: bool, level: bool, n: nat)
    requires |mem| == MEM_SIZE && 3 <= n < 6
    ensures TargetsDefined(Devices())
    ensures StepSource(Devices(), DevicesAfter(mem, input, n), level) == DevicesAfter(mem, input, n + 1)
  {
    hide Numeral.Value, LoadWord, StoreWord;
    DevicesLines();
    NumeralValues();
    OneValue();
  }

  lemma DevicesStep(mem: seq<Byte>, input: bool, level: bool, n: nat)
    requires |mem| == MEM_SIZE && n < 6 && (n == 2 ==> level == input)
    ensures TargetsDefined(Devices())
    ensures StepSource(Devices(), DevicesAfter(mem, input, n), level) == DevicesAfter(mem, input, n + 1)
  {
    hide *;
    if n < 3 { FirstSteps(mem, input, level, n); } else { LastSteps(mem, input, level, n); }
  }

  /** For every memory and every input the device program runs so. */
  lemma {:induction false} DevicesRun(mem: seq<Byte>, inputs: nat -> bool, n: nat)
    requires |mem| == MEM_SIZE && n <= 6
    ensures TargetsDefined(Devices())
    ensures RunSource(Devices(), StartState(mem), inputs, n) == DevicesAfter(mem, inputs(2), n)
  {
    hide Devices, StepSource, RunSource;
    DevicesLines();
    if n == 0 {
      RunStarts(Devices(), StartState(mem), inputs);
    } else {
      DevicesRun(mem, inputs, n - 1);
      DevicesStep(mem, inputs(2), inputs(n - 1), n - 1);
      RunOneMore(Devices(), StartState(mem), inputs, n - 1);
    }
  }

  lemma RunStarts(prog: seq<Line>, s: SourceState, inputs: nat -> bool)
    requires s.Ok() && s.pos <= |prog| && TargetsDefined(prog)
    ensures RunSource(prog, s, inputs, 0) == SourceRun(s, Running)
  {}

  lemma DevicesPlaces(k: nat)
    requires k <= 5
    ensures CodeBefore(Devices(), k) == k
  {
    if k > 0 { DevicesPlaces(k - 1); }
  }

  /** The reads of the device program's instructions. */
  function Fetches(n: nat): seq<MemAccess>
    requires n <= 6
  {
    if n == 0 then [] else Fetches(n - 1) + [MemAccess(11 * (n - 1), false)]
  }

  lemma DevicesReferences(mem: seq<Byte>, inputs: nat -> bool, n: nat)
    requires |mem| == MEM_SIZE && n <= 6 && WellFormed(Devices())
    ensures TargetsDefined(Devices())
    ensures SourceReferences(Devices(), StartState(mem), inputs, n) == Fetches(if inputs(2) || n <= 5 then n else 5)
  {
    hide WellFormed, RunSource;
    DevicesLines();
    if n > 0 {
      DevicesReferences(mem, inputs, n - 1);
      DevicesRun(mem, inputs, n - 1);
      if inputs(2) || n <= 5 { OneReference(n - 1); }
    }
  }

  lemma OneReference(k: nat)
    requires WellFormed(Devices()) && k <= 5
    ensures LineReferences(Devices(), k) == [MemAccess(11 * k, false)]
  {
    hide WellFormed, Numeral.Value;
    DevicesLines();
    DevicesPlaces(k);
    NumeralValues();
  }

  /** Machine and program from the memory that the program is loaded into. */
  lemma DevicesAgree(mem: seq<Byte>, inputs: nat -> bool, n: nat)
    requires |mem| == MEM_SIZE && n <= 6 && WellFormed(Devices())
    ensures var m := StartMachine(LoadedState(Devices(), mem).mem);
      var r := RunMachine(m, 6, inputs, n); var q := DevicesAfter(LoadedState(Devices(), mem).mem, inputs(2), n);
      r.status == q.status && r.m.regs == q.s.regs && r.m.output == q.s.output
  {
    hide WellFormed, RunMachine, RunSource, Devices, DevicesAfter, Compiled;
    DevicesPlaces(5);
    DevicesLines();
    var start := LoadedState(Devices(), mem);
    LoadedRelated(Devices(), mem);
    RunsAgree(Devices(), start, StartMachine(start.mem), inputs, n);
    DevicesRun(start.mem, inputs, n);
  }

  lemma NothingRead(prog: seq<Line>, q: SourceRun)
    requires WellFormed(prog) && q.s.pos <= |prog| && q.status != Running
    ensures NextRead(prog, q) == []
  {
    hide WellFormed;
  }

  lemma DevicesStop(mem: seq<Byte>, input: bool)
    ensures DevicesAfter(mem, input, 6).status != Running && DevicesAfter(mem, input, 6).s.pos <= 5
  {}

  lemma DevicesTrace(mem: seq<Byte>, inputs: nat -> bool)
    requires |mem| == MEM_SIZE && WellFormed(Devices())
    ensures RunMachine(StartMachine(LoadedState(Devices(), mem).mem), 6, inputs, 6).trace
      == Fetches(if inputs(2) then 6 else 5)
  {
    hide WellFormed, RunMachine, RunSource, Devices, SourceReferences, Related, Fetches, NextRead, DevicesAfter,
      TargetsDefined;
    DevicesPlaces(5);
    DevicesLines();
    var start := LoadedState(Devices(), mem);
    LoadedRelated(Devices(), mem);
    ProgramTrace(Devices(), start, StartMachine(start.mem), inputs, 6);
    DevicesReferences(start.mem, inputs, 6);
    DevicesRun(start.mem, inputs, 6);
    DevicesStop(start.mem, inputs(2));
    NothingRead(Devices(), DevicesAfter(start.mem, inputs(2), 6));
    var refs := SourceReferences(Devices(), start, inputs, 6);
    assert refs + [] == refs;
  }

  /** On the machine, from whatever memory the program is loaded into: after two iterations
      the output is lit, after three R0 has the input's level, and in the sixth the
      program halts with the output out if that was one; otherwise the fifth failed. Six
      or five instruction reads are all that is recorded. */
  lemma {:induction false} DevicesOnMachine(mem: seq<Byte>, inputs: nat -> bool)
    requires |mem| == MEM_SIZE
    ensures WellFormed(Devices())
    ensures var m := StartMachine(LoadedState(Devices(), mem).mem);
      var r2, r3, r6 := RunMachine(m, 6, inputs, 2), RunMachine(m, 6, inputs, 3), RunMachine(m, 6, inputs, 6);
      && r2.status == Running && r2.m.output
      && r3.status == Running && r3.m.regs == [if inputs(2) then 1 else 0, 0, 0, 0]
      && r6.status == (if inputs(2) then Finished else Failed) && r6.m.output == !inputs(2)
      && r6.trace == Fetches(if inputs(2) then 6 else 5)
  {
    hide WellFormed, RunMachine, Devices, LoadedState, Fetches;
    DevicesIsWellFormed();
    DevicesAgree(mem, inputs, 2);
    DevicesAgree(mem, inputs, 3);
    DevicesAgree(mem, inputs, 6);
    DevicesTrace(mem, inputs);
  }
}
