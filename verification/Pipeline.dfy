/** The whole program: a source is assembled and run, the client's accesses go through the
    trace collector, and the cache simulator replays what it loads from there. */
module Pipeline {
  import opened Bits
  import opened Uapi
  import opened Isa
  import opened CacheSets
  import opened Belady
  import opened CacheConfig
  import opened CacheHierarchy
  import opened CacheSimulator
  import opened CacheTheorems
  import opened TraceBuffer
  import opened TraceLoader
  import opened Client
  import opened MachineRuns
  import opened Source
  import opened SourceRuns
  import opened AsmCorrect

  /** The accesses a client has written, pushed one after the other into the trace buffer. */
  method Collect(accesses: seq<MemAccess>) returns (tb: TraceBuffer)
    ensures fresh(tb) && tb.Valid() && tb.Contents() == accesses && tb.Position() == 0
  {
    hide TraceBuffer.Valid, TraceBuffer.Contents, TraceBuffer.Position;
    tb := new TraceBuffer();
    var i := 0;
    while i < |accesses|
      invariant i <= |accesses| && fresh(tb) && fresh(tb.Chunks())
      invariant tb.Valid() && tb.Contents() == accesses[..i] && tb.Position() == 0
    {
      var ok := tb.Push(accesses[i], true);
      assert accesses[..i + 1] == accesses[..i] + [accesses[i]];
      i := i + 1;
    }
    assert accesses[..i] == accesses;
  }

  /** The simulator fed from the trace collector: it replays all that was written. */
  method Replayed(accesses: seq<MemAccess>, c: Config) returns (sim: Simulator, levels: seq<CacheLevel>, ramVisits: nat)
    requires CacheConfig.Accepts(c) && |accesses| < SIZE_MAX
    ensures sim.policy == c.policy && |levels| == c.numLvls && sim.Apart(levels) && AllOk(sim.Geos(levels))
    ensures forall l :: 0 <= l < |levels| ==> levels[l].Geo() == LevelGeometry(c, l + 1)
    ensures sim.State(levels) == Simulate(sim.Geos(levels), c.policy, accesses, |accesses|)
    ensures ramVisits == levels[|levels| - 1].misses
  {
    hide TraceBuffer.Valid, TraceBuffer.Position, Flat, Simulate;
    var tb := Collect(accesses);
    var traces, count := LoadTraces(tb, _ => true);
    assert traces[..count] == accesses;
    sim := new Simulator(c.policy);
    levels, ramVisits := sim.RunCacheSim(c, traces[..count]);
  }

  lemma {:induction false} TraceLength(m: Machine, count: nat, inputs: nat -> bool, n: nat)
    requires m.Ok()
    ensures |RunMachine(m, count, inputs, n).trace| <= 2 * n + 1
  {
    hide AtomicStep, AfterDriver;
    if n > 0 {
      TraceLength(m, count, inputs, n - 1);
      OneAccess(RunMachine(m, count, inputs, n - 1).m, inputs(n - 1));
    }
  }

  lemma OneAccess(m: Machine, input: bool)
    requires m.Ok()
    ensures m.pc + INSTR_SIZE <= MEM_SIZE && AtomicStep(m, input).Continue? ==> |AtomicStep(m, input).access| <= 1
  {
    hide Decode;
  }

  /** What the first level of a simulation owes to the theorems about it: a miss for every
      line, and under furthest-next-use replacement no more misses than any rival. */
  ghost predicate FirstLevelBounds(g: Geometry, p: Policy, tr: seq<MemAccess>, misses: nat)
    requires g.Ok()
  {
    && |TraceLines(g, tr)| <= misses
    && ((forall s: nat :: s < g.numSets ==> |TraceTags(g, tr, s)| <= g.ways) ==> misses == |TraceLines(g, tr)|)
    && (p == Optimal && TagsUnshared(g, tr) ==>
       forall run :: LegalRun(g, tr, run) ==> misses <= Misses(g, tr, run, |tr|))
  }

  lemma {:induction false} SimulatedBounds(gs: seq<Geometry>, p: Policy, tr: seq<MemAccess>)
    requires AllOk(gs) && |tr| < TWO64 - 1
    ensures FirstLevelBounds(gs[0], p, tr, Simulate(gs, p, tr, |tr|).levels[0].misses)
  {
    hide Simulate, TraceLines, TraceTags, LegalAt, Misses, TagsUnshared;
    FirstLevelColdMisses(gs, p, tr);
    if p == Optimal && TagsUnshared(gs[0], tr) {
      forall run | LegalRun(gs[0], tr, run)
        ensures Simulate(gs, p, tr, |tr|).levels[0].misses <= Misses(gs[0], tr, run, |tr|)
      {
        OptimalFirstLevel(gs, gs, tr, run);
      }
    }
  }

  /** Assemble, load and run a well-formed program, collect its accesses, and simulate the
      caches on them: what the caches are simulated on is the reference string of the lines
      that the program took up, and the first level's bounds hold for it. */
  method RunAndSimulate(ghost prog: seq<Line>, lines: seq<string>, extraRead: bool, hash: string -> nat,
                        memory: array<Byte>, inputs: nat -> bool, n: nat, c: Config)
    returns (status: Status, sim: Simulator, levels: seq<CacheLevel>, ramVisits: nat, ghost start: SourceState,
      ghost refs: seq<MemAccess>)
    requires WellFormed(prog) && lines == Rendered(prog) && (lines == [] ==> extraRead) && memory.Length == MEM_SIZE
    requires CacheConfig.Accepts(c) && n < TWO32
    modifies memory
    ensures start == LoadedState(prog, old(memory[..]))
    ensures status == RunSource(prog, start, inputs, n).status
    ensures refs == SourceReferences(prog, start, inputs, n) + NextRead(prog, RunSource(prog, start, inputs, n))
    ensures status == Finished ==> refs == AllReferences(StartMachine(start.mem), Count(prog), inputs, n)
    ensures sim.policy == c.policy && |levels| == c.numLvls && sim.Apart(levels) && AllOk(sim.Geos(levels))
    ensures forall l :: 0 <= l < |levels| ==> levels[l].Geo() == LevelGeometry(c, l + 1)
    ensures sim.State(levels) == Simulate(sim.Geos(levels), c.policy, refs, |refs|)
    ensures FirstLevelBounds(levels[0].Geo(), c.policy, refs, levels[0].misses)
    ensures ramVisits == levels[|levels| - 1].misses
  {
    hide WellFormed, Compiled, RunSource, RunMachine, AllReferences, SourceReferences, NextRead, Simulate,
      FirstLevelBounds;
    var client;
    client, status, start := AssembleAndRun(prog, lines, extraRead, hash, memory, inputs, n);
    refs := client.trace;
    TraceLength(StartMachine(start.mem), Count(prog), inputs, n);
    sim, levels, ramVisits := Replayed(client.trace, c);
    SimulatedBounds(sim.Geos(levels), c.policy, refs);
  }
}
