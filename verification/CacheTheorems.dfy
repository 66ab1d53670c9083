/** The simulator's main results, on the state `run_cache_sim` ends in. */
module CacheTheorems {
  import opened Bits
  import opened Uapi
  import opened CacheSets
  import opened Belady
  import opened LruStack
  import opened ColdMisses
  import opened CacheHierarchy

  /** Level one under furthest-next-use replacement misses no more than under any
      choice of victims, LRU included, when no tag occurs in two of its sets. */
  lemma {:induction false} OptimalFirstLevel(gs: seq<Geometry>, gs': seq<Geometry>, tr: seq<MemAccess>,
      run: seq<Contents>)
    requires AllOk(gs) && AllOk(gs') && gs'[0] == gs[0] && |tr| < TWO64 - 1
    requires TagsUnshared(gs[0], tr) && LegalRun(gs[0], tr, run)
    ensures Simulate(gs, Optimal, tr, |tr|).levels[0].misses <= Misses(gs[0], tr, run, |tr|)
    ensures Simulate(gs, Optimal, tr, |tr|).levels[0].misses <= Simulate(gs', Lru, tr, |tr|).levels[0].misses
  {
    FirstLevel(gs, Optimal, tr);
    FirstLevel(gs', Lru, tr);
    OptimalCounterIsLeast(gs[0], tr, SimLogs(gs, Optimal, tr, |tr|)[0], SimLogs(gs', Lru, tr, |tr|)[0], run);
  }

  lemma FirstLevel(gs: seq<Geometry>, p: Policy, tr: seq<MemAccess>)
    requires AllOk(gs) && |tr| < TWO64 - 1
    ensures var log := SimLogs(gs, p, tr, |tr|)[0];
      FullLog(tr, log) && Simulate(gs, p, tr, |tr|).levels[0] == Replay(gs[0], p, tr, log)
  {
    SimulationIsFaithful(gs, p, tr, |tr|);
    assert Mirror(gs[0], p, tr, Simulate(gs, p, tr, |tr|).levels[0], SimLogs(gs, p, tr, |tr|)[0]);
  }

  lemma AnyLevel(gs: seq<Geometry>, p: Policy, tr: seq<MemAccess>, l: nat)
    requires AllOk(gs) && |tr| < TWO64 - 1 && l < |gs|
    ensures var log := SimLogs(gs, p, tr, |tr|)[l];
      && LogOk(tr, log) && |log| <= |tr| && Simulate(gs, p, tr, |tr|).levels[l] == Replay(gs[l], p, tr, log)
      && (Total(SimLogs(gs, p, tr, |tr|)) < TWO32 ==> Stamped(log))
  {
    SimulationIsFaithful(gs, p, tr, |tr|);
    var st, logs := Simulate(gs, p, tr, |tr|), SimLogs(gs, p, tr, |tr|);
    assert Mirror(gs[l], p, tr, st.levels[l], logs[l]);
    if Total(logs) < TWO32 { assert InOrder(logs[l], st.timer); }
  }

  /** At every level, with fewer than 2^32 accesses in all, an access hits exactly
      when fewer than `ways` other lines of its set came between it and the previous
      access to its line. */
  lemma {:induction false} ExactLruAtEveryLevel(gs: seq<Geometry>, tr: seq<MemAccess>, l: nat, k: nat)
    requires AllOk(gs) && |tr| < TWO64 - 1 && l < |gs|
    requires Total(SimLogs(gs, Lru, tr, |tr|)) < TWO32 && k < |SimLogs(gs, Lru, tr, |tr|)[l]|
    ensures LogOk(tr, SimLogs(gs, Lru, tr, |tr|)[l])
    ensures ExactAt(gs[l], tr, SimLogs(gs, Lru, tr, |tr|)[l], k)
  {
    AnyLevel(gs, Lru, tr, l);
    ExactLru(gs[l], tr, SimLogs(gs, Lru, tr, |tr|)[l], k);
  }

  /** Adding ways to level one, whatever the other levels are, keeps all it held and
      loses no hit. */
  lemma {:induction false} FirstLevelInclusion(gs: seq<Geometry>, gs': seq<Geometry>, tr: seq<MemAccess>, n: nat,
      s: nat)
    requires AllOk(gs) && AllOk(gs') && n <= |tr| < TWO64 - 1 && s < gs[0].numSets
    requires gs'[0].lineSize == gs[0].lineSize && gs'[0].numSets == gs[0].numSets && gs[0].ways <= gs'[0].ways
    requires Total(SimLogs(gs, Lru, tr, n)) < TWO32 && Total(SimLogs(gs', Lru, tr, n)) < TWO32
    ensures var small, large := Simulate(gs, Lru, tr, n).levels[0], Simulate(gs', Lru, tr, n).levels[0];
      Tags(small.sets[s]) <= Tags(large.sets[s]) && small.hits <= large.hits
  {
    hide Simulate, SimLogs, Tags, Replay, Total, HitCount;
    SimulationIsFaithful(gs, Lru, tr, n);
    SimulationIsFaithful(gs', Lru, tr, n);
    var log, log' := SimLogs(gs, Lru, tr, n)[0], SimLogs(gs', Lru, tr, n)[0];
    var st, st' := Simulate(gs, Lru, tr, n), Simulate(gs', Lru, tr, n);
    assert Mirror(gs[0], Lru, tr, st.levels[0], log) && Mirror(gs'[0], Lru, tr, st'.levels[0], log');
    assert InOrder(log, st.timer) && InOrder(log', st'.timer);
    Inclusion(gs[0], gs'[0], tr, log, log', s);
    MoreWaysMoreHits(gs[0], gs'[0], tr, log, log', n);
    CountersAddUp(gs[0], Lru, tr, st.levels[0], log);
    CountersAddUp(gs'[0], Lru, tr, st'.levels[0], log');
  }

  /** The lines of a trace, and the tags of those in one set. */
  ghost function TraceLines(g: Geometry, tr: seq<MemAccess>): set<nat>
    requires g.Ok()
  {
    set m | 0 <= m < |tr| :: g.LineNumber(tr[m].addr)
  }

  ghost function TraceTags(g: Geometry, tr: seq<MemAccess>, s: nat): set<nat>
    requires g.Ok()
  {
    set m | 0 <= m < |tr| && g.Index(tr[m].addr) == s :: g.Tag(tr[m].addr)
  }

  lemma FullLogLines(g: Geometry, tr: seq<MemAccess>, log: seq<Event>)
    requires g.Ok() && FullLog(tr, log)
    ensures Lines(g, tr, log, |log|) == TraceLines(g, tr)
  {
    forall line ensures line in Lines(g, tr, log, |log|) <==> line in TraceLines(g, tr) {
      if line in TraceLines(g, tr) {
        var m :| 0 <= m < |tr| && g.LineNumber(tr[m].addr) == line;
        assert log[m].idx == m;
      }
    }
  }

  lemma {:induction false} SeenIsTouched(g: Geometry, tr: seq<MemAccess>, log: seq<Event>, n: nat, s: nat)
    requires g.Ok() && FullLog(tr, log) && n <= |tr|
    ensures Seen(g, tr, log[..n], s) == set m | 0 <= m < n && g.Index(tr[m].addr) == s :: g.Tag(tr[m].addr)
  {
    if n > 0 {
      SeenIsTouched(g, tr, log, n - 1, s);
      assert log[..n][..n - 1] == log[..n - 1];
    }
  }

  lemma FullLogTags(g: Geometry, tr: seq<MemAccess>, log: seq<Event>, s: nat)
    requires g.Ok() && FullLog(tr, log)
    ensures Seen(g, tr, log, s) == TraceTags(g, tr, s)
  {
    SeenIsTouched(g, tr, log, |tr|, s);
    assert log[..|tr|] == log;
  }

  /** Level one misses at least once per distinct line of the trace, and exactly so
      often if no set sees more tags than it has ways. */
  lemma {:induction false} FirstLevelColdMisses(gs: seq<Geometry>, p: Policy, tr: seq<MemAccess>)
    requires AllOk(gs) && |tr| < TWO64 - 1
    ensures |TraceLines(gs[0], tr)| <= Simulate(gs, p, tr, |tr|).levels[0].misses
    ensures (forall s: nat :: s < gs[0].numSets ==> |TraceTags(gs[0], tr, s)| <= gs[0].ways)
      ==> Simulate(gs, p, tr, |tr|).levels[0].misses == |TraceLines(gs[0], tr)|
  {
    FirstLevel(gs, p, tr);
    var log := SimLogs(gs, p, tr, |tr|)[0];
    ColdMissBound(gs[0], p, tr, log);
    FullLogLines(gs[0], tr, log);
    forall s: nat | s < gs[0].numSets ensures Seen(gs[0], tr, log, s) == TraceTags(gs[0], tr, s) {
      FullLogTags(gs[0], tr, log, s);
    }
  }
}
