/** Exactly how long a trace may be for the 32-bit copies of the hit counters to hand every
    miss on to the next level. */
module HandOnLimits {
  import opened Bits
  import opened Uapi
  import opened CacheSets
  import opened Belady
  import opened BeladyLimits
  import opened LruStack
  import opened ColdMisses
  import opened CacheHierarchy

  /** Every level below the first serves exactly the misses of the one above it. */
  ghost predicate Conserves(gs: seq<Geometry>, p: Policy, tr: seq<MemAccess>)
    requires AllOk(gs)
  {
    var ls := Simulate(gs, p, tr, |tr|).levels;
    forall l :: 0 < l < |ls| ==> PassesDown(ls, l)
  }

  // ---- a trace that outgrows the copies ----

  /** The number of accesses after which the hit counter needs 33 bits. */
  const FULL: nat := TWO32 + 1

  function CrowdedAccess(g: Geometry, t: nat): (a: MemAccess)
    requires Accepted(g)
    ensures g.Tag(a.addr) == (if t < FULL then 0 else 1) && g.Index(a.addr) == 0
  {
    var tag := if t < FULL then 0 else 1;
    AddressFits(g, tag, 0);
    AddressParts(g, tag, 0);
    MemAccess(Address(g, tag, 0), false)
  }

  /** One line 2^32 + 1 times, then another. */
  function Crowded(g: Geometry, n: nat): (tr: seq<MemAccess>)
    requires Accepted(g)
    ensures |tr| == n && forall t :: 0 <= t < n ==> tr[t] == CrowdedAccess(g, t)
  {
    seq(n, t requires 0 <= t < n => CrowdedAccess(g, t))
  }

  lemma {:induction false} OneTagSeen(g: Geometry, n: nat, log: seq<Event>, t: nat, s: nat)
    requires Accepted(g) && FullLog(Crowded(g, n), log) && t <= n && t <= FULL && s < g.numSets
    ensures Seen(g, Crowded(g, n), log[..t], s) <= {0}
  {
    hide Crowded, CrowdedAccess, Geometry.Index, Geometry.Tag;
    if t > 0 {
      OneTagSeen(g, n, log, t - 1, s);
      assert log[..t][..t - 1] == log[..t - 1];
      assert log[..t][t - 1] == log[t - 1] && Crowded(g, n)[t - 1] == CrowdedAccess(g, t - 1);
    } else {
      assert log[..0] == [];
    }
  }

  lemma OneLine(g: Geometry, n: nat, log: seq<Event>)
    requires Accepted(g) && n >= FULL && FullLog(Crowded(g, n), log)
    ensures |Lines(g, Crowded(g, n), log[..FULL], FULL)| <= 1
  {
    hide Crowded, Geometry.LineNumber;
    var tr, prefix := Crowded(g, n), log[..FULL];
    var line := g.LineNumber(CrowdedAccess(g, 0).addr);
    forall m | 0 <= m < FULL ensures g.LineNumber(tr[prefix[m].idx].addr) == line {
      assert tr[m] == CrowdedAccess(g, m) == CrowdedAccess(g, 0);
    }
    assert Lines(g, tr, prefix, FULL) <= {line};
    Subset(Lines(g, tr, prefix, FULL), {line});
  }

  /** All accesses but the first of the crowd hit, so the hit counter is full. */
  lemma CounterFull(g: Geometry, p: Policy, n: nat, log: seq<Event>)
    requires Accepted(g) && n >= FULL && FullLog(Crowded(g, n), log)
    ensures HitCount(g, p, Crowded(g, n), log, FULL) >= TWO32
  {
    hide Crowded, Seen, Lines, HitCount;
    var tr, prefix := Crowded(g, n), log[..FULL];
    forall s | 0 <= s < g.numSets ensures |Seen(g, tr, prefix, s)| <= g.ways {
      OneTagSeen(g, n, log, FULL, s);
      Subset(Seen(g, tr, prefix, s), {0});
    }
    OnlyColdMisses(g, p, tr, prefix, FULL);
    OneLine(g, n, log);
    assert log[..FULL] == prefix[..FULL];
    CountsOfPrefix(g, p, tr, log, prefix, FULL);
  }

  /** The other line misses, and the comparison overlooks it. */
  lemma CrowdedOut(g: Geometry, p: Policy, n: nat, log: seq<Event>)
    requires Accepted(g) && n > FULL && FullLog(Crowded(g, n), log)
    ensures LateMiss(g, p, Crowded(g, n), log, FULL)
  {
    hide Crowded, CrowdedAccess, Seen, Replay, HitCount, Geometry.Index, Geometry.Tag;
    var tr := Crowded(g, n);
    CounterFull(g, p, n, log);
    assert tr[FULL] == CrowdedAccess(g, FULL);
    OneTagSeen(g, n, log, FULL, 0);
    ResidentWasSeen(g, p, tr, log[..FULL], 0);
  }

  lemma {:induction false} NotConserved(gs: seq<Geometry>, p: Policy, n: nat)
    requires AllOk(gs) && |gs| >= 2 && Accepted(gs[0]) && FULL < n < TWO64 - 1
    ensures !Conserves(gs, p, Crowded(gs[0], n))
  {
    hide Crowded, Simulate, SimLogs, Replay, LateMiss, Forwarded, Timed;
    var tr := Crowded(gs[0], n);
    SimulationIsFaithful(gs, p, tr, n);
    var st, logs := Simulate(gs, p, tr, n), SimLogs(gs, p, tr, n);
    assert Mirror(gs[0], p, tr, st.levels[0], logs[0]) && Mirror(gs[1], p, tr, st.levels[1], logs[1]);
    assert FedAt(gs[0], p, tr, logs[0], logs[1], []) by { assert Fed(gs, p, tr, logs); }
    CrowdedOut(gs[0], p, n, logs[0]);
    ServedAreMisses(gs[0], p, tr, st.levels[0], logs[0], logs[1]);
    CountersAddUp(gs[1], p, tr, st.levels[1], logs[1]);
    assert !PassesDown(st.levels, 1);
  }

  lemma ConservedWithin(gs: seq<Geometry>, p: Policy, tr: seq<MemAccess>)
    requires AllOk(gs) && |tr| <= TWO32 + 1
    ensures Conserves(gs, p, tr)
  {
    hide Simulate, SumHits;
    Conservation(gs, p, tr);
  }

  /** With two or more levels, under either policy, all misses are handed on for every
      trace of `n` entries if and only if there are at most 2^32 + 1 of them. */
  lemma {:induction false} HandOnLimit(gs: seq<Geometry>, p: Policy, n: nat)
    requires AllOk(gs) && |gs| >= 2 && Accepted(gs[0]) && n < TWO64 - 1
    ensures (forall tr: seq<MemAccess> :: |tr| == n ==> Conserves(gs, p, tr)) <==> n <= TWO32 + 1
  {
    hide Conserves, AllOk;
    if n <= TWO32 + 1 {
      forall tr: seq<MemAccess> | |tr| == n ensures Conserves(gs, p, tr) { ConservedWithin(gs, p, tr); }
    } else {
      NotConserved(gs, p, n);
      assert |Crowded(gs[0], n)| == n;
    }
  }
}
