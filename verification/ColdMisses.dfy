/** The cold-miss bound, under either policy: every distinct line misses at least
    once, and only once if no set sees more tags than it has ways. */
module ColdMisses {
  import opened Bits
  import opened Uapi
  import opened CacheSets
  import opened Belady
  import opened LruStack

  /** The lines touched by the first `n` accesses. */
  ghost function Lines(g: Geometry, tr: seq<MemAccess>, log: seq<Event>, n: nat): set<nat>
    requires g.Ok() && LogOk(tr, log) && n <= |log|
  {
    set m | 0 <= m < n :: g.LineNumber(tr[log[m].idx].addr)
  }

  lemma LinesStep(g: Geometry, tr: seq<MemAccess>, log: seq<Event>, n: nat)
    requires g.Ok() && LogOk(tr, log) && n < |log|
    ensures var line := g.LineNumber(tr[log[n].idx].addr);
      |Lines(g, tr, log, n + 1)| == |Lines(g, tr, log, n)| + if line in Lines(g, tr, log, n) then 0 else 1
  {
    var line := g.LineNumber(tr[log[n].idx].addr);
    assert Lines(g, tr, log, n + 1) == Lines(g, tr, log, n) + {line};
  }

  /** A line was touched before exactly when its tag was seen in its set. */
  lemma TouchedIffSeen(g: Geometry, tr: seq<MemAccess>, log: seq<Event>, n: nat)
    requires g.Ok() && LogOk(tr, log) && n < |log|
    ensures var a := tr[log[n].idx].addr;
      g.LineNumber(a) in Lines(g, tr, log, n) <==> g.Tag(a) in Seen(g, tr, log[..n], g.Index(a))
  {
    var a := tr[log[n].idx].addr;
    if g.LineNumber(a) in Lines(g, tr, log, n) {
      var m :| 0 <= m < n && g.LineNumber(tr[log[m].idx].addr) == g.LineNumber(a);
      TouchedIsSeen(g, tr, log, m, n);
    }
    if g.Tag(a) in Seen(g, tr, log[..n], g.Index(a)) {
      var j := SeenHasLast(g, tr, log, g.Index(a), g.Tag(a), n);
      IndexTagIdentifyLine(g, tr[log[j].idx].addr, a);
    }
  }

  /** Only lines that were accessed are resident. */
  lemma {:induction false} ResidentWasSeen(g: Geometry, p: Policy, tr: seq<MemAccess>, log: seq<Event>, s: nat)
    requires g.Ok() && LogOk(tr, log) && s < g.numSets
    ensures Tags(Replay(g, p, tr, log).sets[s]) <= Seen(g, tr, log, s)
    decreases |log|
  {
    if log != [] {
      var n := |log| - 1;
      ResidentWasSeen(g, p, tr, log[..n], s);
      NeverTwice(g, p, tr, log[..n]);
      var a := tr[log[n].idx].addr;
      AccessTags(g, p, tr, log[n].idx, Replay(g, p, tr, log[..n]).sets[g.Index(a)], g.Tag(a), log[n].now);
    }
  }

  /** A set with room for the accessed tag evicts nothing. */
  lemma NothingEvicted(g: Geometry, p: Policy, tr: seq<MemAccess>, idx: nat, ws: seq<CacheLine>, tag: nat, now: nat)
    requires g.Ok() && idx < |tr| && |ws| == g.ways && Distinct(ws) && |Tags(ws) + {tag}| <= g.ways
    ensures Tags(ws[Slot(g, p, tr, idx, ws, tag) := CacheLine(tag, true, now)]) == Tags(ws) + {tag}
  {
    AccessTags(g, p, tr, idx, ws, tag, now);
    FilledSet(ws);
    if tag in Tags(ws) {
      assert Tags(ws) + {tag} == Tags(ws);
    }
  }

  /** In a set that sees no more tags than it has ways, every tag seen stays. */
  lemma {:induction false} SeenStays(g: Geometry, p: Policy, tr: seq<MemAccess>, log: seq<Event>, s: nat)
    requires g.Ok() && LogOk(tr, log) && s < g.numSets && |Seen(g, tr, log, s)| <= g.ways
    ensures Tags(Replay(g, p, tr, log).sets[s]) == Seen(g, tr, log, s)
    decreases |log|
  {
    if log == [] {
      assert Tags(Replay(g, p, tr, log).sets[s]) == {};
    } else {
      var n := |log| - 1;
      Subset(Seen(g, tr, log[..n], s), Seen(g, tr, log, s));
      SeenStays(g, p, tr, log[..n], s);
      var l := Replay(g, p, tr, log[..n]);
      NeverTwice(g, p, tr, log[..n]);
      var a := tr[log[n].idx].addr;
      if s == g.Index(a) {
        NothingEvicted(g, p, tr, log[n].idx, l.sets[s], g.Tag(a), log[n].now);
      } else {
        assert Access(g, p, tr, l, log[n]).sets[s] == l.sets[s];
      }
    }
  }

  lemma {:induction false} SeenGrows(g: Geometry, tr: seq<MemAccess>, log: seq<Event>, n: nat, s: nat)
    requires g.Ok() && LogOk(tr, log) && n <= |log|
    ensures Seen(g, tr, log[..n], s) <= Seen(g, tr, log, s)
    decreases |log|
  {
    if n == |log| {
      assert log[..n] == log;
    } else {
      var init := log[..|log| - 1];
      assert init[..n] == log[..n];
      SeenGrows(g, tr, init, n, s);
    }
  }

  /** Misses (accesses less hits) are at least the distinct lines touched. */
  lemma {:induction false} EveryLineMisses(g: Geometry, p: Policy, tr: seq<MemAccess>, log: seq<Event>, n: nat)
    requires g.Ok() && LogOk(tr, log) && n <= |log|
    ensures n - HitCount(g, p, tr, log, n) >= |Lines(g, tr, log, n)|
  {
    if n > 0 {
      EveryLineMisses(g, p, tr, log, n - 1);
      LinesStep(g, tr, log, n - 1);
      TouchedIffSeen(g, tr, log, n - 1);
      ResidentWasSeen(g, p, tr, log[..n - 1], g.Index(tr[log[n - 1].idx].addr));
    } else {
      assert Lines(g, tr, log, 0) == {};
    }
  }

  /** When no set sees more than `ways` tags, there are no other misses. */
  lemma {:induction false} OnlyColdMisses(g: Geometry, p: Policy, tr: seq<MemAccess>, log: seq<Event>, n: nat)
    requires g.Ok() && LogOk(tr, log) && n <= |log|
    requires forall s :: 0 <= s < g.numSets ==> |Seen(g, tr, log, s)| <= g.ways
    ensures n - HitCount(g, p, tr, log, n) == |Lines(g, tr, log, n)|
  {
    if n > 0 {
      OnlyColdMisses(g, p, tr, log, n - 1);
      LinesStep(g, tr, log, n - 1);
      TouchedIffSeen(g, tr, log, n - 1);
      var s := g.Index(tr[log[n - 1].idx].addr);
      SeenGrows(g, tr, log, n - 1, s);
      Subset(Seen(g, tr, log[..n - 1], s), Seen(g, tr, log, s));
      SeenStays(g, p, tr, log[..n - 1], s);
    } else {
      assert Lines(g, tr, log, 0) == {};
    }
  }

  /** The bounds on the level's own miss counter. */
  lemma ColdMissBound(g: Geometry, p: Policy, tr: seq<MemAccess>, log: seq<Event>)
    requires g.Ok() && LogOk(tr, log) && |log| < TWO64
    ensures Replay(g, p, tr, log).misses >= |Lines(g, tr, log, |log|)|
    ensures (forall s :: 0 <= s < g.numSets ==> |Seen(g, tr, log, s)| <= g.ways)
      ==> Replay(g, p, tr, log).misses == |Lines(g, tr, log, |log|)|
  {
    assert log[..|log|] == log;
    Counters(g, p, tr, log, |log|);
    EveryLineMisses(g, p, tr, log, |log|);
    if forall s :: 0 <= s < g.numSets ==> |Seen(g, tr, log, s)| <= g.ways {
      OnlyColdMisses(g, p, tr, log, |log|);
    }
  }
}
