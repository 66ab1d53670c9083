/** Furthest-next-use replacement is optimal: no other choice of victims, for the
    same geometry and trace, misses less often. */
module Belady {
  import opened Bits
  import opened Uapi
  import opened CacheSets

  /** The resident tags of every set. */
  type Contents = seq<set<nat>>

  ghost function ContentsOf(l: Level): (c: Contents)
    ensures |c| == |l.sets|
  {
    seq(|l.sets|, s requires 0 <= s < |l.sets| => Tags(l.sets[s]))
  }

  /** What any replacement decision may do on one access: the accessed line ends
      up resident, nothing else is brought in, and no set overflows. */
  ghost predicate LegalStep(g: Geometry, c: Contents, c': Contents, addr: nat)
    requires g.Ok()
  {
    var s, tag := g.Index(addr), g.Tag(addr);
    && |c| == g.numSets && |c'| == g.numSets
    && tag in c'[s] && c'[s] <= c[s] + {tag} && |c'[s]| <= g.ways
    && forall i :: 0 <= i < g.numSets && i != s ==> c'[i] <= c[i]
  }

  /** A replacement history over the whole trace, from an empty cache. */
  ghost predicate LegalRun(g: Geometry, tr: seq<MemAccess>, run: seq<Contents>)
    requires g.Ok()
  {
    && |run| == |tr| + 1 && Sized(g, run)
    && run[0] == seq(g.numSets, _ => {})
    && forall t :: 0 <= t < |tr| ==> LegalAt(g, tr, run, t)
  }

  ghost predicate LegalAt(g: Geometry, tr: seq<MemAccess>, run: seq<Contents>, t: nat)
    requires g.Ok() && |run| == |tr| + 1 && t < |tr|
  {
    LegalStep(g, run[t], run[t + 1], tr[t].addr)
  }

  ghost predicate MissAt(g: Geometry, tr: seq<MemAccess>, run: seq<Contents>, t: nat)
    requires g.Ok() && t < |tr| && t < |run| && |run[t]| == g.numSets
  {
    g.Tag(tr[t].addr) !in run[t][g.Index(tr[t].addr)]
  }

  ghost predicate Sized(g: Geometry, run: seq<Contents>) {
    forall t :: 0 <= t < |run| ==> |run[t]| == g.numSets
  }

  /** Misses among the first `n` accesses. */
  ghost function Misses(g: Geometry, tr: seq<MemAccess>, run: seq<Contents>, n: nat): nat
    requires g.Ok() && Sized(g, run) && n <= |tr| && n <= |run|
  {
    if n == 0 then 0
    else Misses(g, tr, run, n - 1) + if MissAt(g, tr, run, n - 1) then 1 else 0
  }

  /** Misses in set `s` among the first `n` accesses. */
  ghost function MissesIn(g: Geometry, tr: seq<MemAccess>, run: seq<Contents>, s: nat, n: nat): nat
    requires g.Ok() && Sized(g, run) && n <= |tr| && n <= |run|
  {
    if n == 0 then 0
    else MissesIn(g, tr, run, s, n - 1)
         + if g.Index(tr[n - 1].addr) == s && MissAt(g, tr, run, n - 1) then 1 else 0
  }

  ghost function SumMisses(g: Geometry, tr: seq<MemAccess>, run: seq<Contents>, n: nat, sets: nat): nat
    requires g.Ok() && Sized(g, run) && n <= |tr| && n <= |run|
  {
    if sets == 0 then 0 else SumMisses(g, tr, run, n, sets - 1) + MissesIn(g, tr, run, sets - 1, n)
  }

  lemma {:induction false} SumStep(g: Geometry, tr: seq<MemAccess>, run: seq<Contents>, n: nat, sets: nat)
    requires g.Ok() && Sized(g, run) && n < |tr| && n < |run|
    ensures SumMisses(g, tr, run, n + 1, sets) == SumMisses(g, tr, run, n, sets)
      + if g.Index(tr[n].addr) < sets && MissAt(g, tr, run, n) then 1 else 0
  {
    if sets > 0 { SumStep(g, tr, run, n, sets - 1); }
  }

  lemma {:induction false} MissesAreSummed(g: Geometry, tr: seq<MemAccess>, run: seq<Contents>, n: nat)
    requires g.Ok() && Sized(g, run) && n <= |tr| && n <= |run|
    ensures Misses(g, tr, run, n) == SumMisses(g, tr, run, n, g.numSets)
  {
    if n == 0 {
      SumZero(g, tr, run, g.numSets);
    } else {
      MissesAreSummed(g, tr, run, n - 1);
      SumStep(g, tr, run, n - 1, g.numSets);
    }
  }

  lemma {:induction false} SumZero(g: Geometry, tr: seq<MemAccess>, run: seq<Contents>, sets: nat)
    requires g.Ok() && Sized(g, run)
    ensures SumMisses(g, tr, run, 0, sets) == 0
  {
    if sets > 0 { SumZero(g, tr, run, sets - 1); }
  }

  // ---- the simulator's own run is one of the legal ones ----

  ghost function OwnRun(g: Geometry, p: Policy, tr: seq<MemAccess>, log: seq<Event>): (run: seq<Contents>)
    requires g.Ok() && LogOk(tr, log)
    ensures |run| == |log| + 1 && Sized(g, run)
  {
    seq(|log| + 1, t requires 0 <= t <= |log| => ContentsOf(Replay(g, p, tr, log[..t])))
  }

  /** The log of a level that serves every trace entry, as level one does. */
  ghost predicate FullLog(tr: seq<MemAccess>, log: seq<Event>) {
    |log| == |tr| && forall k :: 0 <= k < |log| ==> log[k].idx == k
  }

  lemma OwnStep(g: Geometry, p: Policy, tr: seq<MemAccess>, log: seq<Event>, t: nat)
    requires g.Ok() && LogOk(tr, log) && t < |log|
    ensures var e := log[t];
      var l, l' := Replay(g, p, tr, log[..t]), Replay(g, p, tr, log[..t + 1]);
      && l' == Access(g, p, tr, l, e) && AllDistinct(l)
  {
    assert log[..t + 1][..t] == log[..t];
    NeverTwice(g, p, tr, log[..t]);
  }

  lemma EmptyContents(g: Geometry)
    ensures ContentsOf(Empty(g)) == seq(g.numSets, _ => {})
  {
    assert Tags(seq(g.ways, _ => CacheLine(0, false, 0))) == {};
  }

  lemma FilledSet(ws: seq<CacheLine>)
    requires Distinct(ws)
    ensures |Tags(ws)| <= |ws|
    ensures FirstEmpty(ws) == |ws| ==> |Tags(ws)| == |ws|
  {
    TagsCardinality(ws);
  }

  lemma AccessIsLegal(g: Geometry, p: Policy, tr: seq<MemAccess>, l: Level, e: Event)
    requires g.Ok() && Shape(g, l) && AllDistinct(l) && e.idx < |tr|
    ensures LegalStep(g, ContentsOf(l), ContentsOf(Access(g, p, tr, l, e)), tr[e.idx].addr)
  {
    var a := tr[e.idx].addr;
    var ws := l.sets[g.Index(a)];
    AccessTags(g, p, tr, e.idx, ws, g.Tag(a), e.now);
    FilledSet(ws[Slot(g, p, tr, e.idx, ws, g.Tag(a)) := CacheLine(g.Tag(a), true, e.now)]);
  }

  /** Under either policy the simulator's contents form a legal run. */
  lemma {:induction false} OwnRunIsLegal(g: Geometry, p: Policy, tr: seq<MemAccess>, log: seq<Event>)
    requires g.Ok() && FullLog(tr, log)
    ensures LegalRun(g, tr, OwnRun(g, p, tr, log))
  {
    EmptyContents(g);
    var run := OwnRun(g, p, tr, log);
    forall t | 0 <= t < |tr| ensures LegalAt(g, tr, run, t) {
      OwnStep(g, p, tr, log, t);
      AccessIsLegal(g, p, tr, Replay(g, p, tr, log[..t]), log[t]);
    }
  }

  /** The level's own counter is the number of misses of its run. */
  lemma CounterIsMisses(g: Geometry, p: Policy, tr: seq<MemAccess>, log: seq<Event>, n: nat)
    requires g.Ok() && FullLog(tr, log) && n <= |tr| < TWO64
    ensures Replay(g, p, tr, log[..n]).misses == Misses(g, tr, OwnRun(g, p, tr, log), n)
  {
    Counters(g, p, tr, log, n);
    MissesAreUncountedHits(g, p, tr, log, n);
  }

  lemma {:induction false} MissesAreUncountedHits(g: Geometry, p: Policy, tr: seq<MemAccess>, log: seq<Event>, n: nat)
    requires g.Ok() && FullLog(tr, log) && n <= |tr|
    ensures Misses(g, tr, OwnRun(g, p, tr, log), n) + HitCount(g, p, tr, log, n) == n
  {
    if n > 0 {
      MissesAreUncountedHits(g, p, tr, log, n - 1);
      MissesStep(g, tr, OwnRun(g, p, tr, log), n - 1);
    }
  }

  lemma MissesStep(g: Geometry, tr: seq<MemAccess>, run: seq<Contents>, n: nat)
    requires g.Ok() && Sized(g, run) && n < |tr| && n < |run|
    ensures Misses(g, tr, run, n + 1) == Misses(g, tr, run, n)
      + if g.Tag(tr[n].addr) in run[n][g.Index(tr[n].addr)] then 0 else 1
  {}

  // ---- dominance ----

  /** The tags of `x` that are used again, from `t` on, before `limit`. */
  ghost function Soon(g: Geometry, tr: seq<MemAccess>, x: set<nat>, t: nat, limit: nat): set<nat>
    requires g.Ok() && t <= |tr|
  {
    set tag | tag in x && NextUse(g, tr, t, tag) < limit
  }

  /** However near the horizon, `o` holds at most `slack` more tags than `b` that
      are used again before it. */
  ghost predicate Dominates(g: Geometry, tr: seq<MemAccess>, b: set<nat>, o: set<nat>, t: nat, slack: int)
    requires g.Ok() && t <= |tr|
  {
    forall limit: nat :: |Soon(g, tr, o, t, limit)| <= |Soon(g, tr, b, t, limit)| + slack
  }

  lemma OthersUnmoved(g: Geometry, tr: seq<MemAccess>, t: nat, tag: nat)
    requires g.Ok() && t < |tr| && g.Tag(tr[t].addr) != tag
    ensures NextUse(g, tr, t, tag) == NextUse(g, tr, t + 1, tag)
  {}

  lemma Subset<T>(a: set<T>, b: set<T>)
    requires a <= b
    ensures |a| <= |b|
  {
    if a != b {
      assert b == a + (b - a);
    }
  }

  lemma WithOrWithout<T>(s: set<T>, a: T)
    ensures |s| == |s - {a}| + if a in s then 1 else 0
  {
    if a in s {
      assert s == (s - {a}) + {a};
    } else {
      assert s == s - {a};
    }
  }

  /** How an access at `t` to tag `a` moves the near-future tags of a set that
      holds `a` afterwards and kept only old tags besides. */
  lemma SoonStep(g: Geometry, tr: seq<MemAccess>, x: set<nat>, x': set<nat>, t: nat, limit: nat)
    requires g.Ok() && t < |tr| && limit > t
    requires var a := g.Tag(tr[t].addr); a in x' && x' <= x + {a}
    ensures var a := g.Tag(tr[t].addr);
      var s, s' := Soon(g, tr, x, t, limit) - {a}, Soon(g, tr, x', t + 1, limit) - {a};
      && s' == s * x'
      && |Soon(g, tr, x, t, limit)| == |s| + (if a in x then 1 else 0)
      && |Soon(g, tr, x', t + 1, limit)| == |s'| + (if NextUse(g, tr, t + 1, a) < limit then 1 else 0)
  {
    var a := g.Tag(tr[t].addr);
    var t1 := t + 1;
    var s, s' := Soon(g, tr, x, t, limit), Soon(g, tr, x', t1, limit);
    forall tag | tag != a ensures tag in s' <==> tag in s && tag in x' {
      OthersUnmoved(g, tr, t, tag);
    }
    WithOrWithout(s, a);
    WithOrWithout(s', a);
  }

  /** What furthest-next-use does to a set on one access. */
  ghost predicate FurthestStep(g: Geometry, tr: seq<MemAccess>, b: set<nat>, b': set<nat>, t: nat)
    requires g.Ok() && t < |tr|
  {
    var a := g.Tag(tr[t].addr);
    if a in b then b' == b
    else if |b| < g.ways then b' == b + {a}
    else exists v :: v in b && b' == b - {v} + {a}
                     && forall w :: w in b ==> NextUse(g, tr, t + 1, w) <= NextUse(g, tr, t + 1, v)
  }

  lemma DominanceKept(g: Geometry, tr: seq<MemAccess>, b: set<nat>, b': set<nat>, o: set<nat>, o': set<nat>, t: nat,
      slack: int)
    requires g.Ok() && t < |tr|
    requires Dominates(g, tr, b, o, t, slack) && FurthestStep(g, tr, b, b', t) && |b| <= g.ways
    requires var a := g.Tag(tr[t].addr); a in o' && o' <= o + {a} && |o'| <= g.ways
    ensures var a := g.Tag(tr[t].addr);
      Dominates(g, tr, b', o', t + 1, slack + (if a in o then 0 else 1) - (if a in b then 0 else 1))
  {
    var a := g.Tag(tr[t].addr);
    var slack' := slack + (if a in o then 0 else 1) - (if a in b then 0 else 1);
    SlackNonNegative(g, tr, b, o, t, slack);
    var t1 := t + 1;
    forall limit: nat ensures |Soon(g, tr, o', t1, limit)| <= |Soon(g, tr, b', t1, limit)| + slack' {
      if limit <= t {
        assert Soon(g, tr, o', t1, limit) == {};
      } else {
        assert |Soon(g, tr, o, t, limit)| <= |Soon(g, tr, b, t, limit)| + slack;
        DominanceAt(g, tr, b, b', o, o', t, slack, limit);
      }
    }
  }

  lemma SlackNonNegative(g: Geometry, tr: seq<MemAccess>, b: set<nat>, o: set<nat>, t: nat, slack: int)
    requires g.Ok() && t < |tr| && Dominates(g, tr, b, o, t, slack)
    ensures var a := g.Tag(tr[t].addr); slack + (if a in o then 0 else 1) - (if a in b then 0 else 1) >= 0
  {
    var a := g.Tag(tr[t].addr);
    assert Soon(g, tr, b, t, 0) == {};
    assert |Soon(g, tr, o, t, 0)| >= 0;
    if a in o && a !in b {
      assert Soon(g, tr, o, t, t + 1) >= {a};
      Subset({a}, Soon(g, tr, o, t, t + 1));
      forall w | w in b ensures NextUse(g, tr, t, w) >= t + 1 { OthersUnmoved(g, tr, t, w); }
      assert Soon(g, tr, b, t, t + 1) == {};
    }
  }

  lemma DominanceAt(g: Geometry, tr: seq<MemAccess>, b: set<nat>, b': set<nat>, o: set<nat>, o': set<nat>, t: nat,
      slack: int, limit: nat)
    requires g.Ok() && t < |tr| && limit > t
    requires |Soon(g, tr, o, t, limit)| <= |Soon(g, tr, b, t, limit)| + slack
    requires FurthestStep(g, tr, b, b', t) && |b| <= g.ways
    requires var a := g.Tag(tr[t].addr); a in o' && o' <= o + {a} && |o'| <= g.ways
    requires var a := g.Tag(tr[t].addr); slack + (if a in o then 0 else 1) - (if a in b then 0 else 1) >= 0
    ensures var a := g.Tag(tr[t].addr);
      |Soon(g, tr, o', t + 1, limit)| <= |Soon(g, tr, b', t + 1, limit)| + slack +
        (if a in o then 0 else 1) - (if a in b then 0 else 1)
  {
    var a := g.Tag(tr[t].addr);
    FurthestKeeps(g, tr, b, b', t);
    SoonStep(g, tr, o, o', t, limit);
    SoonStep(g, tr, b, b', t, limit);
    var so, so' := Soon(g, tr, o, t, limit) - {a}, Soon(g, tr, o', t + 1, limit) - {a};
    var sb, sb' := Soon(g, tr, b, t, limit) - {a}, Soon(g, tr, b', t + 1, limit) - {a};
    Subset(so', so);
    if sb' != sb {
      FullSetNeeded(g, tr, b, b', t, limit);
      RoomBeside(so', o', a);
    }
  }

  lemma RoomBeside<T>(s: set<T>, x: set<T>, a: T)
    requires s <= x && a in x && a !in s
    ensures |s| + 1 <= |x|
  {
    Subset(s + {a}, x);
  }

  lemma FurthestKeeps(g: Geometry, tr: seq<MemAccess>, b: set<nat>, b': set<nat>, t: nat)
    requires g.Ok() && t < |tr| && FurthestStep(g, tr, b, b', t) && |b| <= g.ways
    ensures var a := g.Tag(tr[t].addr); a in b' && b' <= b + {a}
    ensures var a := g.Tag(tr[t].addr); b <= b' || (a !in b && |b| == g.ways)
  {}

  /** If a tag needed before `limit` was evicted, the whole set was needed. */
  lemma FullSetNeeded(g: Geometry, tr: seq<MemAccess>, b: set<nat>, b': set<nat>, t: nat, limit: nat)
    requires g.Ok() && t < |tr| && limit > t && FurthestStep(g, tr, b, b', t) && |b| <= g.ways
    requires var a := g.Tag(tr[t].addr); Soon(g, tr, b', t + 1, limit) - {a} != Soon(g, tr, b, t, limit) - {a}
    ensures g.Tag(tr[t].addr) !in b
    ensures |Soon(g, tr, b', t + 1, limit) - {g.Tag(tr[t].addr)}| == g.ways - 1
  {
    hide NextUse;
    var a := g.Tag(tr[t].addr);
    FurthestKeeps(g, tr, b, b', t);
    SoonStep(g, tr, b, b', t, limit);
    var sb, sb' := Soon(g, tr, b, t, limit) - {a}, Soon(g, tr, b', t + 1, limit) - {a};
    assert sb <= b;
    assert sb' == sb * b';
    var v := Evicted(g, tr, b, b', t);
    assert v in sb;
    EvictedLast(g, tr, b, v, t, limit);
    assert sb == b;
    assert sb' == b - {v};
    WithOrWithout(b, v);
  }

  lemma Evicted(g: Geometry, tr: seq<MemAccess>, b: set<nat>, b': set<nat>, t: nat) returns (v: nat)
    requires g.Ok() && t < |tr| && FurthestStep(g, tr, b, b', t)
    requires g.Tag(tr[t].addr) !in b && |b| >= g.ways
    ensures v in b && b' == b - {v} + {g.Tag(tr[t].addr)}
    ensures forall w :: w in b ==> NextUse(g, tr, t + 1, w) <= NextUse(g, tr, t + 1, v)
  {
    v :| v in b && b' == b - {v} + {g.Tag(tr[t].addr)} && forall w :: w in b ==>
      NextUse(g, tr, t + 1, w) <= NextUse(g, tr, t + 1, v);
  }

  lemma EvictedLast(g: Geometry, tr: seq<MemAccess>, b: set<nat>, v: nat, t: nat, limit: nat)
    requires g.Ok() && t < |tr| && v in b && g.Tag(tr[t].addr) !in b && NextUse(g, tr, t, v) < limit
    requires forall w :: w in b ==> NextUse(g, tr, t + 1, w) <= NextUse(g, tr, t + 1, v)
    ensures Soon(g, tr, b, t, limit) == b
  {
    OthersUnmoved(g, tr, t, v);
    forall w | w in b ensures NextUse(g, tr, t, w) < limit { OthersUnmoved(g, tr, t, w); }
  }

  /** A set that is not accessed keeps its dominance when the rival only loses tags. */
  lemma DominanceIdle(g: Geometry, tr: seq<MemAccess>, b: set<nat>, o: set<nat>, o': set<nat>, t: nat, slack: int)
    requires g.Ok() && t < |tr| && Dominates(g, tr, b, o, t, slack)
    requires g.Tag(tr[t].addr) !in b + o && o' <= o
    ensures Dominates(g, tr, b, o', t + 1, slack)
  {
    forall w | w in b + o ensures NextUse(g, tr, t, w) == NextUse(g, tr, t + 1, w) { OthersUnmoved(g, tr, t, w); }
    var t1 := t + 1;
    forall limit: nat ensures |Soon(g, tr, o', t1, limit)| <= |Soon(g, tr, b, t1, limit)| + slack {
      assert Soon(g, tr, b, t1, limit) == Soon(g, tr, b, t, limit);
      Subset(Soon(g, tr, o', t1, limit), Soon(g, tr, o, t, limit));
    }
  }

  // ---- the whole run ----

  /** No tag occurs in two different sets. */
  ghost predicate TagsUnshared(g: Geometry, tr: seq<MemAccess>)
    requires g.Ok()
  {
    forall i, j :: 0 <= i < |tr| && 0 <= j < |tr| && g.Tag(tr[i].addr) == g.Tag(tr[j].addr)
                   ==> g.Index(tr[i].addr) == g.Index(tr[j].addr)
  }

  /** Everything resident was accessed before. */
  ghost predicate Accessed(g: Geometry, tr: seq<MemAccess>, c: Contents, t: nat)
    requires g.Ok() && |c| == g.numSets && t <= |tr|
  {
    forall s, tag :: 0 <= s < g.numSets && tag in c[s]
      ==> exists i :: 0 <= i < t && g.Index(tr[i].addr) == s && g.Tag(tr[i].addr) == tag
  }

  lemma {:induction false} ResidentWasAccessed(g: Geometry, tr: seq<MemAccess>, run: seq<Contents>, t: nat)
    requires g.Ok() && LegalRun(g, tr, run) && t <= |tr|
    ensures Accessed(g, tr, run[t], t)
  {
    if t > 0 {
      ResidentWasAccessed(g, tr, run, t - 1);
      assert LegalAt(g, tr, run, t - 1);
      var a := tr[t - 1].addr;
      forall s, tag | 0 <= s < g.numSets && tag in run[t][s]
        ensures exists i :: 0 <= i < t && g.Index(tr[i].addr) == s && g.Tag(tr[i].addr) == tag
      {
        if tag in run[t - 1][s] {
          var i :| 0 <= i < t - 1 && g.Index(tr[i].addr) == s && g.Tag(tr[i].addr) == tag;
        } else {
          assert s == g.Index(a) && tag == g.Tag(a);
        }
      }
    }
  }

  /** On way arrays, the optimal policy's access is a furthest-next-use step. */
  lemma WaysFurthestStep(g: Geometry, tr: seq<MemAccess>, t: nat, ws: seq<CacheLine>, now: nat)
    requires g.Ok() && t < |tr| && |ws| == g.ways && Distinct(ws)
    ensures var a := g.Tag(tr[t].addr);
      && FurthestStep(g, tr, Tags(ws), Tags(ws[Slot(g, Optimal, tr, t, ws, a) := CacheLine(a, true, now)]), t)
      && |Tags(ws)| <= g.ways
  {
    var a := g.Tag(tr[t].addr);
    AccessTags(g, Optimal, tr, t, ws, a, now);
    FilledSet(ws);
    if a !in Tags(ws) {
      if FirstEmpty(ws) < |ws| {
        PartlyFilled(ws);
      } else {
        var v := ws[OptVictim(g, tr, t + 1, ws)].tag;
        assert v in Tags(ws);
        forall w | w in Tags(ws) ensures NextUse(g, tr, t + 1, w) <= NextUse(g, tr, t + 1, v) {
          var i :| 0 <= i < |ws| && ws[i].valid && ws[i].tag == w;
        }
      }
    }
  }

  lemma OwnFurthestStep(g: Geometry, tr: seq<MemAccess>, log: seq<Event>, t: nat)
    requires g.Ok() && FullLog(tr, log) && t < |tr|
    ensures var run := OwnRun(g, Optimal, tr, log); var s := g.Index(tr[t].addr);
      && FurthestStep(g, tr, run[t][s], run[t + 1][s], t) && |run[t][s]| <= g.ways
      && forall i :: 0 <= i < g.numSets && i != s ==> run[t + 1][i] == run[t][i]
  {
    OwnStep(g, Optimal, tr, log, t);
    WaysFurthestStep(g, tr, t, Replay(g, Optimal, tr, log[..t]).sets[g.Index(tr[t].addr)], log[t].now);
  }

  lemma PartlyFilled(ws: seq<CacheLine>)
    requires FirstEmpty(ws) < |ws|
    ensures |Tags(ws)| < |ws|
  {
    var k := FirstEmpty(ws);
    var rest := ws[..k] + ws[k + 1..];
    forall t | t in Tags(ws) ensures t in Tags(rest) {
      var i :| 0 <= i < |ws| && ws[i].valid && ws[i].tag == t;
      assert rest[if i < k then i else i - 1] == ws[i];
    }
    TagsCardinality(rest);
    Subset(Tags(ws), Tags(rest));
  }

  lemma DominanceBase(g: Geometry, tr: seq<MemAccess>, b: set<nat>, o: set<nat>)
    requires g.Ok() && o == {}
    ensures Dominates(g, tr, b, o, 0, 0)
  {
    forall limit: nat ensures |Soon(g, tr, o, 0, limit)| <= |Soon(g, tr, b, 0, limit)| {
      assert Soon(g, tr, o, 0, limit) == {};
    }
  }

  /** One access, seen from set `s`: both sides count a miss only there. */
  lemma DominanceStep(g: Geometry, tr: seq<MemAccess>, b: Contents, b': Contents, o: Contents, o': Contents, t: nat,
      s: nat, slack: int)
    requires g.Ok() && t < |tr| && s < g.numSets && |b| == |b'| == g.numSets && TagsUnshared(g, tr)
    requires LegalStep(g, o, o', tr[t].addr) && Dominates(g, tr, b[s], o[s], t, slack)
    requires Accessed(g, tr, b, t) && Accessed(g, tr, o, t)
    requires var i := g.Index(tr[t].addr);
      if s == i then FurthestStep(g, tr, b[i], b'[i], t) && |b[i]| <= g.ways else b'[s] == b[s]
    ensures var i, a := g.Index(tr[t].addr), g.Tag(tr[t].addr);
      Dominates(g, tr, b'[s], o'[s], t + 1,
        if s == i then slack + (if a in o[i] then 0 else 1) - (if a in b[i] then 0 else 1) else slack)
  {
    if s == g.Index(tr[t].addr) {
      DominanceKept(g, tr, b[s], b'[s], o[s], o'[s], t, slack);
    } else {
      DominanceIdle(g, tr, b[s], o[s], o'[s], t, slack);
    }
  }

  lemma MissesInStep(g: Geometry, tr: seq<MemAccess>, run: seq<Contents>, s: nat, n: nat)
    requires g.Ok() && Sized(g, run) && n < |tr| && n < |run| && s < g.numSets
    ensures var i, a := g.Index(tr[n].addr), g.Tag(tr[n].addr);
      MissesIn(g, tr, run, s, n + 1) == MissesIn(g, tr, run, s, n) + if s == i && a !in run[n][i] then 1 else 0
  {}

  /** A run in which every access is a furthest-next-use step. */
  ghost predicate FurthestRun(g: Geometry, tr: seq<MemAccess>, run: seq<Contents>)
    requires g.Ok()
  {
    && Sized(g, run) && |run| == |tr| + 1
    && forall t :: 0 <= t < |tr| ==> FurthestRunAt(g, tr, run, t)
  }

  ghost predicate FurthestRunAt(g: Geometry, tr: seq<MemAccess>, run: seq<Contents>, t: nat)
    requires g.Ok() && Sized(g, run) && |run| == |tr| + 1 && t < |tr|
  {
    var s := g.Index(tr[t].addr);
    && FurthestStep(g, tr, run[t][s], run[t + 1][s], t) && |run[t][s]| <= g.ways
    && forall i :: 0 <= i < g.numSets && i != s ==> run[t + 1][i] == run[t][i]
  }

  lemma OwnRunIsFurthest(g: Geometry, tr: seq<MemAccess>, log: seq<Event>)
    requires g.Ok() && FullLog(tr, log)
    ensures FurthestRun(g, tr, OwnRun(g, Optimal, tr, log))
  {
    forall t | 0 <= t < |tr| ensures FurthestRunAt(g, tr, OwnRun(g, Optimal, tr, log), t) {
      OwnFurthestStep(g, tr, log, t);
    }
  }

  lemma {:induction false} DominanceOverRun(g: Geometry, tr: seq<MemAccess>, own: seq<Contents>, run: seq<Contents>,
      t: nat, s: nat)
    requires g.Ok() && LegalRun(g, tr, own) && LegalRun(g, tr, run) && TagsUnshared(g, tr)
    requires FurthestRun(g, tr, own) && t <= |tr| && s < g.numSets
    ensures Dominates(g, tr, own[t][s], run[t][s], t, MissesIn(g, tr, run, s, t) - MissesIn(g, tr, own, s, t))
  {
    if t == 0 {
      DominanceBase(g, tr, own[0][s], run[0][s]);
    } else {
      DominanceOverRun(g, tr, own, run, t - 1, s);
      assert FurthestRunAt(g, tr, own, t - 1) && LegalAt(g, tr, run, t - 1);
      ResidentWasAccessed(g, tr, run, t - 1);
      ResidentWasAccessed(g, tr, own, t - 1);
      DominanceStep(g, tr, own[t - 1], own[t], run[t - 1], run[t], t - 1, s,
        MissesIn(g, tr, run, s, t - 1) - MissesIn(g, tr, own, s, t - 1));
      MissesInStep(g, tr, run, s, t - 1);
      MissesInStep(g, tr, own, s, t - 1);
    }
  }

  lemma {:induction false} FewerInEverySet(g: Geometry, tr: seq<MemAccess>, a: seq<Contents>, b: seq<Contents>,
      sets: nat)
    requires g.Ok() && Sized(g, a) && Sized(g, b) && |a| >= |tr| && |b| >= |tr|
    requires forall s :: 0 <= s < sets ==> MissesIn(g, tr, a, s, |tr|) <= MissesIn(g, tr, b, s, |tr|)
    ensures SumMisses(g, tr, a, |tr|, sets) <= SumMisses(g, tr, b, |tr|, sets)
  {
    if sets > 0 { FewerInEverySet(g, tr, a, b, sets - 1); }
  }

  /** Optimality: when no tag occurs in two sets, furthest-next-use misses no more
      than any other replacement history of the same geometry. */
  lemma {:induction false} FurthestUseIsOptimal(g: Geometry, tr: seq<MemAccess>, log: seq<Event>, run: seq<Contents>)
    requires g.Ok() && FullLog(tr, log) && TagsUnshared(g, tr)
    requires LegalRun(g, tr, run)
    ensures Misses(g, tr, OwnRun(g, Optimal, tr, log), |tr|) <= Misses(g, tr, run, |tr|)
  {
    var own := OwnRun(g, Optimal, tr, log);
    var n := |tr|;
    OwnRunIsLegal(g, Optimal, tr, log);
    OwnRunIsFurthest(g, tr, log);
    forall s | 0 <= s < g.numSets ensures MissesIn(g, tr, own, s, n) <= MissesIn(g, tr, run, s, n) {
      DominanceOverRun(g, tr, own, run, n, s);
      assert Soon(g, tr, run[n][s], n, 0) == {} && Soon(g, tr, own[n][s], n, 0) == {};
    }
    FewerInEverySet(g, tr, own, run, g.numSets);
    MissesAreSummed(g, tr, own, n);
    MissesAreSummed(g, tr, run, n);
  }

  /** The same on the simulator's counters, and against its own LRU policy. */
  lemma {:induction false} OptimalCounterIsLeast(g: Geometry, tr: seq<MemAccess>, log: seq<Event>,
      lruLog: seq<Event>, run: seq<Contents>)
    requires g.Ok() && FullLog(tr, log) && FullLog(tr, lruLog) && TagsUnshared(g, tr) && |tr| < TWO64
    requires LegalRun(g, tr, run)
    ensures Replay(g, Optimal, tr, log).misses <= Misses(g, tr, run, |tr|)
    ensures Replay(g, Optimal, tr, log).misses <= Replay(g, Lru, tr, lruLog).misses
  {
    assert log[..|tr|] == log && lruLog[..|tr|] == lruLog;
    CounterIsMisses(g, Optimal, tr, log, |tr|);
    CounterIsMisses(g, Lru, tr, lruLog, |tr|);
    FurthestUseIsOptimal(g, tr, log, run);
    OwnRunIsLegal(g, Lru, tr, lruLog);
    FurthestUseIsOptimal(g, tr, log, OwnRun(g, Lru, tr, lruLog));
  }
}
