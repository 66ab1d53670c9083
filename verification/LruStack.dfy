/** Timestamp replacement is exact LRU: what a level holds, and so which accesses
    hit, is characterised by stack distance; more ways never lose a line. */
module LruStack {
  import opened Uapi
  import opened CacheSets
  import opened Belady

  /** The tags of set `s` touched by the log. */
  ghost function Seen(g: Geometry, tr: seq<MemAccess>, log: seq<Event>, s: nat): set<nat>
    requires g.Ok() && LogOk(tr, log)
    decreases |log|
  {
    if log == [] then {}
    else
      var n := |log| - 1; var a := tr[log[n].idx].addr;
      Seen(g, tr, log[..n], s) + if g.Index(a) == s then {g.Tag(a)} else {}
  }

  /** The tags of set `s` touched after the last touch of `tag`. */
  ghost function After(g: Geometry, tr: seq<MemAccess>, log: seq<Event>, s: nat, tag: nat): set<nat>
    requires g.Ok() && LogOk(tr, log)
    decreases |log|
  {
    if log == [] then {}
    else
      var n := |log| - 1; var a := tr[log[n].idx].addr;
      if g.Index(a) != s then After(g, tr, log[..n], s, tag)
      else if g.Tag(a) == tag then {}
      else After(g, tr, log[..n], s, tag) + {g.Tag(a)}
  }

  /** Time moves on between accesses: the shared timer is bumped by each one. */
  ghost predicate Stamped(log: seq<Event>) {
    forall i, j :: 0 <= i < j < |log| ==> log[i].now < log[j].now
  }

  lemma {:induction false} AfterFacts(g: Geometry, tr: seq<MemAccess>, log: seq<Event>, s: nat, x: nat)
    requires g.Ok() && LogOk(tr, log)
    ensures After(g, tr, log, s, x) <= Seen(g, tr, log, s) && x !in After(g, tr, log, s, x)
    decreases |log|
  {
    if log != [] { AfterFacts(g, tr, log[..|log| - 1], s, x); }
  }

  /** Of two touched tags one was touched last, and then it has seen less since. */
  lemma {:induction false} LaterSeesLess(g: Geometry, tr: seq<MemAccess>, log: seq<Event>, s: nat, x: nat, y: nat)
    requires g.Ok() && LogOk(tr, log) && x != y
    requires x in Seen(g, tr, log, s) && y in Seen(g, tr, log, s)
    ensures x in After(g, tr, log, s, y) || y in After(g, tr, log, s, x)
    ensures x !in After(g, tr, log, s, y) ==> After(g, tr, log, s, y) + {y} <= After(g, tr, log, s, x)
    decreases |log|
  {
    var n := |log| - 1;
    var a := tr[log[n].idx].addr;
    var init := log[..n];
    AfterFacts(g, tr, init, s, x);
    AfterFacts(g, tr, init, s, y);
    if g.Index(a) != s || (g.Tag(a) != x && g.Tag(a) != y) {
      LaterSeesLess(g, tr, init, s, x, y);
    }
  }

  /** The tags that LRU keeps: those followed by fewer than `ways` others. */
  ghost predicate Kept(g: Geometry, tr: seq<MemAccess>, log: seq<Event>, s: nat, x: nat)
    requires g.Ok() && LogOk(tr, log)
  {
    x in Seen(g, tr, log, s) && |After(g, tr, log, s, x)| < g.ways
  }

  /** A set's ways agree with its history: they hold exactly the tags that LRU keeps,
      nothing was evicted while a way was empty, and stamps are ordered as the last
      touches are. */
  ghost predicate Agrees(g: Geometry, tr: seq<MemAccess>, log: seq<Event>, s: nat, ws: seq<CacheLine>)
    requires g.Ok() && LogOk(tr, log)
  {
    && (forall x :: x in Tags(ws) <==> Kept(g, tr, log, s, x))
    && (FirstEmpty(ws) < |ws| ==> Tags(ws) == Seen(g, tr, log, s))
    && (forall i, j :: 0 <= i < |ws| && 0 <= j < |ws| && i != j && ws[i].valid && ws[j].valid ==>
          && ws[i].lastUsed != ws[j].lastUsed
          && (ws[i].lastUsed < ws[j].lastUsed ==> ws[j].tag in After(g, tr, log, s, ws[i].tag)))
  }

  /** No stamp in a set is ahead of the last access. */
  ghost predicate NotAhead(log: seq<Event>, ws: seq<CacheLine>) {
    forall i :: 0 <= i < |ws| && ws[i].valid ==> log != [] && ws[i].lastUsed <= log[|log| - 1].now
  }

  // ---- the three ways an access can go ----

  /** Membership after an access to `a`, in terms of the history before it. */
  ghost predicate KeptBy(g: Geometry, tr: seq<MemAccess>, log: seq<Event>, s: nat, a: nat, x: nat)
    requires g.Ok() && LogOk(tr, log)
  {
    x == a || (x in Seen(g, tr, log, s) && |After(g, tr, log, s, x) + {a}| < g.ways)
  }

  lemma HitKeeps(g: Geometry, tr: seq<MemAccess>, log: seq<Event>, s: nat, ws: seq<CacheLine>, a: nat, x: nat)
    requires g.Ok() && LogOk(tr, log) && Agrees(g, tr, log, s, ws) && a in Tags(ws)
    ensures x in Tags(ws) <==> KeptBy(g, tr, log, s, a, x)
  {
    if x != a && x in Seen(g, tr, log, s) {
      var af := After(g, tr, log, s, x);
      AfterFacts(g, tr, log, s, x);
      if a in af {
        assert af + {a} == af;
      } else {
        LaterSeesLess(g, tr, log, s, a, x);
        RoomBeside(af, After(g, tr, log, s, a), x);
        Subset(af, af + {a});
        assert |af + {a}| == |af| + 1;
      }
    }
  }

  lemma FillKeeps(g: Geometry, tr: seq<MemAccess>, log: seq<Event>, s: nat, ws: seq<CacheLine>, a: nat, x: nat)
    requires g.Ok() && LogOk(tr, log) && Agrees(g, tr, log, s, ws) && |ws| == g.ways
    requires a !in Tags(ws) && FirstEmpty(ws) < |ws|
    ensures x in Tags(ws) + {a} <==> KeptBy(g, tr, log, s, a, x)
  {
    PartlyFilled(ws);
    if x != a && x in Seen(g, tr, log, s) {
      var af := After(g, tr, log, s, x);
      AfterFacts(g, tr, log, s, x);
      RoomBeside(af, Tags(ws), x);
      assert |af + {a}| <= |af| + 1;
    }
  }

  lemma VictimOldest(g: Geometry, tr: seq<MemAccess>, log: seq<Event>, s: nat, ws: seq<CacheLine>)
    requires g.Ok() && LogOk(tr, log) && Agrees(g, tr, log, s, ws) && |ws| == g.ways && Distinct(ws)
    requires FirstEmpty(ws) == |ws|
    ensures var v := ws[LruVictim(ws)].tag;
      v in Tags(ws) && After(g, tr, log, s, v) == Tags(ws) - {v} && |Tags(ws)| == g.ways
  {
    var k := LruVictim(ws);
    var v := ws[k].tag;
    FilledSet(ws);
    assert ws[k].valid;
    AfterFacts(g, tr, log, s, v);
    var others := Tags(ws) - {v};
    forall w | w in others ensures w in After(g, tr, log, s, v) {
      var i :| 0 <= i < |ws| && ws[i].valid && ws[i].tag == w;
    }
    WithOrWithout(Tags(ws), v);
    SameSize(others, After(g, tr, log, s, v));
  }

  lemma SameSize<T>(a: set<T>, b: set<T>)
    requires a <= b && |b| <= |a|
    ensures a == b
  {
    assert b == a + (b - a);
  }

  lemma EvictionKeeps(g: Geometry, tr: seq<MemAccess>, log: seq<Event>, s: nat, ws: seq<CacheLine>, a: nat, x: nat)
    requires g.Ok() && LogOk(tr, log) && Agrees(g, tr, log, s, ws) && |ws| == g.ways && Distinct(ws)
    requires a !in Tags(ws) && FirstEmpty(ws) == |ws|
    ensures x in Tags(ws) - {ws[LruVictim(ws)].tag} + {a} <==> KeptBy(g, tr, log, s, a, x)
  {
    VictimOldest(g, tr, log, s, ws);
    var v := ws[LruVictim(ws)].tag;
    WithOrWithout(Tags(ws), v);
    if x != a && x in Seen(g, tr, log, s) {
      var af := After(g, tr, log, s, x);
      AfterFacts(g, tr, log, s, x);
      Subset(af, af + {a});
      if x == v {
        assert |af + {a}| == |af| + 1;
      } else if x in Tags(ws) {
        LaterSeesLess(g, tr, log, s, v, x);
        AfterFacts(g, tr, log, s, v);
        if v in af {
          // the victim was not touched after x: x was touched after it
          LaterSeesLess(g, tr, log, s, x, v);
          NotBoth(g, tr, log, s, x, v);
        }
        RoomBeside(af, After(g, tr, log, s, v), x);
        assert |af + {a}| <= |af| + 1;
      }
    }
  }

  lemma {:induction false} NotBoth(g: Geometry, tr: seq<MemAccess>, log: seq<Event>, s: nat, x: nat, y: nat)
    requires g.Ok() && LogOk(tr, log) && x != y
    ensures !(x in After(g, tr, log, s, y) && y in After(g, tr, log, s, x))
    decreases |log|
  {
    if log != [] {
      NotBoth(g, tr, log[..|log| - 1], s, x, y);
      AfterFacts(g, tr, log[..|log| - 1], s, x);
      AfterFacts(g, tr, log[..|log| - 1], s, y);
    }
  }

  // ---- the invariant over a whole log ----

  /** An access to another set changes neither a set's ways nor its history. */
  lemma AgreesElsewhere(g: Geometry, tr: seq<MemAccess>, log: seq<Event>, s: nat, ws: seq<CacheLine>)
    requires g.Ok() && LogOk(tr, log) && log != []
    requires g.Index(tr[log[|log| - 1].idx].addr) != s
    requires Agrees(g, tr, log[..|log| - 1], s, ws)
    ensures Agrees(g, tr, log, s, ws)
    ensures Stamped(log) && NotAhead(log[..|log| - 1], ws) ==> NotAhead(log, ws)
  {
    var n := |log| - 1;
    if n > 0 && Stamped(log) { assert log[n - 1].now < log[n].now; }
  }

  /** Membership once the access to `a` is part of the history. */
  lemma KeptByNext(g: Geometry, tr: seq<MemAccess>, log: seq<Event>, x: nat)
    requires g.Ok() && LogOk(tr, log) && log != []
    ensures var addr := tr[log[|log| - 1].idx].addr; var s, a := g.Index(addr), g.Tag(addr);
      KeptBy(g, tr, log[..|log| - 1], s, a, x) <==> Kept(g, tr, log, s, x)
  {
    OpenAfter(g, tr, log, x);
  }

  lemma MembersStep(g: Geometry, tr: seq<MemAccess>, log: seq<Event>, ws: seq<CacheLine>, x: nat)
    requires g.Ok() && LogOk(tr, log) && log != [] && |ws| == g.ways && Distinct(ws)
    requires var a := tr[log[|log| - 1].idx].addr; Agrees(g, tr, log[..|log| - 1], g.Index(a), ws)
    ensures var e := log[|log| - 1]; var s, a := g.Index(tr[e.idx].addr), g.Tag(tr[e.idx].addr);
      var ws' := ws[Slot(g, Lru, tr, e.idx, ws, a) := CacheLine(a, true, e.now)];
      x in Tags(ws') <==> Kept(g, tr, log, s, x)
  {
    var n := |log| - 1;
    var s, a := g.Index(tr[log[n].idx].addr), g.Tag(tr[log[n].idx].addr);
    AccessTags(g, Lru, tr, log[n].idx, ws, a, log[n].now);
    if a in Tags(ws) {
      HitKeeps(g, tr, log[..n], s, ws, a, x);
    } else if FirstEmpty(ws) < |ws| {
      FillKeeps(g, tr, log[..n], s, ws, a, x);
    } else {
      EvictionKeeps(g, tr, log[..n], s, ws, a, x);
    }
    KeptByNext(g, tr, log, x);
  }

  lemma NothingLostYet(g: Geometry, tr: seq<MemAccess>, log: seq<Event>, ws: seq<CacheLine>)
    requires g.Ok() && LogOk(tr, log) && log != [] && |ws| == g.ways && Distinct(ws)
    requires var a := tr[log[|log| - 1].idx].addr; Agrees(g, tr, log[..|log| - 1], g.Index(a), ws)
    ensures var e := log[|log| - 1]; var s, a := g.Index(tr[e.idx].addr), g.Tag(tr[e.idx].addr);
      var ws' := ws[Slot(g, Lru, tr, e.idx, ws, a) := CacheLine(a, true, e.now)];
      FirstEmpty(ws') < |ws'| ==> Tags(ws') == Seen(g, tr, log, s)
  {
    var n := |log| - 1;
    var e := log[n];
    var a := g.Tag(tr[e.idx].addr);
    AccessTags(g, Lru, tr, e.idx, ws, a, e.now);
    var ws' := ws[Slot(g, Lru, tr, e.idx, ws, a) := CacheLine(a, true, e.now)];
    var k := FirstEmpty(ws');
    if k < |ws'| { assert !ws[k].valid; }
  }

  lemma AgreesStep(g: Geometry, tr: seq<MemAccess>, log: seq<Event>, ws: seq<CacheLine>)
    requires g.Ok() && LogOk(tr, log) && log != [] && Stamped(log) && |ws| == g.ways && Distinct(ws)
    requires var a := tr[log[|log| - 1].idx].addr; Agrees(g, tr, log[..|log| - 1], g.Index(a), ws)
    requires NotAhead(log[..|log| - 1], ws)
    ensures var e := log[|log| - 1]; var a := tr[e.idx].addr;
      var ws' := ws[Slot(g, Lru, tr, e.idx, ws, g.Tag(a)) := CacheLine(g.Tag(a), true, e.now)];
      Agrees(g, tr, log, g.Index(a), ws') && NotAhead(log, ws')
  {
    var e := log[|log| - 1];
    var s, a := g.Index(tr[e.idx].addr), g.Tag(tr[e.idx].addr);
    var k := Slot(g, Lru, tr, e.idx, ws, a);
    var ws' := ws[k := CacheLine(a, true, e.now)];
    AccessTags(g, Lru, tr, e.idx, ws, a, e.now);
    forall x ensures x in Tags(ws') <==> Kept(g, tr, log, s, x) {
      MembersStep(g, tr, log, ws, x);
    }
    NothingLostYet(g, tr, log, ws);
    StampsStep(g, tr, log, ws, k);
  }

  lemma OpenAfter(g: Geometry, tr: seq<MemAccess>, log: seq<Event>, tag: nat)
    requires g.Ok() && LogOk(tr, log) && log != []
    ensures var a := tr[log[|log| - 1].idx].addr; var s := g.Index(a);
      tag != g.Tag(a) ==> After(g, tr, log, s, tag) == After(g, tr, log[..|log| - 1], s, tag) + {g.Tag(a)}
  {}

  lemma StampsPair(g: Geometry, tr: seq<MemAccess>, log: seq<Event>, ws: seq<CacheLine>, k: nat, i: nat, j: nat)
    requires g.Ok() && LogOk(tr, log) && log != [] && Stamped(log) && k < |ws|
    requires var a := tr[log[|log| - 1].idx].addr; Agrees(g, tr, log[..|log| - 1], g.Index(a), ws)
    requires NotAhead(log[..|log| - 1], ws) && i < |ws| && j < |ws| && i != j
    requires var a := tr[log[|log| - 1].idx].addr; var ws' := ws[k := CacheLine(g.Tag(a), true, log[|log| - 1].now)];
      ws'[i].valid && ws'[j].valid && (i != k ==> ws'[i].tag != g.Tag(a))
    ensures var a := tr[log[|log| - 1].idx].addr; var ws' := ws[k := CacheLine(g.Tag(a), true, log[|log| - 1].now)];
      && ws'[i].lastUsed != ws'[j].lastUsed
      && (ws'[i].lastUsed < ws'[j].lastUsed ==> ws'[j].tag in After(g, tr, log, g.Index(a), ws'[i].tag))
  {
    var n := |log| - 1;
    if n > 0 { assert log[n - 1].now < log[n].now; }
    if i != k {
      OpenAfter(g, tr, log, ws[i].tag);
      if j != k && ws[i].lastUsed < ws[j].lastUsed {
        var s := g.Index(tr[log[n].idx].addr);
        assert ws[j].tag in After(g, tr, log[..n], s, ws[i].tag);
      }
    } else {
      assert ws[j].lastUsed <= log[..n][n - 1].now;
    }
  }

  lemma StampsStep(g: Geometry, tr: seq<MemAccess>, log: seq<Event>, ws: seq<CacheLine>, k: nat)
    requires g.Ok() && LogOk(tr, log) && log != [] && Stamped(log) && k < |ws|
    requires var a := tr[log[|log| - 1].idx].addr;
      Agrees(g, tr, log[..|log| - 1], g.Index(a), ws)
        && Distinct(ws[k := CacheLine(g.Tag(a), true, log[|log| - 1].now)])
    requires NotAhead(log[..|log| - 1], ws)
    ensures var e := log[|log| - 1]; var a := tr[e.idx].addr;
      var ws' := ws[k := CacheLine(g.Tag(a), true, e.now)];
      forall i, j :: 0 <= i < |ws'| && 0 <= j < |ws'| && i != j && ws'[i].valid && ws'[j].valid ==>
          && ws'[i].lastUsed != ws'[j].lastUsed
          && (ws'[i].lastUsed < ws'[j].lastUsed ==> ws'[j].tag in After(g, tr, log, g.Index(a), ws'[i].tag))
    ensures forall i :: 0 <= i < |ws| && ws[i].valid ==> ws[i].lastUsed < log[|log| - 1].now
  {
    var n := |log| - 1;
    if n > 0 { assert log[n - 1].now < log[n].now; }
    var s := g.Index(tr[log[n].idx].addr);
    var ws' := ws[k := CacheLine(g.Tag(tr[log[n].idx].addr), true, log[n].now)];
    forall i, j | 0 <= i < |ws'| && 0 <= j < |ws'| && i != j && ws'[i].valid && ws'[j].valid
      ensures ws'[i].lastUsed != ws'[j].lastUsed
      ensures ws'[i].lastUsed < ws'[j].lastUsed ==> ws'[j].tag in After(g, tr, log, s, ws'[i].tag)
    {
      if i != k { DistinctPair(ws', i, k); }
      StampsPair(g, tr, log, ws, k, i, j);
    }
  }

  lemma DistinctPair(ws: seq<CacheLine>, i: nat, j: nat)
    requires Distinct(ws) && i < |ws| && j < |ws| && i != j && ws[i].valid && ws[j].valid
    ensures ws[i].tag != ws[j].tag
  {
    if i > j { assert ws[j].tag != ws[i].tag; }
  }

  lemma {:induction false} ReplayAgrees(g: Geometry, tr: seq<MemAccess>, log: seq<Event>, s: nat)
    requires g.Ok() && LogOk(tr, log) && Stamped(log) && s < g.numSets
    ensures Agrees(g, tr, log, s, Replay(g, Lru, tr, log).sets[s]) && NotAhead(log, Replay(g, Lru, tr, log).sets[s])
    decreases |log|
  {
    if log == [] {
      assert Tags(Replay(g, Lru, tr, log).sets[s]) == {};
    } else {
      var n := |log| - 1;
      ReplayAgrees(g, tr, log[..n], s);
      NeverTwice(g, Lru, tr, log[..n]);
      var l := Replay(g, Lru, tr, log[..n]);
      if g.Index(tr[log[n].idx].addr) == s {
        AgreesStep(g, tr, log, l.sets[s]);
      } else {
        AgreesElsewhere(g, tr, log, s, l.sets[s]);
      }
    }
  }

  // ---- the theorems ----

  /** Do the `j`-th and the `k`-th access touch the same line? */
  predicate SameLine(g: Geometry, tr: seq<MemAccess>, log: seq<Event>, j: nat, k: nat)
    requires g.Ok() && LogOk(tr, log) && j < |log| && k < |log|
  {
    g.LineNumber(tr[log[j].idx].addr) == g.LineNumber(tr[log[k].idx].addr)
  }

  /** The tags of set `s` touched at the positions from `from` up to `to`. */
  ghost function Between(g: Geometry, tr: seq<MemAccess>, log: seq<Event>, s: nat, from: nat, to: nat): set<nat>
    requires g.Ok() && LogOk(tr, log) && to <= |log|
  {
    set m | from <= m < to && g.Index(tr[log[m].idx].addr) == s :: g.Tag(tr[log[m].idx].addr)
  }

  /** `j` is the latest access before `k` to the `k`-th access's line. */
  predicate PreviousTouch(g: Geometry, tr: seq<MemAccess>, log: seq<Event>, j: nat, k: nat)
    requires g.Ok() && LogOk(tr, log) && k < |log|
  {
    && j < k && SameLine(g, tr, log, j, k)
    && forall m :: j < m < k ==> !SameLine(g, tr, log, m, k)
  }

  lemma {:induction false} AfterIsBetween(g: Geometry, tr: seq<MemAccess>, log: seq<Event>, s: nat, x: nat, j: nat,
      n: nat)
    requires g.Ok() && LogOk(tr, log) && j < n <= |log|
    requires g.Index(tr[log[j].idx].addr) == s && g.Tag(tr[log[j].idx].addr) == x
    requires forall m :: j < m < n ==> !(g.Index(tr[log[m].idx].addr) == s && g.Tag(tr[log[m].idx].addr) == x)
    ensures After(g, tr, log[..n], s, x) == Between(g, tr, log, s, j + 1, n)
    decreases n
  {
    var init := log[..n];
    assert init[..n - 1] == log[..n - 1];
    if j + 1 < n {
      AfterIsBetween(g, tr, log, s, x, j, n - 1);
      var a := tr[log[n - 1].idx].addr;
      assert Between(g, tr, log, s, j + 1, n) == Between(g, tr, log, s, j + 1, n - 1) +
        if g.Index(a) == s then {g.Tag(a)} else {};
    } else {
      assert Between(g, tr, log, s, j + 1, n) == {};
    }
  }

  lemma {:induction false} SeenHasLast(g: Geometry, tr: seq<MemAccess>, log: seq<Event>, s: nat, x: nat, n: nat)
      returns (j: nat)
    requires g.Ok() && LogOk(tr, log) && n <= |log| && x in Seen(g, tr, log[..n], s)
    ensures j < n && g.Index(tr[log[j].idx].addr) == s && g.Tag(tr[log[j].idx].addr) == x
    ensures forall m :: j < m < n ==> !(g.Index(tr[log[m].idx].addr) == s && g.Tag(tr[log[m].idx].addr) == x)
    decreases n
  {
    assert log[..n][..n - 1] == log[..n - 1];
    var a := tr[log[n - 1].idx].addr;
    if g.Index(a) == s && g.Tag(a) == x {
      j := n - 1;
    } else {
      j := SeenHasLast(g, tr, log, s, x, n - 1);
    }
  }

  lemma {:induction false} TouchedIsSeen(g: Geometry, tr: seq<MemAccess>, log: seq<Event>, j: nat, n: nat)
    requires g.Ok() && LogOk(tr, log) && j < n <= |log|
    ensures var a := tr[log[j].idx].addr; g.Tag(a) in Seen(g, tr, log[..n], g.Index(a))
    decreases n
  {
    assert log[..n][..n - 1] == log[..n - 1];
    if j < n - 1 { TouchedIsSeen(g, tr, log, j, n - 1); }
  }

  lemma StampedPrefix(log: seq<Event>, n: nat)
    requires Stamped(log) && n <= |log|
    ensures Stamped(log[..n])
  {}

  /** The access hits exactly when its line was accessed before and fewer than `ways`
      other lines of its set have been accessed since. */
  ghost predicate ExactAt(g: Geometry, tr: seq<MemAccess>, log: seq<Event>, k: nat)
    requires g.Ok() && LogOk(tr, log) && k < |log|
  {
    HitAt(g, Lru, tr, log, k) <==>
      exists j :: 0 <= j < k && PreviousTouch(g, tr, log, j, k)
                  && |Between(g, tr, log, g.Index(tr[log[k].idx].addr), j + 1, k)| < g.ways
  }

  /** Exact LRU, while stamps grow. The two accesses before the `k`-th may be out of
      order: no eviction has looked at their stamps yet. */
  lemma {:induction false} ExactLru(g: Geometry, tr: seq<MemAccess>, log: seq<Event>, k: nat)
    requires g.Ok() && LogOk(tr, log) && k < |log| && (k > 0 ==> Stamped(log[..k - 1]))
    ensures ExactAt(g, tr, log, k)
  {
    if k == 0 {
      assert log[..0] == [];
      assert !HitAt(g, Lru, tr, log, 0);
    } else {
      var a := tr[log[k].idx].addr;
      var before := log[..k];
      assert before[..k - 1] == log[..k - 1];
      ReplayAgrees(g, tr, log[..k - 1], g.Index(tr[log[k - 1].idx].addr));
      ReplayAgrees(g, tr, log[..k - 1], g.Index(a));
      MembersAfter(g, tr, before, g.Index(a));
      ExactFromMembers(g, tr, log, k);
    }
  }

  /** One access beyond a log that agrees leaves the right tags resident. */
  lemma MembersAfter(g: Geometry, tr: seq<MemAccess>, log: seq<Event>, s: nat)
    requires g.Ok() && LogOk(tr, log) && log != [] && s < g.numSets
    requires Agrees(g, tr, log[..|log| - 1], s, Replay(g, Lru, tr, log[..|log| - 1]).sets[s])
    ensures forall x :: x in Tags(Replay(g, Lru, tr, log).sets[s]) <==> Kept(g, tr, log, s, x)
  {
    var n := |log| - 1;
    var l := Replay(g, Lru, tr, log[..n]);
    NeverTwice(g, Lru, tr, log[..n]);
    if g.Index(tr[log[n].idx].addr) == s {
      forall x ensures x in Tags(Replay(g, Lru, tr, log).sets[s]) <==> Kept(g, tr, log, s, x) {
        MembersStep(g, tr, log, l.sets[s], x);
      }
    } else {
      AgreesElsewhere(g, tr, log, s, l.sets[s]);
    }
  }

  /** If the right tags are resident, the next access hits or misses as it should. */
  lemma ExactFromMembers(g: Geometry, tr: seq<MemAccess>, log: seq<Event>, k: nat)
    requires g.Ok() && LogOk(tr, log) && k < |log|
    requires var s := g.Index(tr[log[k].idx].addr);
      forall x :: x in Tags(Replay(g, Lru, tr, log[..k]).sets[s]) <==> Kept(g, tr, log[..k], s, x)
    ensures ExactAt(g, tr, log, k)
  {
    hide Geometry.Index, Geometry.Tag, Replay, Seen, Between;
    var a := tr[log[k].idx].addr;
    var s, x := g.Index(a), g.Tag(a);
    forall m | 0 <= m < k
      ensures SameLine(g, tr, log, m, k) <==> g.Index(tr[log[m].idx].addr) == s && g.Tag(tr[log[m].idx].addr) == x
    {
      IndexTagIdentifyLine(g, tr[log[m].idx].addr, a);
    }
    if x in Seen(g, tr, log[..k], s) {
      var j := SeenHasLast(g, tr, log, s, x, k);
      AfterIsBetween(g, tr, log, s, x, j, k);
      assert PreviousTouch(g, tr, log, j, k);
    }
    if j :| 0 <= j < k && PreviousTouch(g, tr, log, j, k) && |Between(g, tr, log, s, j + 1, k)| < g.ways {
      TouchedIsSeen(g, tr, log, j, k);
      AfterIsBetween(g, tr, log, s, x, j, k);
    }
  }

  /** Two logs of the same accesses, whatever the timer showed. */
  predicate SameAccesses(log: seq<Event>, log': seq<Event>) {
    |log| == |log'| && forall k :: 0 <= k < |log| ==> log[k].idx == log'[k].idx
  }

  lemma {:induction false} HistoryIgnoresWays(g: Geometry, g': Geometry, tr: seq<MemAccess>, log: seq<Event>,
      log': seq<Event>, s: nat, x: nat)
    requires g.Ok() && g'.Ok() && g'.lineSize == g.lineSize && g'.numSets == g.numSets
    requires LogOk(tr, log) && LogOk(tr, log') && SameAccesses(log, log')
    ensures Seen(g, tr, log, s) == Seen(g', tr, log', s) && After(g, tr, log, s, x) == After(g', tr, log', s, x)
    decreases |log|
  {
    if log != [] {
      var n := |log| - 1;
      assert SameAccesses(log[..n], log'[..n]);
      HistoryIgnoresWays(g, g', tr, log[..n], log'[..n], s, x);
    }
  }

  /** LRU inclusion: with the same lines and sets, a cache of more ways holds all
      that one of fewer ways holds, after any sequence of accesses. */
  lemma {:induction false} Inclusion(g: Geometry, g': Geometry, tr: seq<MemAccess>, log: seq<Event>,
      log': seq<Event>, s: nat)
    requires g.Ok() && g'.Ok() && g'.lineSize == g.lineSize && g'.numSets == g.numSets && g.ways <= g'.ways
    requires LogOk(tr, log) && LogOk(tr, log') && SameAccesses(log, log') && Stamped(log) && Stamped(log')
    requires s < g.numSets
    ensures Tags(Replay(g, Lru, tr, log).sets[s]) <= Tags(Replay(g', Lru, tr, log').sets[s])
  {
    ReplayAgrees(g, tr, log, s);
    ReplayAgrees(g', tr, log', s);
    forall x | x in Tags(Replay(g, Lru, tr, log).sets[s]) ensures x in Tags(Replay(g', Lru, tr, log').sets[s]) {
      HistoryIgnoresWays(g, g', tr, log, log', s, x);
    }
  }

  lemma InclusionAt(g: Geometry, g': Geometry, tr: seq<MemAccess>, log: seq<Event>, log': seq<Event>, n: nat, s: nat)
    requires g.Ok() && g'.Ok() && g'.lineSize == g.lineSize && g'.numSets == g.numSets && g.ways <= g'.ways
    requires LogOk(tr, log) && LogOk(tr, log') && SameAccesses(log, log') && Stamped(log) && Stamped(log')
    requires s < g.numSets && n <= |log|
    ensures Tags(Replay(g, Lru, tr, log[..n]).sets[s]) <= Tags(Replay(g', Lru, tr, log'[..n]).sets[s])
  {
    StampedPrefix(log, n);
    StampedPrefix(log', n);
    Inclusion(g, g', tr, log[..n], log'[..n], s);
  }

  /** So hits never drop as ways are added, after every prefix of the accesses. */
  lemma {:induction false} MoreWaysMoreHits(g: Geometry, g': Geometry, tr: seq<MemAccess>, log: seq<Event>,
      log': seq<Event>, n: nat)
    requires g.Ok() && g'.Ok() && g'.lineSize == g.lineSize && g'.numSets == g.numSets && g.ways <= g'.ways
    requires LogOk(tr, log) && LogOk(tr, log') && SameAccesses(log, log') && Stamped(log) && Stamped(log')
    requires n <= |log|
    ensures HitCount(g, Lru, tr, log, n) <= HitCount(g', Lru, tr, log', n)
  {
    if n > 0 {
      MoreWaysMoreHits(g, g', tr, log, log', n - 1);
      InclusionAt(g, g', tr, log, log', n - 1, g.Index(tr[log[n - 1].idx].addr));
    }
  }
}
