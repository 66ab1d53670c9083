/** One level of the cache as a value: geometry, way arrays, and the effect of
    one access (`cache_access` of cache_simulator.c). */
module CacheSets {
  import opened Bits
  import opened Uapi

  datatype Policy = Lru | Optimal

  datatype Geometry = Geometry(lineSize: nat, numSets: nat, ways: nat) {
    predicate Ok() {
      lineSize > 0 && numSets > 0 && ways > 0
    }

    function LineNumber(addr: nat): nat requires Ok() { addr / lineSize }

    function Index(addr: nat): nat requires Ok() { LineNumber(addr) % numSets }

    function Tag(addr: nat): nat requires Ok() { LineNumber(addr) / numSets }
  }

  datatype CacheLine = CacheLine(tag: nat, valid: bool, lastUsed: nat)

  /** One access served by a level: which trace entry, and the timer's value. */
  datatype Event = Event(idx: nat, now: nat)

  /** A level's way arrays and its 64-bit counters. */
  datatype Level = Level(sets: seq<seq<CacheLine>>, hits: nat, misses: nat)

  predicate Shape(g: Geometry, l: Level) {
    |l.sets| == g.numSets && forall s :: 0 <= s < |l.sets| ==> |l.sets[s]| == g.ways
  }

  // ---- choosing a way ----

  function FirstHit(ws: seq<CacheLine>, tag: nat, from: nat := 0): (i: nat)
    requires from <= |ws|
    ensures from <= i <= |ws|
    ensures forall j :: from <= j < i ==> !(ws[j].valid && ws[j].tag == tag)
    ensures i < |ws| ==> ws[i].valid && ws[i].tag == tag
    decreases |ws| - from
  {
    if from == |ws| || (ws[from].valid && ws[from].tag == tag) then from
    else FirstHit(ws, tag, from + 1)
  }

  function FirstEmpty(ws: seq<CacheLine>, from: nat := 0): (i: nat)
    requires from <= |ws|
    ensures from <= i <= |ws|
    ensures forall j :: from <= j < i ==> ws[j].valid
    ensures i < |ws| ==> !ws[i].valid
    decreases |ws| - from
  {
    if from == |ws| || !ws[from].valid then from else FirstEmpty(ws, from + 1)
  }

  /** The first way whose stamp is least. */
  function LruVictim(ws: seq<CacheLine>): (v: nat)
    requires |ws| > 0
    ensures v < |ws|
    ensures forall i :: 0 <= i < |ws| ==> ws[v].lastUsed <= ws[i].lastUsed
    ensures forall i :: 0 <= i < v ==> ws[v].lastUsed < ws[i].lastUsed
  {
    var last := |ws| - 1;
    if last == 0 then 0
    else
      var v := LruVictim(ws[..last]);
      if ws[last].lastUsed < ws[v].lastUsed then last else v
  }

  /** The position at or after `from` where `tag` next occurs in the trace, or
      the trace's length. As in the source, the set index is not looked at. */
  function NextUse(g: Geometry, tr: seq<MemAccess>, from: nat, tag: nat): (j: nat)
    requires g.Ok() && from <= |tr|
    ensures from <= j <= |tr|
    ensures forall i :: from <= i < j ==> g.Tag(tr[i].addr) != tag
    ensures j < |tr| ==> g.Tag(tr[j].addr) == tag
    decreases |tr| - from
  {
    if from == |tr| || g.Tag(tr[from].addr) == tag then from
    else NextUse(g, tr, from + 1, tag)
  }

  /** The first way whose tag is used again last (never used counts as last). */
  function OptVictim(g: Geometry, tr: seq<MemAccess>, from: nat, ws: seq<CacheLine>): (v: nat)
    requires g.Ok() && from <= |tr| && |ws| > 0
    ensures v < |ws|
    ensures forall i :: 0 <= i < |ws| ==> NextUse(g, tr, from, ws[i].tag) <= NextUse(g, tr, from, ws[v].tag)
    ensures forall i :: 0 <= i < v ==> NextUse(g, tr, from, ws[i].tag) < NextUse(g, tr, from, ws[v].tag)
  {
    var last := |ws| - 1;
    if last == 0 then 0
    else
      var v := OptVictim(g, tr, from, ws[..last]);
      if NextUse(g, tr, from, ws[v].tag) < NextUse(g, tr, from, ws[last].tag) then last else v
  }

  function Victim(g: Geometry, p: Policy, tr: seq<MemAccess>, idx: nat, ws: seq<CacheLine>): (v: nat)
    requires g.Ok() && idx < |tr| && |ws| > 0
    ensures v < |ws|
  {
    match p
    case Lru => LruVictim(ws)
    case Optimal => OptVictim(g, tr, idx + 1, ws)
  }

  /** The way an access to `tag` ends up in: a hit, an empty way, or a victim. */
  function Slot(g: Geometry, p: Policy, tr: seq<MemAccess>, idx: nat, ws: seq<CacheLine>, tag: nat): (i: nat)
    requires g.Ok() && idx < |tr| && |ws| > 0
    ensures i < |ws|
  {
    if FirstHit(ws, tag) < |ws| then FirstHit(ws, tag)
    else if FirstEmpty(ws) < |ws| then FirstEmpty(ws)
    else Victim(g, p, tr, idx, ws)
  }

  // ---- one access, and a log of accesses ----

  function Access(g: Geometry, p: Policy, tr: seq<MemAccess>, l: Level, e: Event): (l': Level)
    requires g.Ok() && Shape(g, l) && e.idx < |tr|
    ensures Shape(g, l')
  {
    var s, tag := g.Index(tr[e.idx].addr), g.Tag(tr[e.idx].addr);
    var ws := l.sets[s];
    var ws' := ws[Slot(g, p, tr, e.idx, ws, tag) := CacheLine(tag, true, e.now)];
    var hit := FirstHit(ws, tag) < |ws|;
    Level(l.sets[s := ws'],
          if hit then (l.hits + 1) % TWO64 else l.hits,
          if hit then l.misses else (l.misses + 1) % TWO64)
  }

  predicate LogOk(tr: seq<MemAccess>, log: seq<Event>) {
    forall k :: 0 <= k < |log| ==> log[k].idx < |tr|
  }

  function Empty(g: Geometry): (l: Level)
    ensures Shape(g, l)
  {
    Level(seq(g.numSets, _ => seq(g.ways, _ => CacheLine(0, false, 0))), 0, 0)
  }

  /** The level after serving the logged accesses, starting empty. */
  function Replay(g: Geometry, p: Policy, tr: seq<MemAccess>, log: seq<Event>): (l: Level)
    requires g.Ok() && LogOk(tr, log)
    ensures Shape(g, l)
    decreases |log|
  {
    if log == [] then Empty(g)
    else Access(g, p, tr, Replay(g, p, tr, log[..|log| - 1]), log[|log| - 1])
  }

  // ---- what a set holds ----

  /** The tags resident in a set. */
  function Tags(ws: seq<CacheLine>): (t: set<nat>) {
    set i | 0 <= i < |ws| && ws[i].valid :: ws[i].tag
  }

  /** No tag is resident twice. */
  predicate Distinct(ws: seq<CacheLine>) {
    forall i, j :: 0 <= i < j < |ws| && ws[i].valid && ws[j].valid ==> ws[i].tag != ws[j].tag
  }

  /** Does the `k`-th logged access find its line? */
  predicate HitAt(g: Geometry, p: Policy, tr: seq<MemAccess>, log: seq<Event>, k: nat)
    requires g.Ok() && LogOk(tr, log) && k < |log|
  {
    var a := tr[log[k].idx].addr;
    g.Tag(a) in Tags(Replay(g, p, tr, log[..k]).sets[g.Index(a)])
  }

  lemma HitIffResident(ws: seq<CacheLine>, tag: nat)
    ensures FirstHit(ws, tag) < |ws| <==> tag in Tags(ws)
  {
    if tag in Tags(ws) {
      var i :| 0 <= i < |ws| && ws[i].valid && ws[i].tag == tag;
    }
  }

  lemma TagsLast(ws: seq<CacheLine>)
    requires ws != []
    ensures var last := ws[|ws| - 1]; var init := ws[..|ws| - 1];
      Tags(ws) == if last.valid then Tags(init) + {last.tag} else Tags(init)
  {
    var n := |ws| - 1;
    var init := ws[..n];
    forall t | t in Tags(ws) ensures t in Tags(init) || (ws[n].valid && t == ws[n].tag) {
      var i :| 0 <= i < |ws| && ws[i].valid && ws[i].tag == t;
      if i < n { assert init[i] == ws[i]; }
    }
    forall t | t in Tags(init) ensures t in Tags(ws) {
      var i :| 0 <= i < n && init[i].valid && init[i].tag == t;
      assert ws[i] == init[i];
    }
  }

  lemma {:induction false} TagsCardinality(ws: seq<CacheLine>)
    ensures |Tags(ws)| <= |ws|
    ensures Distinct(ws) && (forall i :: 0 <= i < |ws| ==> ws[i].valid) ==> |Tags(ws)| == |ws|
  {
    if ws != [] {
      var n := |ws| - 1;
      TagsCardinality(ws[..n]);
      TagsLast(ws);
      if Distinct(ws) && ws[n].valid {
        forall i | 0 <= i < n && ws[..n][i].valid ensures ws[..n][i].tag != ws[n].tag {
          assert ws[..n][i] == ws[i];
        }
      }
    }
  }

  /** One access to a set, on resident tags: a hit changes nothing, a miss adds
      the tag, and only a miss in a full set removes one, the victim's. */
  lemma {:induction false} AccessTags(g: Geometry, p: Policy, tr: seq<MemAccess>, idx: nat, ws: seq<CacheLine>,
      tag: nat, now: nat)
    requires g.Ok() && idx < |tr| && |ws| > 0 && Distinct(ws)
    ensures var ws' := ws[Slot(g, p, tr, idx, ws, tag) := CacheLine(tag, true, now)];
      && Distinct(ws')
      && Tags(ws') == (if tag in Tags(ws) then Tags(ws)
                       else if FirstEmpty(ws) < |ws| then Tags(ws) + {tag}
                       else Tags(ws) - {ws[Victim(g, p, tr, idx, ws)].tag} + {tag})
  {
    HitIffResident(ws, tag);
    var i := Slot(g, p, tr, idx, ws, tag);
    var ws' := ws[i := CacheLine(tag, true, now)];
    forall t ensures t in Tags(ws') <==>
      t == tag || exists j :: 0 <= j < |ws| && j != i && ws[j].valid && ws[j].tag == t {
      if t in Tags(ws') {
        var j :| 0 <= j < |ws'| && ws'[j].valid && ws'[j].tag == t;
      }
      if j :| 0 <= j < |ws| && j != i && ws[j].valid && ws[j].tag == t {
        assert ws'[j] == ws[j];
      }
      assert ws'[i].tag == tag;
    }
  }

  ghost predicate AllDistinct(l: Level) {
    forall s :: 0 <= s < |l.sets| ==> Distinct(l.sets[s])
  }

  /** No line is ever resident twice, under either policy. */
  lemma {:induction false} NeverTwice(g: Geometry, p: Policy, tr: seq<MemAccess>, log: seq<Event>)
    requires g.Ok() && LogOk(tr, log)
    ensures AllDistinct(Replay(g, p, tr, log))
    decreases |log|
  {
    if log != [] {
      var init, e := log[..|log| - 1], log[|log| - 1];
      NeverTwice(g, p, tr, init);
      var l := Replay(g, p, tr, init);
      var a := tr[e.idx].addr;
      AccessTags(g, p, tr, e.idx, l.sets[g.Index(a)], g.Tag(a), e.now);
    }
  }

  /** Index and tag together identify a line, exactly as the line number does. */
  lemma {:induction false} IndexTagIdentifyLine(g: Geometry, a: nat, b: nat)
    requires g.Ok()
    ensures g.Index(a) == g.Index(b) && g.Tag(a) == g.Tag(b) <==> g.LineNumber(a) == g.LineNumber(b)
  {
    DivMod(g.LineNumber(a), g.numSets);
    DivMod(g.LineNumber(b), g.numSets);
  }

  /** The shifts and masks of the source compute index and tag. */
  lemma {:induction false} ShiftsComputeIndexAndTag(g: Geometry, ob: nat, ib: nat, addr: nat)
    requires g.Ok() && g.lineSize == Pow2(ob) && g.numSets == Pow2(ib)
    ensures And(Shr(addr, ob), g.numSets - 1) == g.Index(addr)
    ensures Shr(addr, ob + ib) == g.Tag(addr)
  {
    ShrIsDivision(addr, ob);
    MaskIsRemainder(addr / g.lineSize, ib);
    ShrIsDivision(addr, ob + ib);
    Pow2Add(ob, ib);
    DivDiv(addr, g.lineSize, g.numSets);
  }

  // ---- the counters ----

  /** How many of the first `n` logged accesses find their line. */
  ghost function HitCount(g: Geometry, p: Policy, tr: seq<MemAccess>, log: seq<Event>, n: nat): (h: nat)
    requires g.Ok() && LogOk(tr, log) && n <= |log|
    ensures h <= n
  {
    if n == 0 then 0
    else HitCount(g, p, tr, log, n - 1) + if HitAt(g, p, tr, log, n - 1) then 1 else 0
  }

  lemma AccessCounts(g: Geometry, p: Policy, tr: seq<MemAccess>, l: Level, e: Event)
    requires g.Ok() && Shape(g, l) && e.idx < |tr| && l.hits < TWO64 - 1 && l.misses < TWO64 - 1
    ensures var a := tr[e.idx].addr; var l' := Access(g, p, tr, l, e);
      if g.Tag(a) in Tags(l.sets[g.Index(a)])
      then l'.hits == l.hits + 1 && l'.misses == l.misses
      else l'.hits == l.hits && l'.misses == l.misses + 1
  {
    var a := tr[e.idx].addr;
    HitIffResident(l.sets[g.Index(a)], g.Tag(a));
  }

  lemma ReplayStep(g: Geometry, p: Policy, tr: seq<MemAccess>, log: seq<Event>, n: nat)
    requires g.Ok() && LogOk(tr, log) && n < |log|
    ensures Replay(g, p, tr, log[..n + 1]) == Access(g, p, tr, Replay(g, p, tr, log[..n]), log[n])
  {
    assert log[..n + 1][..n] == log[..n];
  }

  lemma ReplayNothing(g: Geometry, p: Policy, tr: seq<MemAccess>, log: seq<Event>)
    requires g.Ok() && LogOk(tr, log)
    ensures Replay(g, p, tr, log[..0]) == Empty(g)
  {}

  /** Each access counts once, as a hit or as a miss. */
  lemma {:induction false} Counters(g: Geometry, p: Policy, tr: seq<MemAccess>, log: seq<Event>, n: nat)
    requires g.Ok() && LogOk(tr, log) && n <= |log| < TWO64
    ensures Replay(g, p, tr, log[..n]).hits == HitCount(g, p, tr, log, n)
    ensures Replay(g, p, tr, log[..n]).misses == n - HitCount(g, p, tr, log, n)
  {
    hide Access, Tags, Replay;
    if n == 0 {
      ReplayNothing(g, p, tr, log);
    } else {
      Counters(g, p, tr, log, n - 1);
      ReplayStep(g, p, tr, log, n - 1);
      AccessCounts(g, p, tr, Replay(g, p, tr, log[..n - 1]), log[n - 1]);
    }
  }
}
