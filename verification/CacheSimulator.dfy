/** The cache simulator itself: levels with way arrays updated in place, one timer
    shared by all levels, and the loop that drives a trace through them. */
module CacheSimulator {
  import opened Bits
  import opened Uapi
  import opened CacheSets
  import opened CacheConfig
  import opened CacheHierarchy

  const UINT32_MAX: nat := TWO32 - 1
  const SIZE_MAX: nat := TWO64 - 1

  /** The ways of one set. */
  ghost function Row(a: array2<CacheLine>, s: nat): (ws: seq<CacheLine>)
    requires s < a.Length0
    reads a
    ensures |ws| == a.Length1 && forall w :: 0 <= w < |ws| ==> ws[w] == a[s, w]
  {
    seq(a.Length1, w requires 0 <= w < a.Length1 reads a => a[s, w])
  }

  /** The ways of all sets. */
  ghost function Table(a: array2<CacheLine>): (t: seq<seq<CacheLine>>)
    reads a
    ensures |t| == a.Length0 && forall s :: 0 <= s < |t| ==> t[s] == Row(a, s)
  {
    seq(a.Length0, s requires 0 <= s < a.Length0 reads a => Row(a, s))
  }

  class CacheLevel {
    const associativity: nat
    const lineSize: nat
    const numSets: nat
    /** The way arrays of all sets, by set and way. */
    const lines: array2<CacheLine>
    var hits: nat
    var misses: nat

    ghost function Geo(): Geometry {
      Geometry(lineSize, numSets, associativity)
    }

    ghost predicate Valid()
      reads lines
    {
      && Geo().Ok()
      && (exists ob: nat :: lineSize == Pow2(ob)) && (exists ib: nat :: numSets == Pow2(ib))
      && lines.Length0 == numSets && lines.Length1 == associativity
      && (forall s, w :: 0 <= s < numSets && 0 <= w < associativity ==> lines[s, w].lastUsed < TWO32)
    }

    ghost function View(): (l: Level)
      requires Valid()
      reads this, lines
      ensures Shape(Geo(), l)
    {
      Level(Table(lines), hits, misses)
    }

    /** `cache_init` for an accepted configuration. */
    constructor (c: Config, lvl: nat)
      requires Accepts(c) && 1 <= lvl <= c.numLvls
      ensures Valid() && Geo() == LevelGeometry(c, lvl) && View() == Empty(Geo())
      ensures fresh(lines)
    {
      ghost var ob, ib := AcceptedGeometry(c, lvl);
      var n := c.lvlSize[lvl - 1] / (c.lineSize * c.assoc[lvl - 1]);
      associativity, lineSize, numSets := c.assoc[lvl - 1], c.lineSize, n;
      hits, misses := 0, 0;
      lines := new CacheLine[n, c.assoc[lvl - 1]]((_, _) => CacheLine(0, false, 0));
      new;
      assert forall s :: 0 <= s < numSets ==> Row(lines, s) == Empty(Geo()).sets[s];
    }

    /** Overwrite one way of one set. */
    method StoreLine(index: nat, way: nat, line: CacheLine)
      requires Valid() && index < numSets && way < associativity && line.lastUsed < TWO32
      modifies lines
      ensures Valid() && Table(lines) == old(Table(lines))[index := old(Row(lines, index))[way := line]]
    {
      ghost var before := Table(lines);
      lines[index, way] := line;
      assert Row(lines, index) == before[index][way := line];
      assert forall s :: 0 <= s < numSets && s != index ==> Row(lines, s) == before[s];
    }

    method CountHit()
      requires Valid()
      modifies this`hits
      ensures Valid() && View() == old(View()).(hits := (old(hits) + 1) % TWO64)
    {
      hits := (hits + 1) % TWO64;
    }

    method CountMiss()
      requires Valid()
      modifies this`misses
      ensures Valid() && View() == old(View()).(misses := (old(misses) + 1) % TWO64)
    {
      misses := (misses + 1) % TWO64;
    }

    /** The hit check of `cache_access`. */
    method FindHit(index: nat, tag: nat) returns (i: nat)
      requires Valid() && index < numSets
      ensures i == FirstHit(Row(lines, index), tag)
    {
      i := 0;
      while i < associativity
        invariant i <= associativity
        invariant forall k :: 0 <= k < i ==> !(lines[index, k].valid && lines[index, k].tag == tag)
      {
        if lines[index, i].valid && lines[index, i].tag == tag { break; }
        i := i + 1;
      }
      FirstHitIs(Row(lines, index), tag, i);
    }

    /** Its search for an empty slot. */
    method FindEmpty(index: nat) returns (i: nat)
      requires Valid() && index < numSets
      ensures i == FirstEmpty(Row(lines, index))
    {
      i := 0;
      while i < associativity
        invariant i <= associativity
        invariant forall k :: 0 <= k < i ==> lines[index, k].valid
      {
        if !lines[index, i].valid { break; }
        i := i + 1;
      }
      FirstEmptyIs(Row(lines, index), i);
    }

    /** Index and tag of an address, by the shifts and masks of `cache_access`. */
    method Locate(address: nat) returns (index: nat, tag: nat)
      requires Valid()
      ensures index == Geo().Index(address) < numSets && tag == Geo().Tag(address)
    {
      var offsetBits := FastLog2(lineSize);
      var indexBits := FastLog2(numSets);
      index := And(Shr(address, offsetBits), numSets - 1);
      tag := Shr(address, offsetBits + indexBits);
      ShiftsComputeIndexAndTag(Geo(), offsetBits, indexBits, address);
    }
  }

  ghost function NextUses(g: Geometry, tr: seq<MemAccess>, from: nat, ws: seq<CacheLine>): (u: seq<nat>)
    requires g.Ok() && from <= |tr|
    ensures |u| == |ws| && forall i :: 0 <= i < |ws| ==> u[i] == NextUse(g, tr, from, ws[i].tag) <= |tr|
  {
    seq(|ws|, i requires 0 <= i < |ws| => NextUse(g, tr, from, ws[i].tag))
  }

  /** `OptVictim` is the only way its description fits. */
  lemma OptVictimUnique(g: Geometry, tr: seq<MemAccess>, from: nat, ws: seq<CacheLine>, u: seq<nat>, v: nat)
    requires g.Ok() && from <= |tr| && v < |ws| && u == NextUses(g, tr, from, ws)
    requires (forall i :: 0 <= i < |ws| ==> u[i] <= u[v]) && (forall i :: 0 <= i < v ==> u[i] < u[v])
    ensures v == OptVictim(g, tr, from, ws)
  {
    var v' := OptVictim(g, tr, from, ws);
    assert u[v] == u[v'];
  }

  lemma FirstHitIs(ws: seq<CacheLine>, tag: nat, i: nat)
    requires i <= |ws| && (forall j :: 0 <= j < i ==> !(ws[j].valid && ws[j].tag == tag))
    requires i < |ws| ==> ws[i].valid && ws[i].tag == tag
    ensures FirstHit(ws, tag) == i
  {}

  lemma FirstEmptyIs(ws: seq<CacheLine>, i: nat)
    requires i <= |ws| && (forall j :: 0 <= j < i ==> ws[j].valid)
    requires i < |ws| ==> !ws[i].valid
    ensures FirstEmpty(ws) == i
  {}

  /** An access is its count followed by the store into its slot. */
  lemma AccessAssembled(g: Geometry, p: Policy, tr: seq<MemAccess>, l: Level, e: Event, counted: Level, l': Level)
    requires g.Ok() && Shape(g, l) && e.idx < |tr|
    requires var s, tag := g.Index(tr[e.idx].addr), g.Tag(tr[e.idx].addr);
      var hit := FirstHit(l.sets[s], tag) < g.ways;
      && counted == Level(l.sets, if hit then (l.hits + 1) % TWO64 else l.hits,
           if hit then l.misses else (l.misses + 1) % TWO64)
      && var slot := Slot(g, p, tr, e.idx, l.sets[s], tag);
         l' == counted.(sets := l.sets[s := l.sets[s][slot := CacheLine(tag, true, e.now)]])
    ensures l' == Access(g, p, tr, l, e)
  {}

  class Simulator {
    var globalTimer: nat
    const policy: Policy

    constructor (policy: Policy)
      ensures globalTimer == 0 && this.policy == policy
    {
      globalTimer := 0;
      this.policy := policy;
    }

    /** The search of `find_optimal_victim` for one tag's next use, SIZE_MAX if none. */
    method FindNextUse(cache: CacheLevel, tag: nat, traces: seq<MemAccess>, currentIdx: nat) returns (nextUse: nat)
      requires cache.Valid() && currentIdx < |traces| < SIZE_MAX
      ensures var j := NextUse(cache.Geo(), traces, currentIdx + 1, tag);
        nextUse == if j == |traces| then SIZE_MAX else j
    {
      nextUse := SIZE_MAX;
      var j := currentIdx + 1;
      while j < |traces|
        invariant currentIdx < j <= |traces|
        invariant forall k :: currentIdx < k < j ==> cache.Geo().Tag(traces[k].addr) != tag
      {
        var _, futureTag := cache.Locate(traces[j].addr);
        if futureTag == tag {
          return j;
        }
        j := j + 1;
      }
    }

    /** `find_optimal_victim`: the way whose tag is used again last. */
    method FindOptimalVictim(cache: CacheLevel, index: nat, traces: seq<MemAccess>, currentIdx: nat)
      returns (victimIdx: nat)
      requires cache.Valid() && index < cache.numSets && currentIdx < |traces| < SIZE_MAX
      ensures victimIdx == OptVictim(cache.Geo(), traces, currentIdx + 1, Row(cache.lines, index))
    {
      hide NextUse, OptVictim;
      ghost var ws := Row(cache.lines, index);
      ghost var uses := NextUses(cache.Geo(), traces, currentIdx + 1, ws);
      victimIdx := 0;
      var furthestAppearance := 0;
      var i := 0;
      while i < cache.associativity
        invariant i <= cache.associativity == |uses|
        invariant i == 0 ==> victimIdx == 0 && furthestAppearance == 0
        invariant i > 0 ==> victimIdx < i && furthestAppearance == uses[victimIdx] < |traces|
        invariant forall k :: 0 <= k < i ==> uses[k] <= furthestAppearance
        invariant forall k :: 0 <= k < victimIdx ==> uses[k] < furthestAppearance
      {
        assert cache.lines[index, i] == ws[i];
        var nextUse := FindNextUse(cache, cache.lines[index, i].tag, traces, currentIdx);
        assert nextUse == if uses[i] == |traces| then SIZE_MAX else uses[i];
        if nextUse == SIZE_MAX {
          victimIdx := i;
          break;
        }
        if nextUse > furthestAppearance {
          furthestAppearance := nextUse;
          victimIdx := i;
        }
        i := i + 1;
      }
      OptVictimUnique(cache.Geo(), traces, currentIdx + 1, ws, uses, victimIdx);
    }

    /** The least-recently-used scan of `cache_access`. */
    method FindLruVictim(cache: CacheLevel, index: nat) returns (victimIdx: nat)
      requires cache.Valid() && index < cache.numSets
      ensures victimIdx == LruVictim(Row(cache.lines, index))
    {
      ghost var ws := Row(cache.lines, index);
      victimIdx := 0;
      var minTime := UINT32_MAX;
      var i := 0;
      while i < cache.associativity
        invariant i <= cache.associativity
        invariant i == 0 ==> victimIdx == 0 && minTime == UINT32_MAX
        invariant i > 0 ==> victimIdx == LruVictim(ws[..i]) && minTime == ws[victimIdx].lastUsed
      {
        assert ws[..i + 1][..i] == ws[..i];
        if cache.lines[index, i].lastUsed < minTime {
          minTime := cache.lines[index, i].lastUsed;
          victimIdx := i;
        }
        i := i + 1;
      }
      assert ws[..i] == ws;
    }

    method ChooseVictim(cache: CacheLevel, index: nat, traces: seq<MemAccess>, currentIdx: nat) returns (victimIdx: nat)
      requires cache.Valid() && index < cache.numSets && currentIdx < |traces| < SIZE_MAX
      ensures victimIdx == Victim(cache.Geo(), policy, traces, currentIdx, Row(cache.lines, index))
    {
      if policy == Lru {
        victimIdx := FindLruVictim(cache, index);
      } else {
        victimIdx := FindOptimalVictim(cache, index, traces, currentIdx);
      }
    }

    /** The way the access goes to, counted as a hit or a miss. */
    method FindSlot(cache: CacheLevel, index: nat, tag: nat, traces: seq<MemAccess>, currentIdx: nat) returns (i: nat)
      requires cache.Valid() && index < cache.numSets && currentIdx < |traces| < SIZE_MAX
      modifies cache`hits, cache`misses
      ensures cache.Valid()
      ensures var l := old(cache.View()); var hit := FirstHit(l.sets[index], tag) < cache.associativity;
        && i == Slot(cache.Geo(), policy, traces, currentIdx, l.sets[index], tag)
        && cache.View() == Level(l.sets, if hit then (l.hits + 1) % TWO64 else l.hits,
             if hit then l.misses else (l.misses + 1) % TWO64)
    {
      i := cache.FindHit(index, tag);
      if i < cache.associativity {
        cache.CountHit();
        return;
      }
      cache.CountMiss();
      i := cache.FindEmpty(index);
      if i == cache.associativity {
        i := ChooseVictim(cache, index, traces, currentIdx);
      }
    }

    /** `cache_access`: on a hit only the stamp changes, since the tag is the same. */
    method CacheAccess(cache: CacheLevel, traces: seq<MemAccess>, currentIdx: nat)
      requires cache.Valid() && currentIdx < |traces| < SIZE_MAX
      modifies this`globalTimer, cache`hits, cache`misses, cache.lines
      ensures globalTimer == (old(globalTimer) + 1) % TWO32
      ensures cache.Valid()
      ensures cache.View() == Access(cache.Geo(), policy, traces, old(cache.View()), Event(currentIdx, globalTimer))
    {
      ghost var l := cache.View();
      globalTimer := (globalTimer + 1) % TWO32;
      var index, tag := cache.Locate(traces[currentIdx].addr);
      var i := FindSlot(cache, index, tag, traces, currentIdx);
      ghost var counted := cache.View();
      cache.StoreLine(index, i, CacheLine(tag, true, globalTimer));
      AccessAssembled(cache.Geo(), policy, traces, l, Event(currentIdx, globalTimer), counted, cache.View());
    }

    /** Levels that share no arrays. */
    ghost predicate Apart(levels: seq<CacheLevel>)
      reads set l | l in levels :: l.lines
    {
      && (forall i :: 0 <= i < |levels| ==> levels[i].Valid())
      && (forall i, j :: 0 <= i < |levels| && 0 <= j < |levels| && i != j ==>
            levels[i] != levels[j] && levels[i].lines != levels[j].lines)
    }

    ghost function Geos(levels: seq<CacheLevel>): (gs: seq<Geometry>)
      ensures |gs| == |levels| && forall i :: 0 <= i < |levels| ==> gs[i] == levels[i].Geo()
    {
      seq(|levels|, i requires 0 <= i < |levels| => levels[i].Geo())
    }

    ghost function Views(levels: seq<CacheLevel>): (vs: seq<Level>)
      requires Apart(levels)
      reads levels, set l | l in levels :: l.lines
      ensures |vs| == |levels| && forall i :: 0 <= i < |levels| ==> vs[i] == levels[i].View()
    {
      ViewsUpTo(levels, |levels|)
    }

    ghost function ViewsUpTo(levels: seq<CacheLevel>, n: nat): (vs: seq<Level>)
      requires Apart(levels) && n <= |levels|
      reads levels, set l | l in levels :: l.lines
      ensures |vs| == n && forall i :: 0 <= i < n ==> vs[i] == levels[i].View()
    {
      if n == 0 then [] else ViewsUpTo(levels, n - 1) + [levels[n - 1].View()]
    }

    /** The simulator's state as a value. */
    ghost function State(levels: seq<CacheLevel>): SimState
      requires Apart(levels)
      reads this, levels, set l | l in levels :: l.lines
    {
      SimState(Views(levels), globalTimer)
    }

    /** `CacheAccess` to one of several levels. */
    method AccessLevel(levels: seq<CacheLevel>, k: nat, traces: seq<MemAccess>, i: nat)
      requires k < |levels| && Apart(levels) && i < |traces| < SIZE_MAX
      modifies this`globalTimer, levels[k], levels[k].lines
      ensures Apart(levels) && globalTimer == (old(globalTimer) + 1) % TWO32
      ensures Views(levels) == old(Views(levels))[k :=
        Access(levels[k].Geo(), policy, traces, old(levels[k].View()), Event(i, globalTimer))]
    {
      CacheAccess(levels[k], traces, i);
    }

    /** The same on the simulator's state, with the driver loop's comparison of the hit
        counter with the 32-bit copy made before. */
    method TouchLevel(levels: seq<CacheLevel>, k: nat, traces: seq<MemAccess>, i: nat) returns (missed: bool)
      requires k < |levels| && Apart(levels) && i < |traces| < SIZE_MAX
      modifies this`globalTimer, levels[k], levels[k].lines
      ensures Apart(levels) && StateOk(Geos(levels), old(State(levels)))
      ensures State(levels) == Touch(Geos(levels), policy, traces, old(State(levels)), i, k)
      ensures missed <==> State(levels).levels[k].hits == old(State(levels)).levels[k].hits % TWO32
    {
      var hitsBefore := levels[k].hits % TWO32;
      AccessLevel(levels, k, traces, i);
      missed := levels[k].hits == hitsBefore;
    }

    /** The nested tests of the loop body: a level serves the entry and, if it seems
        to have missed, so do the levels below. */
    method Offer(levels: seq<CacheLevel>, k: nat, traces: seq<MemAccess>, i: nat)
      requires k < |levels| && Apart(levels) && i < |traces| < SIZE_MAX
      modifies this`globalTimer, levels, set l | l in levels :: l.lines
      decreases |levels| - k
      ensures Apart(levels) && StateOk(Geos(levels), old(State(levels)))
      ensures State(levels) == OfferTo(Geos(levels), policy, traces, old(State(levels)), i, k)
    {
      hide OfferTo, Touch;
      ghost var gs, st := Geos(levels), State(levels);
      var missed := TouchLevel(levels, k, traces, i);
      ghost var st' := State(levels);
      OfferUnfold(gs, policy, traces, st, st', i, k);
      if k + 1 < |levels| && missed {
        Offer(levels, k + 1, traces, i);
        assert State(levels) == OfferTo(gs, policy, traces, st', i, k + 1);
      }
    }

    /** The first levels of a configuration, initialised. */
    ghost predicate Ready(c: Config, levels: seq<CacheLevel>)
      requires Accepts(c)
      reads levels, set l | l in levels :: l.lines
    {
      && |levels| <= c.numLvls && Apart(levels)
      && forall l :: 0 <= l < |levels| ==>
           levels[l].Geo() == LevelGeometry(c, l + 1) && levels[l].View() == Empty(levels[l].Geo())
    }

    method AddLevel(c: Config, levels: seq<CacheLevel>) returns (level: CacheLevel)
      requires Accepts(c) && Ready(c, levels) && |levels| < c.numLvls
      ensures Ready(c, levels + [level]) && fresh(level) && fresh(level.lines)
    {
      hide Accepts, LevelGeometry, CacheLevel.Geo, CacheLevel.View, Empty;
      level := new CacheLevel(c, |levels| + 1);
    }

    /** The levels of `run_cache_sim`, initialised. */
    method MakeLevels(c: Config) returns (levels: seq<CacheLevel>)
      requires Accepts(c)
      ensures |levels| == c.numLvls && Apart(levels) && AllOk(Geos(levels))
      ensures Views(levels) == Empties(Geos(levels))
      ensures forall l :: 0 <= l < |levels| ==>
        fresh(levels[l]) && fresh(levels[l].lines) && levels[l].Geo() == LevelGeometry(c, l + 1)
    {
      levels := [];
      while |levels| < c.numLvls
        invariant Ready(c, levels)
        invariant forall l :: 0 <= l < |levels| ==> fresh(levels[l]) && fresh(levels[l].lines)
      {
        var level := AddLevel(c, levels);
        levels := levels + [level];
      }
      assert Views(levels) == Empties(Geos(levels));
    }

    /** `run_cache_sim`: set up the levels, then drive the whole trace through them. */
    method RunCacheSim(c: Config, traces: seq<MemAccess>) returns (levels: seq<CacheLevel>, ramVisits: nat)
      requires Accepts(c) && c.policy == policy && |traces| < SIZE_MAX && globalTimer == 0
      modifies this`globalTimer
      ensures |levels| == c.numLvls && Apart(levels) && AllOk(Geos(levels))
      ensures forall l :: 0 <= l < |levels| ==> levels[l].Geo() == LevelGeometry(c, l + 1)
      ensures State(levels) == Simulate(Geos(levels), policy, traces, |traces|)
      ensures ramVisits == levels[|levels| - 1].misses
    {
      levels := MakeLevels(c);
      var i := 0;
      while i < |traces|
        invariant i <= |traces| && Apart(levels)
        invariant State(levels) == Simulate(Geos(levels), policy, traces, i)
      {
        Offer(levels, 0, traces, i);
        i := i + 1;
      }
      ramVisits := levels[|levels| - 1].misses;
    }
  }
}
