/** Exactly which geometries make the furthest-next-use policy optimal on every
    trace: the victim search compares tags only, so with several sets of several
    ways a use of the same tag in another set misleads it. */
module BeladyLimits {
  import opened Bits
  import opened Uapi
  import opened CacheSets
  import opened Belady

  /** On every trace, no replacement history misses less often. */
  ghost predicate AlwaysOptimal(g: Geometry)
    requires g.Ok()
  {
    forall tr: seq<MemAccess>, log: seq<Event>, run: seq<Contents> ::
      FullLog(tr, log) && LegalRun(g, tr, run) ==> NotBeaten(g, tr, log, run)
  }

  ghost predicate NotBeaten(g: Geometry, tr: seq<MemAccess>, log: seq<Event>, run: seq<Contents>)
    requires g.Ok() && FullLog(tr, log) && |run| == |tr| + 1 && Sized(g, run)
  {
    Misses(g, tr, OwnRun(g, Optimal, tr, log), |tr|) <= Misses(g, tr, run, |tr|)
  }

  /** The capacities the simulator accepts are at most 8192 bytes. */
  predicate Accepted(g: Geometry) {
    g.Ok() && g.ways <= 8 && g.lineSize <= 64 && g.numSets <= 512
  }

  // ---- one set, or one way ----

  lemma OneSetSharesNothing(g: Geometry, tr: seq<MemAccess>)
    requires g.Ok() && g.numSets == 1
    ensures TagsUnshared(g, tr)
  {}

  /** With one way per set there is no choice: a rival holds no more than we do. */
  lemma {:induction false} OneWayHoldsAll(g: Geometry, tr: seq<MemAccess>, log: seq<Event>, run: seq<Contents>,
      t: nat, s: nat)
    requires g.Ok() && g.ways == 1 && FullLog(tr, log) && LegalRun(g, tr, run)
    requires t <= |tr| && s < g.numSets
    ensures run[t][s] <= OwnRun(g, Optimal, tr, log)[t][s]
  {
    if t > 0 {
      OneWayHoldsAll(g, tr, log, run, t - 1, s);
      var own := OwnRun(g, Optimal, tr, log);
      OwnRunIsLegal(g, Optimal, tr, log);
      assert LegalAt(g, tr, run, t - 1);
      assert LegalAt(g, tr, own, t - 1);
      OwnFurthestStep(g, tr, log, t - 1);
      var a := g.Tag(tr[t - 1].addr);
      if s == g.Index(tr[t - 1].addr) {
        Singleton(run[t][s], a);
      }
    }
  }

  lemma Singleton<T>(x: set<T>, a: T)
    requires a in x && |x| <= 1
    ensures x == {a}
  {
    WithOrWithout(x, a);
    assert |x - {a}| == 0;
    assert x == {a} + (x - {a});
  }

  lemma {:induction false} MoreHeldFewerMisses(g: Geometry, tr: seq<MemAccess>, a: seq<Contents>, b: seq<Contents>,
      n: nat)
    requires g.Ok() && Sized(g, a) && Sized(g, b) && n <= |tr| && n <= |a| && n <= |b|
    requires forall t, s :: 0 <= t < n && 0 <= s < g.numSets ==> b[t][s] <= a[t][s]
    ensures Misses(g, tr, a, n) <= Misses(g, tr, b, n)
  {
    if n > 0 { MoreHeldFewerMisses(g, tr, a, b, n - 1); }
  }

  // ---- several sets of several ways: a trace that misleads the search ----

  function TagOf(ways: nat, t: nat): nat {
    if t <= ways then t else if t == ways + 1 then 0 else if t < 2 * ways then t - ways else 1
  }

  function SetOf(ways: nat, t: nat): nat {
    if t <= ways || t >= 2 * ways then 0 else 1
  }

  function Address(g: Geometry, tag: nat, s: nat): nat {
    (tag * g.numSets + s) * g.lineSize
  }

  lemma AddressParts(g: Geometry, tag: nat, s: nat)
    requires g.Ok() && s < g.numSets
    ensures g.Tag(Address(g, tag, s)) == tag && g.Index(Address(g, tag, s)) == s
  {
    DivUnique(Address(g, tag, s), g.lineSize, tag * g.numSets + s, 0);
    DivUnique(tag * g.numSets + s, g.numSets, tag, s);
  }

  lemma AddressFits(g: Geometry, tag: nat, s: nat)
    requires Accepted(g) && tag <= 8 && s < g.numSets
    ensures Address(g, tag, s) < TWO64
  {
    assert tag * g.numSets <= 8 * 512 by { MulMono(tag, 8, g.numSets, 512); }
    MulMono(tag * g.numSets + s, 8 * 512 + 512, g.lineSize, 64);
  }

  lemma MulMono(a: nat, a': nat, b: nat, b': nat)
    requires a <= a' && b <= b'
    ensures a * b <= a' * b'
  {
    assert a * b <= a' * b;
    assert a' * b <= a' * b';
  }

  /** Tags 0, ..., ways into set 0; then, in set 1, every old tag but 1; then
      tag 1 of set 0 again. */
  ghost function Misleading(g: Geometry): (tr: seq<MemAccess>)
    requires Accepted(g) && g.numSets >= 2 && g.ways >= 2
    ensures |tr| == 2 * g.ways + 1
    ensures forall t :: 0 <= t < |tr| ==>
      g.Tag(tr[t].addr) == TagOf(g.ways, t) && g.Index(tr[t].addr) == SetOf(g.ways, t)
  {
    MisleadingFits(g);
    seq(2 * g.ways + 1, t requires 0 <= t <= 2 * g.ways =>
      MemAccess(Address(g, TagOf(g.ways, t), SetOf(g.ways, t)), false))
  }

  lemma MisleadingFits(g: Geometry)
    requires Accepted(g) && g.numSets >= 2 && g.ways >= 2
    ensures forall t :: 0 <= t <= 2 * g.ways ==>
      && Address(g, TagOf(g.ways, t), SetOf(g.ways, t)) < TWO64
      && g.Tag(Address(g, TagOf(g.ways, t), SetOf(g.ways, t))) == TagOf(g.ways, t)
      && g.Index(Address(g, TagOf(g.ways, t), SetOf(g.ways, t))) == SetOf(g.ways, t)
  {
    forall t | 0 <= t <= 2 * g.ways
      ensures Address(g, TagOf(g.ways, t), SetOf(g.ways, t)) < TWO64
      ensures g.Tag(Address(g, TagOf(g.ways, t), SetOf(g.ways, t))) == TagOf(g.ways, t)
      ensures g.Index(Address(g, TagOf(g.ways, t), SetOf(g.ways, t))) == SetOf(g.ways, t)
    {
      AddressFits(g, TagOf(g.ways, t), SetOf(g.ways, t));
      AddressParts(g, TagOf(g.ways, t), SetOf(g.ways, t));
    }
  }

  ghost function Range(n: nat): (r: set<nat>)
    ensures |r| == n
    ensures forall i: nat :: i in r <==> i < n
  {
    if n == 0 then {} else Range(n - 1) + {n - 1}
  }

  /** The simulator fills set 0 with tags 0, ..., ways - 1, ... */
  lemma {:induction false} Filling(g: Geometry, log: seq<Event>, t: nat)
    requires Accepted(g) && g.numSets >= 2 && g.ways >= 2
    requires FullLog(Misleading(g), log) && t <= g.ways
    ensures OwnRun(g, Optimal, Misleading(g), log)[t][0] == Range(t)
  {
    var own := OwnRun(g, Optimal, Misleading(g), log);
    if t > 0 {
      Filling(g, log, t - 1);
      OwnFurthestStep(g, Misleading(g), log, t - 1);
      assert own[t][0] == Range(t - 1) + {t - 1};
    }
  }

  lemma OverflowEvictsOne(g: Geometry, b: set<nat>, b': set<nat>)
    requires Accepted(g) && g.numSets >= 2 && g.ways >= 2 && b == Range(g.ways)
    requires FurthestStep(g, Misleading(g), b, b', g.ways)
    ensures 1 !in b'
  {
    hide NextUse, Misleading, Range;
    var tr := Misleading(g);
    assert g.Tag(tr[g.ways].addr) == g.ways && g.ways !in b && 1 in b;
    var v := Evicted(g, tr, b, b', g.ways);
    if v != 1 { OneIsFurthest(g, v); }
  }

  /** ... evicts tag 1, whose next use it thinks is furthest, and never looks back. */
  lemma {:induction false} TagOneGone(g: Geometry, log: seq<Event>, t: nat)
    requires Accepted(g) && g.numSets >= 2 && g.ways >= 2
    requires FullLog(Misleading(g), log) && g.ways < t <= 2 * g.ways
    ensures 1 !in OwnRun(g, Optimal, Misleading(g), log)[t][0]
  {
    hide NextUse, OwnRun, FurthestStep, Range, Misleading;
    OwnFurthestStep(g, Misleading(g), log, t - 1);
    if t == g.ways + 1 {
      Filling(g, log, g.ways);
      var own := OwnRun(g, Optimal, Misleading(g), log);
      OverflowEvictsOne(g, own[g.ways][0], own[t][0]);
    } else {
      TagOneGone(g, log, t - 1);
    }
  }

  lemma OneIsFurthest(g: Geometry, w: nat)
    requires Accepted(g) && g.numSets >= 2 && g.ways >= 2 && w < g.ways && w != 1
    ensures NextUse(g, Misleading(g), g.ways + 1, w) < NextUse(g, Misleading(g), g.ways + 1, 1)
  {
    var tr := Misleading(g);
    var use := if w == 0 then g.ways + 1 else g.ways + w;
    assert g.Tag(tr[use].addr) == w;
    var j := NextUse(g, tr, g.ways + 1, 1);
    assert j < |tr| ==> TagOf(g.ways, j) == 1;
  }

  lemma EveryAccessMisses(g: Geometry, log: seq<Event>, t: nat)
    requires Accepted(g) && g.numSets >= 2 && g.ways >= 2
    requires FullLog(Misleading(g), log) && t <= 2 * g.ways
    ensures MissAt(g, Misleading(g), OwnRun(g, Optimal, Misleading(g), log), t)
  {
    var tr := Misleading(g);
    var own := OwnRun(g, Optimal, tr, log);
    if t == 2 * g.ways {
      TagOneGone(g, log, t);
    } else {
      // its line was not accessed before
      OwnRunIsLegal(g, Optimal, tr, log);
      ResidentWasAccessed(g, tr, own, t);
      forall i | 0 <= i < t
        ensures !(g.Index(tr[i].addr) == SetOf(g.ways, t) && g.Tag(tr[i].addr) == TagOf(g.ways, t)) {}
    }
  }

  /** A rival that keeps everything but tag 0 of set 0. */
  ghost function Rival(g: Geometry): (run: seq<Contents>)
    requires Accepted(g) && g.numSets >= 2 && g.ways >= 2
    ensures |run| == 2 * g.ways + 2 && Sized(g, run)
  {
    seq(2 * g.ways + 2, t requires 0 <= t < 2 * g.ways + 2 => RivalAt(g, t))
  }

  ghost function RivalAt(g: Geometry, t: nat): (c: Contents)
    ensures |c| == g.numSets
  {
    seq(g.numSets, s requires 0 <= s < g.numSets => RivalSet(g.ways, t, s))
  }

  ghost function RivalSet(ways: nat, t: nat, s: nat): set<nat> {
    (set i | 0 <= i < t && SetOf(ways, i) == s :: TagOf(ways, i)) - (if t > ways && s == 0 then {0} else {})
  }

  lemma RivalSetSize(ways: nat, t: nat, s: nat)
    requires ways >= 2 && t <= 2 * ways + 1
    ensures |RivalSet(ways, t, s)| <= ways
  {
    if s == 0 {
      if t <= ways {
        Subset(RivalSet(ways, t, s), Range(ways));
      } else {
        assert RivalSet(ways, t, s) <= Range(ways + 1) - {0};
        WithOrWithout(Range(ways + 1), 0);
        Subset(RivalSet(ways, t, s), Range(ways + 1) - {0});
      }
    } else {
      Subset(RivalSet(ways, t, s), Range(ways));
    }
  }

  lemma RivalStep(ways: nat, t: nat, s: nat)
    requires ways >= 2 && t <= 2 * ways
    ensures s == SetOf(ways, t) ==> TagOf(ways, t) in RivalSet(ways, t + 1, s)
    ensures RivalSet(ways, t + 1, s) <= RivalSet(ways, t, s) + (if s == SetOf(ways, t) then {TagOf(ways, t)} else {})
  {
    if s == SetOf(ways, t) {
      assert s == 0 && t >= ways ==> TagOf(ways, t) != 0;
    }
  }

  lemma RivalLegalAt(g: Geometry, t: nat, addr: nat)
    requires g.Ok() && g.numSets >= 2 && g.ways >= 2 && t <= 2 * g.ways
    requires g.Tag(addr) == TagOf(g.ways, t) && g.Index(addr) == SetOf(g.ways, t)
    ensures LegalStep(g, RivalAt(g, t), RivalAt(g, t + 1), addr)
  {
    var c, c' := RivalAt(g, t), RivalAt(g, t + 1);
    var s, tag := g.Index(addr), g.Tag(addr);
    RivalSetSize(g.ways, t + 1, s);
    RivalStep(g.ways, t, s);
    assert c[s] == RivalSet(g.ways, t, s) && c'[s] == RivalSet(g.ways, t + 1, s);
    forall i | 0 <= i < g.numSets && i != s ensures c'[i] <= c[i] {
      RivalStep(g.ways, t, i);
      assert c[i] == RivalSet(g.ways, t, i) && c'[i] == RivalSet(g.ways, t + 1, i);
    }
  }

  lemma RivalIsLegal(g: Geometry)
    requires Accepted(g) && g.numSets >= 2 && g.ways >= 2
    ensures LegalRun(g, Misleading(g), Rival(g))
  {
    var tr, run := Misleading(g), Rival(g);
    assert run[0] == RivalAt(g, 0);
    forall s | 0 <= s < g.numSets ensures run[0][s] == {} {}
    forall t | 0 <= t < |tr| ensures LegalAt(g, tr, run, t) {
      RivalLegalAt(g, t, tr[t].addr);
      assert run[t] == RivalAt(g, t) && run[t + 1] == RivalAt(g, t + 1);
    }
  }

  lemma {:induction false} AllMiss(g: Geometry, tr: seq<MemAccess>, run: seq<Contents>, n: nat)
    requires g.Ok() && Sized(g, run) && n <= |tr| && n <= |run|
    requires forall t :: 0 <= t < n ==> MissAt(g, tr, run, t)
    ensures Misses(g, tr, run, n) == n
  {
    if n > 0 { AllMiss(g, tr, run, n - 1); }
  }

  lemma {:induction false} AtMostAllMiss(g: Geometry, tr: seq<MemAccess>, run: seq<Contents>, n: nat)
    requires g.Ok() && Sized(g, run) && n <= |tr| && n <= |run|
    ensures Misses(g, tr, run, n) <= n
  {
    if n > 0 { AtMostAllMiss(g, tr, run, n - 1); }
  }

  lemma RivalHitsLast(g: Geometry)
    requires Accepted(g) && g.numSets >= 2 && g.ways >= 2
    ensures Misses(g, Misleading(g), Rival(g), 2 * g.ways + 1) <= 2 * g.ways
  {
    var last := 2 * g.ways;
    AtMostAllMiss(g, Misleading(g), Rival(g), last);
    assert SetOf(g.ways, 1) == 0 && TagOf(g.ways, 1) == 1;
    assert 1 in RivalSet(g.ways, last, 0);
    assert Rival(g)[last][0] == RivalSet(g.ways, last, 0);
    MissesStep(g, Misleading(g), Rival(g), last);
  }

  /** With two sets and two ways there is a trace on which another choice wins. */
  lemma {:induction false} MisledSomewhere(g: Geometry, log: seq<Event>)
    requires Accepted(g) && g.numSets >= 2 && g.ways >= 2 && FullLog(Misleading(g), log)
    ensures LegalRun(g, Misleading(g), Rival(g))
    ensures !NotBeaten(g, Misleading(g), log, Rival(g))
  {
    var tr := Misleading(g);
    var own := OwnRun(g, Optimal, tr, log);
    RivalIsLegal(g);
    forall t | 0 <= t < |tr| ensures MissAt(g, tr, own, t) { EveryAccessMisses(g, log, t); }
    AllMiss(g, tr, own, |tr|);
    RivalHitsLast(g);
  }

  lemma NoChoiceNotBeaten(g: Geometry, tr: seq<MemAccess>, log: seq<Event>, run: seq<Contents>)
    requires g.Ok() && (g.numSets == 1 || g.ways == 1)
    requires FullLog(tr, log) && LegalRun(g, tr, run)
    ensures NotBeaten(g, tr, log, run)
  {
    if g.numSets == 1 {
      OneSetSharesNothing(g, tr);
      FurthestUseIsOptimal(g, tr, log, run);
    } else {
      var own := OwnRun(g, Optimal, tr, log);
      forall t, s | 0 <= t < |tr| && 0 <= s < g.numSets ensures run[t][s] <= own[t][s] {
        OneWayHoldsAll(g, tr, log, run, t, s);
      }
      MoreHeldFewerMisses(g, tr, own, run, |tr|);
    }
  }

  /** The policy is optimal on every trace exactly for the fully associative and
      the direct-mapped geometries. */
  lemma {:induction false} OptimalGeometries(g: Geometry)
    requires Accepted(g)
    ensures AlwaysOptimal(g) <==> g.numSets == 1 || g.ways == 1
  {
    if g.numSets == 1 || g.ways == 1 {
      forall tr: seq<MemAccess>, log: seq<Event>, run: seq<Contents> | FullLog(tr, log) && LegalRun(g, tr, run)
        ensures NotBeaten(g, tr, log, run)
      {
        NoChoiceNotBeaten(g, tr, log, run);
      }
    } else {
      var tr := Misleading(g);
      var log := seq(|tr|, k requires 0 <= k < |tr| => Event(k, k + 1));
      MisledSomewhere(g, log);
    }
  }
}
