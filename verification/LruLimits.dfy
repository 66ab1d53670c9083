/** Exactly how long the 32-bit timer keeps timestamp replacement exact: the stamp after
    2^32 - 1 accesses is zero, and the line that gets it looks older than all others. */
module LruLimits {
  import opened Bits
  import opened Uapi
  import opened CacheSets
  import opened Belady
  import opened BeladyLimits
  import opened LruStack
  import opened CacheHierarchy

  /** The accesses of a one-level cache over `n` trace entries, with their stamps. */
  ghost function SingleLog(n: nat): (log: seq<Event>)
    ensures |log| == n && forall k :: 0 <= k < n ==> log[k] == Event(k, (k + 1) % TWO32)
  {
    seq(n, (k: nat) => Event(k, (k + 1) % TWO32))
  }

  /** A one-level simulation serves every trace entry and counts them with its timer. */
  lemma {:induction false} SingleLevel(g: Geometry, p: Policy, tr: seq<MemAccess>, n: nat)
    requires g.Ok() && n <= |tr|
    ensures SimLogs([g], p, tr, n) == [SingleLog(n)] && Simulate([g], p, tr, n).timer == n % TWO32
  {
    hide Access;
    if n > 0 {
      SingleLevel(g, p, tr, n - 1);
      NextStamp(n - 1);
      assert SingleLog(n - 1) + [Event(n - 1, n % TWO32)] == SingleLog(n);
    }
  }

  lemma NextStamp(n: nat)
    ensures (n % TWO32 + 1) % TWO32 == (n + 1) % TWO32
  {}

  lemma SingleLogOk(tr: seq<MemAccess>)
    ensures LogOk(tr, SingleLog(|tr|)) && FullLog(tr, SingleLog(|tr|))
  {}

  /** Every access of the simulation of one level is treated as exact LRU would treat it. */
  ghost predicate ExactOn(g: Geometry, tr: seq<MemAccess>)
    requires g.Ok()
  {
    var log := SimLogs([g], Lru, tr, |tr|)[0];
    LogOk(tr, log) && forall k :: 0 <= k < |tr| && k < |log| ==> ExactAt(g, tr, log, k)
  }

  /** In terms of the log's stamps. */
  lemma ExactOnLog(g: Geometry, tr: seq<MemAccess>)
    requires g.Ok()
    ensures LogOk(tr, SingleLog(|tr|))
    ensures ExactOn(g, tr) <==> forall k :: 0 <= k < |tr| ==> ExactAt(g, tr, SingleLog(|tr|), k)
  {
    hide ExactAt, SingleLog;
    SingleLogOk(tr);
    SingleLevel(g, Lru, tr, |tr|);
  }

  // ---- long enough stamps, or one way ----

  lemma ExactWithin(g: Geometry, tr: seq<MemAccess>)
    requires g.Ok() && |tr| <= TWO32 + 1
    ensures ExactOn(g, tr)
  {
    var log := SingleLog(|tr|);
    SingleLogOk(tr);
    forall k | 0 <= k < |tr| ensures ExactAt(g, tr, log, k) {
      if k > 0 { GrowingStamps(|tr|, k - 1); }
      ExactLru(g, tr, log, k);
    }
    ExactOnLog(g, tr);
  }

  lemma GrowingStamps(n: nat, k: nat)
    requires k <= n && k < TWO32
    ensures Stamped(SingleLog(n)[..k]) && forall i :: 0 <= i < k ==> SingleLog(n)[i].now == i + 1
  {
    forall i | 0 <= i < k ensures SingleLog(n)[i].now == i + 1 {
      SmallRemainder(i + 1, TWO32);
    }
  }

  /** With one way there is nothing to choose, whatever the stamps say. */
  lemma {:induction false} OneWayAgrees(g: Geometry, tr: seq<MemAccess>, log: seq<Event>, s: nat)
    requires g.Ok() && g.ways == 1 && LogOk(tr, log) && s < g.numSets
    ensures Agrees(g, tr, log, s, Replay(g, Lru, tr, log).sets[s])
    decreases |log|
  {
    if log == [] {
      assert Tags(Replay(g, Lru, tr, log).sets[s]) == {};
    } else {
      var n := |log| - 1;
      OneWayAgrees(g, tr, log[..n], s);
      NeverTwice(g, Lru, tr, log[..n]);
      var l := Replay(g, Lru, tr, log[..n]);
      if g.Index(tr[log[n].idx].addr) == s {
        MembersAfter(g, tr, log, s);
        NothingLostYet(g, tr, log, l.sets[s]);
      } else {
        AgreesElsewhere(g, tr, log, s, l.sets[s]);
      }
    }
  }

  lemma ExactOneWay(g: Geometry, tr: seq<MemAccess>)
    requires g.Ok() && g.ways == 1
    ensures ExactOn(g, tr)
  {
    var log := SingleLog(|tr|);
    SingleLogOk(tr);
    forall k | 0 <= k < |tr| ensures ExactAt(g, tr, log, k) {
      OneWayAgrees(g, tr, log[..k], g.Index(tr[log[k].idx].addr));
      ExactFromMembers(g, tr, log, k);
    }
    ExactOnLog(g, tr);
  }

  // ---- a trace that outlives the timer ----

  /** The last access whose stamp is not yet zero, counted from one. */
  const LAST_STAMP: nat := TWO32 - 1

  /** All tags below `ways - 1`, the last of them again and again until the stamps run
      out; then tag `ways - 1`, which is stamped zero; then a new one, and the one before
      again. */
  function AgeingTag(ways: nat, t: nat): (tag: nat)
    requires ways >= 2
    ensures tag <= ways
  {
    if t < LAST_STAMP then (if t < ways - 1 then t else ways - 2)
    else if t == LAST_STAMP then ways - 1
    else if t == LAST_STAMP + 1 then ways
    else if t == LAST_STAMP + 2 then ways - 1
    else 0
  }

  function AgeingAccess(g: Geometry, t: nat): (a: MemAccess)
    requires Accepted(g) && g.ways >= 2
    ensures g.Tag(a.addr) == AgeingTag(g.ways, t) && g.Index(a.addr) == 0
  {
    var tag := AgeingTag(g.ways, t);
    AddressFits(g, tag, 0);
    AddressParts(g, tag, 0);
    MemAccess(Address(g, tag, 0), false)
  }

  function Ageing(g: Geometry, n: nat): (tr: seq<MemAccess>)
    requires Accepted(g) && g.ways >= 2
    ensures |tr| == n
    ensures forall t :: 0 <= t < n ==> tr[t] == AgeingAccess(g, t)
  {
    seq(n, t requires 0 <= t < n => AgeingAccess(g, t))
  }

  lemma RangeNext(n: nat)
    ensures Range(n) + {n} == Range(n + 1) && Range(n + 1) + {n} == Range(n + 1)
    ensures n == 0 ==> Range(n) == {}
  {}

  lemma NothingSeen(g: Geometry, tr: seq<MemAccess>)
    requires g.Ok()
    ensures Seen(g, tr, [], 0) == {} == Range(0)
  {}

  lemma SeenNext(g: Geometry, tr: seq<MemAccess>, log: seq<Event>, s: nat, k: nat)
    requires g.Ok() && LogOk(tr, log) && k < |log|
    ensures var a := tr[log[k].idx].addr;
      Seen(g, tr, log[..k + 1], s) == Seen(g, tr, log[..k], s) + if g.Index(a) == s then {g.Tag(a)} else {}
  {
    assert log[..k + 1][..k] == log[..k];
  }

  lemma {:induction false} AgeingSeen(g: Geometry, n: nat, t: nat)
    requires Accepted(g) && g.ways >= 2 && t <= n && t <= LAST_STAMP
    ensures LogOk(Ageing(g, n), SingleLog(n))
    ensures Seen(g, Ageing(g, n), SingleLog(n)[..t], 0) == Range(if t < g.ways then t else g.ways - 1)
  {
    hide Ageing, SingleLog, Range, Seen, AgeingAccess, Geometry.Index, Geometry.Tag;
    var tr, log := Ageing(g, n), SingleLog(n);
    SingleLogOk(tr);
    if t == 0 {
      assert log[..0] == [];
      NothingSeen(g, tr);
    } else {
      AgeingSeen(g, n, t - 1);
      SeenNext(g, tr, log, 0, t - 1);
      assert tr[t - 1] == AgeingAccess(g, t - 1);
      RangeNext(t - 1);
      RangeNext(g.ways - 2);
    }
  }

  predicate StampedAfterZero(ws: seq<CacheLine>) {
    forall i :: 0 <= i < |ws| && ws[i].valid ==> ws[i].lastUsed > 0
  }

  /** Every resident line bears the stamp of some access. */
  lemma {:induction false} StampedByAccess(g: Geometry, tr: seq<MemAccess>, log: seq<Event>, s: nat)
    requires g.Ok() && LogOk(tr, log) && s < g.numSets && forall k :: 0 <= k < |log| ==> log[k].now > 0
    ensures StampedAfterZero(Replay(g, Lru, tr, log).sets[s])
    decreases |log|
  {
    hide Access;
    if log != [] {
      var n := |log| - 1;
      StampedByAccess(g, tr, log[..n], s);
      AccessStamps(g, tr, Replay(g, Lru, tr, log[..n]), log[n], s);
    }
  }

  lemma AccessStamps(g: Geometry, tr: seq<MemAccess>, l: Level, e: Event, s: nat)
    requires g.Ok() && Shape(g, l) && e.idx < |tr| && s < g.numSets && e.now > 0 && StampedAfterZero(l.sets[s])
    ensures StampedAfterZero(Access(g, Lru, tr, l, e).sets[s])
  {}

  /** When the stamps have run out, all but one way are in use, stamped after zero. */
  lemma Aged(g: Geometry, n: nat) returns (ws: seq<CacheLine>)
    requires Accepted(g) && g.ways >= 2 && n > LAST_STAMP
    ensures LogOk(Ageing(g, n), SingleLog(n))
    ensures ws == Replay(g, Lru, Ageing(g, n), SingleLog(n)[..LAST_STAMP]).sets[0]
    ensures |ws| == g.ways && Distinct(ws) && Tags(ws) == Range(g.ways - 1) && FirstEmpty(ws) < |ws|
    ensures StampedAfterZero(ws)
  {
    var tr, log := Ageing(g, n), SingleLog(n)[..LAST_STAMP];
    AgeingSeen(g, n, LAST_STAMP);
    GrowingStamps(n, LAST_STAMP);
    ReplayAgrees(g, tr, log, 0);
    NeverTwice(g, Lru, tr, log);
    StampedByAccess(g, tr, log, 0);
    ws := Replay(g, Lru, tr, log).sets[0];
    forall x ensures x in Tags(ws) <==> x in Range(g.ways - 1) {
      if x in Range(g.ways - 1) {
        AfterFacts(g, tr, log, 0, x);
        Subset(After(g, tr, log, 0, x), Range(g.ways - 1));
      }
    }
    FilledSet(ws);
  }

  /** The access stamped zero fills the set; the next one evicts it, though it was the
      most recent. */
  lemma YoungestEvicted(g: Geometry, tr: seq<MemAccess>, idx: nat, ws: seq<CacheLine>)
    requires g.Ok() && g.ways >= 2 && idx + 1 < |tr| && |ws| == g.ways && Distinct(ws)
    requires Tags(ws) == Range(g.ways - 1) && FirstEmpty(ws) < |ws|
    requires StampedAfterZero(ws)
    ensures var ws1 := ws[Slot(g, Lru, tr, idx, ws, g.ways - 1) := CacheLine(g.ways - 1, true, 0)];
      var ws2 := ws1[Slot(g, Lru, tr, idx + 1, ws1, g.ways) := CacheLine(g.ways, true, 1)];
      g.ways - 1 !in Tags(ws2)
  {
    hide Tags, Range, LruVictim, FirstEmpty;
    var b := g.ways - 1;
    HitIffResident(ws, b);
    var e := FirstEmpty(ws);
    var ws1 := ws[e := CacheLine(b, true, 0)];
    AccessTags(g, Lru, tr, idx, ws, b, 0);
    RangeNext(b);
    FullAfter(ws1, g.ways);
    assert forall i :: 0 <= i < |ws1| && i != e ==> ws1[i] == ws[i] && ws[i].valid;
    ZeroIsVictim(ws1, e);
    HitIffResident(ws1, g.ways);
    AccessTags(g, Lru, tr, idx + 1, ws1, g.ways, 1);
  }

  lemma ZeroIsVictim(ws: seq<CacheLine>, e: nat)
    requires e < |ws| && ws[e].lastUsed == 0 && forall i :: 0 <= i < |ws| && i != e ==> ws[i].lastUsed > 0
    ensures LruVictim(ws) == e
  {
    assert ws[LruVictim(ws)].lastUsed <= ws[e].lastUsed;
  }

  lemma FullAfter(ws: seq<CacheLine>, ways: nat)
    requires |ws| == ways && Tags(ws) == Range(ways)
    ensures FirstEmpty(ws) == |ws| && forall i :: 0 <= i < |ws| ==> ws[i].valid
  {
    if FirstEmpty(ws) < |ws| { PartlyFilled(ws); }
  }

  /** So the access after that misses, where exact LRU hits. */
  lemma {:induction false} NotExact(g: Geometry, n: nat)
    requires Accepted(g) && g.ways >= 2 && n > LAST_STAMP + 2
    ensures LogOk(Ageing(g, n), SingleLog(n)) && !ExactAt(g, Ageing(g, n), SingleLog(n), LAST_STAMP + 2)
  {
    var tr, log, m := Ageing(g, n), SingleLog(n), LAST_STAMP;
    var ws := Aged(g, n);
    ReplayStep(g, Lru, tr, log, m);
    ReplayStep(g, Lru, tr, log, m + 1);
    YoungestEvicted(g, tr, m, ws);
    assert !HitAt(g, Lru, tr, log, m + 2);
    IndexTagIdentifyLine(g, tr[m].addr, tr[m + 2].addr);
    IndexTagIdentifyLine(g, tr[m + 1].addr, tr[m + 2].addr);
    assert PreviousTouch(g, tr, log, m, m + 2);
    assert Between(g, tr, log, 0, m + 1, m + 2) == {g.ways};
  }

  /** On all traces of `n` entries a one-level cache is exactly LRU if and only if there
      are at most 2^32 + 1 of them or there is one way. */
  lemma {:induction false} TimerLimit(g: Geometry, n: nat)
    requires Accepted(g)
    ensures (forall tr: seq<MemAccess> :: |tr| == n ==> ExactOn(g, tr)) <==> n <= TWO32 + 1 || g.ways == 1
  {
    if n <= TWO32 + 1 {
      forall tr: seq<MemAccess> | |tr| == n ensures ExactOn(g, tr) { ExactWithin(g, tr); }
    } else if g.ways == 1 {
      forall tr: seq<MemAccess> | |tr| == n ensures ExactOn(g, tr) { ExactOneWay(g, tr); }
    } else {
      NotExact(g, n);
      ExactOnLog(g, Ageing(g, n));
      assert |Ageing(g, n)| == n && !ExactOn(g, Ageing(g, n));
    }
  }
}
