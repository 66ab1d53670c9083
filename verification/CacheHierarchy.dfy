/** Which accesses reach the next level, and conservation across levels. */
module CacheHierarchy {
  import opened Bits
  import opened Uapi
  import opened CacheSets

  /** The driver loop hands an access on when the level's 64-bit hit counter equals
      the 32-bit copy taken before: on a miss, while the counter fits 32 bits. */
  ghost predicate ForwardedAt(g: Geometry, p: Policy, tr: seq<MemAccess>, log: seq<Event>, k: nat)
    requires g.Ok() && LogOk(tr, log) && k < |log|
  {
    !HitAt(g, p, tr, log, k) && HitCount(g, p, tr, log, k) < TWO32
  }

  /** The trace positions handed on, in order. */
  ghost function Forwarded(g: Geometry, p: Policy, tr: seq<MemAccess>, log: seq<Event>, n: nat): (f: seq<nat>)
    requires g.Ok() && LogOk(tr, log) && n <= |log|
    ensures |f| <= n && forall i :: 0 <= i < |f| ==> f[i] < |tr|
  {
    if n == 0 then []
    else Forwarded(g, p, tr, log, n - 1) + if ForwardedAt(g, p, tr, log, n - 1) then [log[n - 1].idx] else []
  }

  function Positions(log: seq<Event>): (f: seq<nat>)
    ensures |f| == |log|
  {
    seq(|log|, i requires 0 <= i < |log| => log[i].idx)
  }

  lemma HitOfPrefix(g: Geometry, p: Policy, tr: seq<MemAccess>, log: seq<Event>, log': seq<Event>, k: nat)
    requires g.Ok() && LogOk(tr, log) && LogOk(tr, log') && k < |log| && k < |log'|
    requires log[..k] == log'[..k] && log[k] == log'[k]
    ensures HitAt(g, p, tr, log, k) == HitAt(g, p, tr, log', k)
  {}

  lemma ShorterPrefix<T>(a: seq<T>, b: seq<T>, n: nat)
    requires 0 < n <= |a| && n <= |b| && a[..n] == b[..n]
    ensures a[..n - 1] == b[..n - 1] && a[n - 1] == b[n - 1]
  {
    assert a[..n - 1] == a[..n][..n - 1] && b[..n - 1] == b[..n][..n - 1];
    assert a[n - 1] == a[..n][n - 1] && b[n - 1] == b[..n][n - 1];
  }

  lemma {:induction false} CountsOfPrefix(g: Geometry, p: Policy, tr: seq<MemAccess>, log: seq<Event>,
      log': seq<Event>, n: nat)
    requires g.Ok() && LogOk(tr, log) && LogOk(tr, log') && n <= |log| && n <= |log'| && log[..n] == log'[..n]
    ensures HitCount(g, p, tr, log, n) == HitCount(g, p, tr, log', n)
    ensures Forwarded(g, p, tr, log, n) == Forwarded(g, p, tr, log', n)
  {
    if n > 0 {
      ShorterPrefix(log, log', n);
      CountsOfPrefix(g, p, tr, log, log', n - 1);
      HitOfPrefix(g, p, tr, log, log', n - 1);
    }
  }

  /** A miss the driver loop overlooks, because the hit counter has outgrown 32 bits. */
  ghost predicate LateMiss(g: Geometry, p: Policy, tr: seq<MemAccess>, log: seq<Event>, k: nat)
    requires g.Ok() && LogOk(tr, log) && k < |log|
  {
    !HitAt(g, p, tr, log, k) && HitCount(g, p, tr, log, k) >= TWO32
  }

  /** Every miss is handed on exactly when none happens after 2^32 hits. */
  lemma {:induction false} MissesAreForwarded(g: Geometry, p: Policy, tr: seq<MemAccess>, log: seq<Event>, n: nat)
    requires g.Ok() && LogOk(tr, log) && n <= |log|
    ensures |Forwarded(g, p, tr, log, n)| <= n - HitCount(g, p, tr, log, n)
    ensures |Forwarded(g, p, tr, log, n)| == n - HitCount(g, p, tr, log, n)
      <==> forall k :: 0 <= k < n ==> !LateMiss(g, p, tr, log, k)
  {
    hide HitAt, Replay;
    if n > 0 {
      MissesAreForwarded(g, p, tr, log, n - 1);
      assert LateMiss(g, p, tr, log, n - 1) <==> !HitAt(g, p, tr, log, n - 1) && !ForwardedAt(g, p, tr, log, n - 1);
    }
  }

  lemma AppendedState(g: Geometry, p: Policy, tr: seq<MemAccess>, log: seq<Event>, e: Event)
    requires g.Ok() && LogOk(tr, log) && e.idx < |tr|
    ensures LogOk(tr, log + [e]) && (log + [e])[..|log|] == log
    ensures Replay(g, p, tr, log + [e]) == Access(g, p, tr, Replay(g, p, tr, log), e)
  {
    assert (log + [e])[..|log|] == log;
  }

  lemma AppendedCounts(g: Geometry, p: Policy, tr: seq<MemAccess>, log: seq<Event>, e: Event)
    requires g.Ok() && LogOk(tr, log) && LogOk(tr, log + [e])
    ensures HitCount(g, p, tr, log + [e], |log|) == HitCount(g, p, tr, log, |log|)
    ensures Forwarded(g, p, tr, log + [e], |log| + 1)
         == Forwarded(g, p, tr, log, |log|) + if ForwardedAt(g, p, tr, log + [e], |log|) then [e.idx] else []
  {
    assert (log + [e])[..|log|] == log == log[..|log|];
    CountsOfPrefix(g, p, tr, log + [e], log, |log|);
  }

  /** A 64-bit counter against the 32-bit copy of its old value. */
  lemma CopyComparison(before: nat, after: nat, hit: bool)
    requires before < TWO64 - 1 && after == if hit then before + 1 else before
    ensures after == before % TWO32 <==> !hit && before < TWO32
  {}

  /** One more access: the level's new state, and what the loop's comparison says. */
  lemma Appended(g: Geometry, p: Policy, tr: seq<MemAccess>, log: seq<Event>, e: Event)
    requires g.Ok() && LogOk(tr, log) && e.idx < |tr| && |log| < TWO64 - 1
    ensures LogOk(tr, log + [e]) && (log + [e])[..|log|] == log
    ensures Replay(g, p, tr, log + [e]) == Access(g, p, tr, Replay(g, p, tr, log), e)
    ensures Replay(g, p, tr, log + [e]).hits == Replay(g, p, tr, log).hits % TWO32
      <==> ForwardedAt(g, p, tr, log + [e], |log|)
    ensures Forwarded(g, p, tr, log + [e], |log| + 1)
         == Forwarded(g, p, tr, log, |log|) + if ForwardedAt(g, p, tr, log + [e], |log|) then [e.idx] else []
  {
    AppendedState(g, p, tr, log, e);
    AppendedCounts(g, p, tr, log, e);
    assert log[..|log|] == log;
    Counters(g, p, tr, log, |log|);
    var l, l' := Replay(g, p, tr, log), Replay(g, p, tr, log + [e]);
    AccessCounts(g, p, tr, l, e);
    CopyComparison(l.hits, l'.hits, HitAt(g, p, tr, log + [e], |log|));
  }

  // ---- the simulation ----

  /** All levels and the timer they share. */
  datatype SimState = SimState(levels: seq<Level>, timer: nat)

  predicate StateOk(gs: seq<Geometry>, st: SimState) {
    |gs| == |st.levels| && forall l :: 0 <= l < |gs| ==> gs[l].Ok() && Shape(gs[l], st.levels[l])
  }

  /** Level `k` alone serves trace entry `i`. */
  function Touch(gs: seq<Geometry>, p: Policy, tr: seq<MemAccess>, st: SimState, i: nat, k: nat): (st': SimState)
    requires StateOk(gs, st) && i < |tr| && k < |gs|
    ensures StateOk(gs, st')
  {
    var now := (st.timer + 1) % TWO32;
    SimState(st.levels[k := Access(gs[k], p, tr, st.levels[k], Event(i, now))], now)
  }

  /** Did the driver loop take level `k`'s access for a miss? */
  predicate HandsOn(st: SimState, st': SimState, k: nat)
    requires k < |st.levels| && k < |st'.levels|
  {
    st'.levels[k].hits == st.levels[k].hits % TWO32
  }

  /** Trace entry `i` is served by level `k` and, when the hit counter still equals
      its 32-bit copy, by the levels below. */
  function OfferTo(gs: seq<Geometry>, p: Policy, tr: seq<MemAccess>, st: SimState, i: nat, k: nat): (st': SimState)
    requires StateOk(gs, st) && i < |tr| && k < |gs|
    ensures StateOk(gs, st')
    decreases |gs| - k
  {
    var st' := Touch(gs, p, tr, st, i, k);
    if k + 1 < |gs| && HandsOn(st, st', k) then OfferTo(gs, p, tr, st', i, k + 1) else st'
  }

  lemma OfferUnfold(gs: seq<Geometry>, p: Policy, tr: seq<MemAccess>, st: SimState, st': SimState, i: nat, k: nat)
    requires StateOk(gs, st) && i < |tr| && k < |gs| && st' == Touch(gs, p, tr, st, i, k)
    ensures OfferTo(gs, p, tr, st, i, k)
      == if k + 1 < |gs| && HandsOn(st, st', k) then OfferTo(gs, p, tr, st', i, k + 1) else st'
  {}

  ghost predicate AllOk(gs: seq<Geometry>) {
    |gs| >= 1 && forall l :: 0 <= l < |gs| ==> gs[l].Ok()
  }

  function Empties(gs: seq<Geometry>): (ls: seq<Level>)
    ensures |ls| == |gs| && forall l :: 0 <= l < |gs| ==> ls[l] == Empty(gs[l])
  {
    seq(|gs|, l requires 0 <= l < |gs| => Empty(gs[l]))
  }

  /** The state after the first `n` trace entries. */
  ghost function Simulate(gs: seq<Geometry>, p: Policy, tr: seq<MemAccess>, n: nat): (st: SimState)
    requires AllOk(gs) && n <= |tr|
    ensures StateOk(gs, st)
  {
    if n == 0 then SimState(Empties(gs), 0) else OfferTo(gs, p, tr, Simulate(gs, p, tr, n - 1), n - 1, 0)
  }

  // ---- the accesses each level has served ----

  function TouchLogs(logs: seq<seq<Event>>, timer: nat, i: nat, k: nat): (logs': seq<seq<Event>>)
    requires k < |logs|
    ensures |logs'| == |logs|
  {
    logs[k := logs[k] + [Event(i, (timer + 1) % TWO32)]]
  }

  /** The logs after `OfferTo`. */
  ghost function OfferLogs(gs: seq<Geometry>, p: Policy, tr: seq<MemAccess>, st: SimState, logs: seq<seq<Event>>,
      i: nat, k: nat): (logs': seq<seq<Event>>)
    requires StateOk(gs, st) && i < |tr| && k < |gs| == |logs|
    ensures |logs'| == |logs|
    decreases |gs| - k
  {
    var st' := Touch(gs, p, tr, st, i, k);
    var logs' := TouchLogs(logs, st.timer, i, k);
    if k + 1 < |gs| && HandsOn(st, st', k) then OfferLogs(gs, p, tr, st', logs', i, k + 1) else logs'
  }

  ghost function SimLogs(gs: seq<Geometry>, p: Policy, tr: seq<MemAccess>, n: nat): (logs: seq<seq<Event>>)
    requires AllOk(gs) && n <= |tr|
    ensures |logs| == |gs|
  {
    if n == 0 then seq(|gs|, _ => [])
    else OfferLogs(gs, p, tr, Simulate(gs, p, tr, n - 1), SimLogs(gs, p, tr, n - 1), n - 1, 0)
  }

  /** A level is what its log of accesses leads to. */
  ghost predicate Mirror(g: Geometry, p: Policy, tr: seq<MemAccess>, l: Level, log: seq<Event>) {
    g.Ok() && LogOk(tr, log) && l == Replay(g, p, tr, log)
  }

  ghost predicate Mirrors(gs: seq<Geometry>, p: Policy, tr: seq<MemAccess>, st: SimState, logs: seq<seq<Event>>) {
    && StateOk(gs, st) && |logs| == |gs|
    && forall l :: 0 <= l < |gs| ==> Mirror(gs[l], p, tr, st.levels[l], logs[l])
  }

  lemma MirrorAppend(g: Geometry, p: Policy, tr: seq<MemAccess>, l: Level, log: seq<Event>, e: Event)
    requires Mirror(g, p, tr, l, log) && e.idx < |tr|
    ensures Mirror(g, p, tr, Access(g, p, tr, l, e), log + [e])
  {
    AppendedState(g, p, tr, log, e);
  }

  lemma TouchMirrors(gs: seq<Geometry>, p: Policy, tr: seq<MemAccess>, st: SimState, logs: seq<seq<Event>>, i: nat,
      k: nat)
    requires Mirrors(gs, p, tr, st, logs) && i < |tr| && k < |gs|
    ensures Mirrors(gs, p, tr, Touch(gs, p, tr, st, i, k), TouchLogs(logs, st.timer, i, k))
  {
    var st', logs' := Touch(gs, p, tr, st, i, k), TouchLogs(logs, st.timer, i, k);
    assert Mirror(gs[k], p, tr, st.levels[k], logs[k]);
    MirrorAppend(gs[k], p, tr, st.levels[k], logs[k], Event(i, (st.timer + 1) % TWO32));
    forall l | 0 <= l < |gs| ensures Mirror(gs[l], p, tr, st'.levels[l], logs'[l]) {
      if l != k { assert Mirror(gs[l], p, tr, st.levels[l], logs[l]); }
    }
  }

  lemma {:induction false} OfferMirrors(gs: seq<Geometry>, p: Policy, tr: seq<MemAccess>, st: SimState,
      logs: seq<seq<Event>>, i: nat, k: nat)
    requires Mirrors(gs, p, tr, st, logs) && i < |tr| && k < |gs|
    ensures Mirrors(gs, p, tr, OfferTo(gs, p, tr, st, i, k), OfferLogs(gs, p, tr, st, logs, i, k))
    decreases |gs| - k
  {
    TouchMirrors(gs, p, tr, st, logs, i, k);
    var st' := Touch(gs, p, tr, st, i, k);
    if k + 1 < |gs| && HandsOn(st, st', k) {
      OfferMirrors(gs, p, tr, st', TouchLogs(logs, st.timer, i, k), i, k + 1);
    }
  }

  // ---- each level is fed by the one above ----

  /** The lower level was accessed where the upper one handed on, except that entry
      `i` may still be to come. */
  ghost predicate FedAt(g: Geometry, p: Policy, tr: seq<MemAccess>, upper: seq<Event>, lower: seq<Event>,
      pending: seq<nat>) {
    g.Ok() && LogOk(tr, upper) && Positions(lower) + pending == Forwarded(g, p, tr, upper, |upper|)
  }

  ghost predicate FedBut(gs: seq<Geometry>, p: Policy, tr: seq<MemAccess>, logs: seq<seq<Event>>, i: nat, k: nat)
    requires |gs| == |logs|
  {
    forall l :: 0 < l < |logs| ==> FedAt(gs[l - 1], p, tr, logs[l - 1], logs[l], if l == k then [i] else [])
  }

  ghost predicate Fed(gs: seq<Geometry>, p: Policy, tr: seq<MemAccess>, logs: seq<seq<Event>>)
    requires |gs| == |logs|
  {
    forall l :: 0 < l < |logs| ==> FedAt(gs[l - 1], p, tr, logs[l - 1], logs[l], [])
  }

  /** Nothing is pending below the lowest level or above the second. */
  lemma NothingPending(gs: seq<Geometry>, p: Policy, tr: seq<MemAccess>, logs: seq<seq<Event>>, i: nat, k: nat)
    requires |gs| == |logs| && (k == 0 || k >= |gs|)
    ensures FedBut(gs, p, tr, logs, i, k) <==> Fed(gs, p, tr, logs)
  {
    if FedBut(gs, p, tr, logs, i, k) {
      forall l | 0 < l < |logs| ensures FedAt(gs[l - 1], p, tr, logs[l - 1], logs[l], []) {
        assert FedAt(gs[l - 1], p, tr, logs[l - 1], logs[l], if l == k then [i] else []);
      }
    }
    if Fed(gs, p, tr, logs) {
      forall l | 0 < l < |logs| ensures FedAt(gs[l - 1], p, tr, logs[l - 1], logs[l], if l == k then [i] else []) {
        assert FedAt(gs[l - 1], p, tr, logs[l - 1], logs[l], []);
      }
    }
  }

  lemma PositionsAppend(log: seq<Event>, e: Event)
    ensures Positions(log + [e]) == Positions(log) + [e.idx]
  {}

  lemma FedAppendUpper(g: Geometry, p: Policy, tr: seq<MemAccess>, upper: seq<Event>, lower: seq<Event>, e: Event)
    requires FedAt(g, p, tr, upper, lower, []) && e.idx < |tr| && |upper| < TWO64 - 1
    ensures var l, l' := Replay(g, p, tr, upper), Access(g, p, tr, Replay(g, p, tr, upper), e);
      FedAt(g, p, tr, upper + [e], lower, if l'.hits == l.hits % TWO32 then [e.idx] else [])
  {
    Appended(g, p, tr, upper, e);
    assert Positions(lower) + [] == Positions(lower);
  }

  lemma FedAppendLower(g: Geometry, p: Policy, tr: seq<MemAccess>, upper: seq<Event>, lower: seq<Event>, e: Event)
    requires FedAt(g, p, tr, upper, lower, [e.idx])
    ensures FedAt(g, p, tr, upper, lower + [e], [])
  {
    PositionsAppend(lower, e);
    assert Positions(lower + [e]) + [] == Positions(lower + [e]);
  }

  lemma TouchFedAt(gs: seq<Geometry>, p: Policy, tr: seq<MemAccess>, st: SimState, logs: seq<seq<Event>>, i: nat,
      k: nat, l: nat)
    requires StateOk(gs, st) && |logs| == |gs| && i < |tr| && k < |gs| && |logs[k]| < TWO64 - 1
    requires Mirror(gs[k], p, tr, st.levels[k], logs[k]) && 0 < l < |gs|
    requires FedAt(gs[l - 1], p, tr, logs[l - 1], logs[l], if l == k then [i] else [])
    ensures var logs' := TouchLogs(logs, st.timer, i, k);
      FedAt(gs[l - 1], p, tr, logs'[l - 1], logs'[l],
        if l == k + 1 && HandsOn(st, Touch(gs, p, tr, st, i, k), k) then [i] else [])
  {
    hide Access, Replay, Forwarded;
    var e := Event(i, (st.timer + 1) % TWO32);
    if l == k {
      FedAppendLower(gs[l - 1], p, tr, logs[l - 1], logs[l], e);
    } else if l == k + 1 {
      FedAppendUpper(gs[k], p, tr, logs[k], logs[l], e);
    }
  }

  /** Serving entry `i` at level `k` leaves it to come at level `k + 1` if handed on. */
  lemma TouchFed(gs: seq<Geometry>, p: Policy, tr: seq<MemAccess>, st: SimState, logs: seq<seq<Event>>, i: nat, k: nat)
    requires Mirrors(gs, p, tr, st, logs) && i < |tr| && k < |gs| && |logs[k]| < TWO64 - 1
    requires FedBut(gs, p, tr, logs, i, k)
    ensures FedBut(gs, p, tr, TouchLogs(logs, st.timer, i, k), i,
      if HandsOn(st, Touch(gs, p, tr, st, i, k), k) then k + 1 else 0)
  {
    var logs' := TouchLogs(logs, st.timer, i, k);
    var next := if HandsOn(st, Touch(gs, p, tr, st, i, k), k) then k + 1 else 0;
    assert Mirror(gs[k], p, tr, st.levels[k], logs[k]);
    forall l | 0 < l < |logs'| ensures FedAt(gs[l - 1], p, tr, logs'[l - 1], logs'[l], if l == next then [i] else []) {
      TouchFedAt(gs, p, tr, st, logs, i, k, l);
    }
  }

  lemma {:induction false} OfferFed(gs: seq<Geometry>, p: Policy, tr: seq<MemAccess>, st: SimState,
      logs: seq<seq<Event>>, i: nat, k: nat)
    requires Mirrors(gs, p, tr, st, logs) && i < |tr| && k < |gs|
    requires forall l :: k <= l < |gs| ==> |logs[l]| < TWO64 - 1
    requires FedBut(gs, p, tr, logs, i, k)
    ensures Fed(gs, p, tr, OfferLogs(gs, p, tr, st, logs, i, k))
    decreases |gs| - k
  {
    TouchMirrors(gs, p, tr, st, logs, i, k);
    TouchFed(gs, p, tr, st, logs, i, k);
    var st', logs' := Touch(gs, p, tr, st, i, k), TouchLogs(logs, st.timer, i, k);
    if HandsOn(st, st', k) && k + 1 < |gs| {
      OfferFed(gs, p, tr, st', logs', i, k + 1);
    } else {
      NothingPending(gs, p, tr, logs', i, if HandsOn(st, st', k) then k + 1 else 0);
    }
  }

  // ---- the first level sees everything; stamps grow ----

  ghost function Total(logs: seq<seq<Event>>): nat {
    if logs == [] then 0 else Total(logs[..|logs| - 1]) + |logs[|logs| - 1]|
  }

  lemma {:induction false} TotalTouch(logs: seq<seq<Event>>, k: nat, e: Event)
    requires k < |logs|
    ensures Total(logs[k := logs[k] + [e]]) == Total(logs) + 1
  {
    var logs', n := logs[k := logs[k] + [e]], |logs| - 1;
    if k < n {
      assert logs'[..n] == logs[..n][k := logs[..n][k] + [e]];
      TotalTouch(logs[..n], k, e);
    } else {
      assert logs'[..n] == logs[..n];
    }
  }

  /** Stamps in a log grow, and none is ahead of the timer. */
  ghost predicate InOrder(log: seq<Event>, timer: nat) {
    && (forall i, j :: 0 <= i < j < |log| ==> log[i].now < log[j].now)
    && forall i :: 0 <= i < |log| ==> log[i].now <= timer
  }

  /** While there have been fewer than 2^32 accesses, the timer counts them and the
      stamps of every level are in order. */
  ghost predicate Timed(st: SimState, logs: seq<seq<Event>>) {
    Total(logs) < TWO32 ==> st.timer == Total(logs) && forall l :: 0 <= l < |logs| ==> InOrder(logs[l], st.timer)
  }

  lemma TouchTimed(gs: seq<Geometry>, p: Policy, tr: seq<MemAccess>, st: SimState, logs: seq<seq<Event>>, i: nat,
      k: nat)
    requires StateOk(gs, st) && Timed(st, logs) && i < |tr| && k < |gs| == |logs|
    ensures Timed(Touch(gs, p, tr, st, i, k), TouchLogs(logs, st.timer, i, k))
  {
    hide Access, Total;
    var logs' := TouchLogs(logs, st.timer, i, k);
    TotalTouch(logs, k, Event(i, (st.timer + 1) % TWO32));
    if Total(logs') < TWO32 {
      forall l | 0 <= l < |logs| ensures InOrder(logs'[l], st.timer + 1) {
        assert InOrder(logs[l], st.timer);
      }
    }
  }

  lemma {:induction false} OfferTimed(gs: seq<Geometry>, p: Policy, tr: seq<MemAccess>, st: SimState,
      logs: seq<seq<Event>>, i: nat, k: nat)
    requires StateOk(gs, st) && Timed(st, logs) && i < |tr| && k < |gs| == |logs|
    ensures Timed(OfferTo(gs, p, tr, st, i, k), OfferLogs(gs, p, tr, st, logs, i, k))
    decreases |gs| - k
  {
    TouchTimed(gs, p, tr, st, logs, i, k);
    var st' := Touch(gs, p, tr, st, i, k);
    if k + 1 < |gs| && HandsOn(st, st', k) {
      OfferTimed(gs, p, tr, st', TouchLogs(logs, st.timer, i, k), i, k + 1);
    }
  }

  /** Which logs `OfferTo` from level `k` can have changed: none above `k`, and each
      other by at most one event for entry `i`. */
  lemma {:induction false} OfferGrowth(gs: seq<Geometry>, p: Policy, tr: seq<MemAccess>, st: SimState,
      logs: seq<seq<Event>>, i: nat, k: nat)
    requires StateOk(gs, st) && i < |tr| && k < |gs| == |logs|
    ensures var logs' := OfferLogs(gs, p, tr, st, logs, i, k);
      && (forall l :: 0 <= l < k ==> logs'[l] == logs[l])
      && logs'[k] == logs[k] + [Event(i, (st.timer + 1) % TWO32)]
      && (forall l :: k <= l < |logs| ==> |logs'[l]| <= |logs[l]| + 1)
    decreases |gs| - k
  {
    var st' := Touch(gs, p, tr, st, i, k);
    if k + 1 < |gs| && HandsOn(st, st', k) {
      OfferGrowth(gs, p, tr, st', TouchLogs(logs, st.timer, i, k), i, k + 1);
    }
  }

  /** What the logs of a simulation of `n` trace entries are. */
  ghost predicate Faithful(gs: seq<Geometry>, p: Policy, tr: seq<MemAccess>, st: SimState, logs: seq<seq<Event>>,
      n: nat)
    requires |gs| >= 1
  {
    && Mirrors(gs, p, tr, st, logs)
    && Fed(gs, p, tr, logs)
    && Timed(st, logs)
    && |logs[0]| == n && (forall k :: 0 <= k < n ==> logs[0][k].idx == k)
    && forall l :: 0 <= l < |logs| ==> |logs[l]| <= n
  }

  lemma StartFaithful(gs: seq<Geometry>, p: Policy, tr: seq<MemAccess>)
    requires AllOk(gs)
    ensures Faithful(gs, p, tr, Simulate(gs, p, tr, 0), SimLogs(gs, p, tr, 0), 0)
  {
    var logs := SimLogs(gs, p, tr, 0);
    forall l | 0 <= l < |gs| ensures Mirror(gs[l], p, tr, Empties(gs)[l], logs[l]) {}
    forall l | 0 < l < |logs| ensures FedAt(gs[l - 1], p, tr, logs[l - 1], logs[l], []) {}
    TotalZero(logs);
  }

  lemma {:induction false} TotalZero(logs: seq<seq<Event>>)
    requires forall l :: 0 <= l < |logs| ==> logs[l] == []
    ensures Total(logs) == 0
  {
    if logs != [] { TotalZero(logs[..|logs| - 1]); }
  }

  lemma OfferFaithful(gs: seq<Geometry>, p: Policy, tr: seq<MemAccess>, st: SimState, logs: seq<seq<Event>>, n: nat)
    requires |gs| >= 1 && Faithful(gs, p, tr, st, logs, n) && n < |tr| < TWO64 - 1
    ensures Faithful(gs, p, tr, OfferTo(gs, p, tr, st, n, 0), OfferLogs(gs, p, tr, st, logs, n, 0), n + 1)
  {
    OfferMirrors(gs, p, tr, st, logs, n, 0);
    NothingPending(gs, p, tr, logs, n, 0);
    OfferFed(gs, p, tr, st, logs, n, 0);
    OfferTimed(gs, p, tr, st, logs, n, 0);
    OfferGrowth(gs, p, tr, st, logs, n, 0);
  }

  /** Simulating a whole trace: each level replays its log, the first serves every
      entry in order, and each other is fed by the one above. */
  lemma {:induction false} SimulationIsFaithful(gs: seq<Geometry>, p: Policy, tr: seq<MemAccess>, n: nat)
    requires AllOk(gs) && n <= |tr| < TWO64 - 1
    ensures Faithful(gs, p, tr, Simulate(gs, p, tr, n), SimLogs(gs, p, tr, n), n)
  {
    if n == 0 {
      StartFaithful(gs, p, tr);
    } else {
      SimulationIsFaithful(gs, p, tr, n - 1);
      OfferFaithful(gs, p, tr, Simulate(gs, p, tr, n - 1), SimLogs(gs, p, tr, n - 1), n - 1);
    }
  }

  // ---- conservation ----

  function SumHits(ls: seq<Level>): nat {
    if ls == [] then 0 else SumHits(ls[..|ls| - 1]) + ls[|ls| - 1].hits
  }

  /** A level's counters add up to the accesses it served. */
  lemma CountersAddUp(g: Geometry, p: Policy, tr: seq<MemAccess>, l: Level, log: seq<Event>)
    requires Mirror(g, p, tr, l, log) && |log| < TWO64
    ensures l.hits == HitCount(g, p, tr, log, |log|) && l.hits + l.misses == |log|
  {
    assert log[..|log|] == log;
    Counters(g, p, tr, log, |log|);
  }

  /** The accesses of a lower level are the misses of the level above it exactly when
      no miss comes after 2^32 hits. */
  lemma {:induction false} ServedAreMisses(g: Geometry, p: Policy, tr: seq<MemAccess>, l: Level, upper: seq<Event>,
      lower: seq<Event>)
    requires Mirror(g, p, tr, l, upper) && FedAt(g, p, tr, upper, lower, []) && |upper| < TWO64
    ensures |lower| == l.misses <==> forall k :: 0 <= k < |upper| ==> !LateMiss(g, p, tr, upper, k)
  {
    CountersAddUp(g, p, tr, l, upper);
    assert |Positions(lower) + []| == |lower|;
    MissesAreForwarded(g, p, tr, upper, |upper|);
  }

  /** The first access misses, so hits are always behind. */
  lemma {:induction false} HitsBehind(g: Geometry, p: Policy, tr: seq<MemAccess>, log: seq<Event>, n: nat)
    requires g.Ok() && LogOk(tr, log) && 0 < n <= |log|
    ensures HitCount(g, p, tr, log, n) < n
  {
    if n == 1 {
      ReplayNothing(g, p, tr, log);
      assert !HitAt(g, p, tr, log, 0);
      assert HitCount(g, p, tr, log, 0) == 0;
    } else {
      HitsBehind(g, p, tr, log, n - 1);
    }
  }

  lemma NoLateMiss(g: Geometry, p: Policy, tr: seq<MemAccess>, log: seq<Event>)
    requires g.Ok() && LogOk(tr, log) && |log| <= TWO32 + 1
    ensures forall k :: 0 <= k < |log| ==> !LateMiss(g, p, tr, log, k)
  {
    hide HitCount, HitAt;
    forall k | 0 <= k < |log| ensures !LateMiss(g, p, tr, log, k) {
      if k > 0 { HitsBehind(g, p, tr, log, k); }
    }
  }

  lemma LevelConserves(gs: seq<Geometry>, p: Policy, tr: seq<MemAccess>, st: SimState, logs: seq<seq<Event>>,
      n: nat, l: nat)
    requires AllOk(gs) && Faithful(gs, p, tr, st, logs, n) && n <= TWO32 + 1 && l < |gs|
    ensures var served := if l == 0 then n else st.levels[l - 1].misses;
      st.levels[l].hits + st.levels[l].misses == served
  {
    assert Mirror(gs[l], p, tr, st.levels[l], logs[l]);
    CountersAddUp(gs[l], p, tr, st.levels[l], logs[l]);
    if l > 0 {
      var u := l - 1;
      assert FedAt(gs[u], p, tr, logs[u], logs[l], []) by { assert Fed(gs, p, tr, logs); }
      assert Mirror(gs[u], p, tr, st.levels[u], logs[u]);
      NoLateMiss(gs[u], p, tr, logs[u]);
      ServedAreMisses(gs[u], p, tr, st.levels[u], logs[u], logs[l]);
    }
  }

  /** The accesses of level `l` are the misses of the level above it. */
  predicate PassesDown(ls: seq<Level>, l: nat)
    requires 0 < l < |ls|
  {
    ls[l].hits + ls[l].misses == ls[l - 1].misses
  }

  lemma SimulatedLevelConserves(gs: seq<Geometry>, p: Policy, tr: seq<MemAccess>, l: nat)
    requires AllOk(gs) && |tr| <= TWO32 + 1 && l < |gs|
    ensures var ls := Simulate(gs, p, tr, |tr|).levels;
      if l == 0 then ls[0].hits + ls[0].misses == |tr| else PassesDown(ls, l)
  {
    SimulationIsFaithful(gs, p, tr, |tr|);
    LevelConserves(gs, p, tr, Simulate(gs, p, tr, |tr|), SimLogs(gs, p, tr, |tr|), |tr|, l);
  }

  /** Conservation for any number of levels and a trace of at most 2^32 + 1 entries: the
      first level serves every entry, each other level the misses of the one above,
      and hits anywhere plus visits to RAM make up the trace. */
  lemma {:induction false} Conservation(gs: seq<Geometry>, p: Policy, tr: seq<MemAccess>)
    requires AllOk(gs) && |tr| <= TWO32 + 1
    ensures var ls := Simulate(gs, p, tr, |tr|).levels;
      && ls[0].hits + ls[0].misses == |tr|
      && (forall l :: 0 < l < |ls| ==> PassesDown(ls, l))
      && SumHits(ls) + ls[|ls| - 1].misses == |tr|
  {
    var ls := Simulate(gs, p, tr, |tr|).levels;
    SimulatedLevelConserves(gs, p, tr, 0);
    forall l | 0 < l < |ls| ensures PassesDown(ls, l) { SimulatedLevelConserves(gs, p, tr, l); }
    HitsTelescope(ls, |tr|);
  }

  lemma {:induction false} HitsTelescope(ls: seq<Level>, n: nat)
    requires |ls| >= 1 && ls[0].hits + ls[0].misses == n
    requires forall l :: 0 < l < |ls| ==> PassesDown(ls, l)
    ensures SumHits(ls) + ls[|ls| - 1].misses == n
  {
    var last := |ls| - 1;
    if last > 0 {
      forall l | 0 < l < last ensures PassesDown(ls[..last], l) { assert PassesDown(ls, l); }
      HitsTelescope(ls[..last], n);
      assert PassesDown(ls, last);
    } else {
      assert ls[..0] == [];
    }
  }
}
