/** Run, pause and step control of the CPU driver: three interrupt threads and one
    reader race over three atomic variables. Each atomic access is one step, and a
    run is any interleaving of them. */
module Control {

  /** Where `cpu_read` is. `Admitted` has got past `wait_event_interruptible`, by the
      pause flag or by a step token; `Execute` is about to execute an instruction. */
  datatype Reader =
    | Outside
    | ReadRunning
    | ReadPaused
    | ReadSteps
    | Admitted(byToken: bool)
    | Decrement
    | Execute(paid: bool)

  /** The atomics, the reader, the step interrupt thread (`pressSeen` once it has found
      the CPU paused and sleeps), and counts that only the specification uses. */
  datatype State = State(
    running: bool, paused: bool, stepCount: int,
    reader: Reader, pressSeen: bool,
    accepted: nat, consumed: nat, executed: nat,
    sincePause: SincePause)

  /** Counts since the last time the pause switch was turned on, the tokens held then,
      and whether the reader was then bound to execute without one. */
  datatype SincePause = SincePause(unpaid: nat, paid: nat, accepted: nat, tokensThen: int, inFlight: bool)

  datatype Event =
    | RunEdge(level: bool)            // run_irq_thread
    | PauseEdge(level: bool)          // pause_irq_thread
    | StepEdge                        // step_irq_thread reads the pause flag
    | StepWake(level: bool)           // ... and after its sleep the input device
    | Call                            // the client calls read
    | Signal                          // a signal ends the wait
    | Move                            // the reader's next atomic access or action

  /** The reader is past the pause test and past, or about to find nothing at, the test
      of the step count. */
  predicate Free(s: State) {
    s.reader == Execute(false) || (s.reader == Admitted(false) && s.stepCount == 0)
  }

  /** `cpu_open` by the only client: the switches give the flags, the step count is
      whatever earlier sessions left. */
  predicate Init(s: State) {
    && s.stepCount >= 0 && s.reader == Outside && !s.pressSeen
    && s.accepted == 0 && s.consumed == 0 && s.executed == 0
    && s.sincePause == SincePause(0, 0, 0, s.stepCount, false)
  }

  function ReaderMove(s: State): State {
    match s.reader
    case Outside => s
    case ReadRunning => if s.running then s.(reader := ReadPaused) else s
    case ReadPaused => if s.paused then s.(reader := ReadSteps) else s.(reader := Admitted(false))
    case ReadSteps => if s.stepCount > 0 then s.(reader := Admitted(true)) else s.(reader := ReadRunning)
    case Admitted(_) => if s.stepCount > 0 then s.(reader := Decrement) else s.(reader := Execute(false))
    case Decrement => s.(stepCount := s.stepCount - 1, consumed := s.consumed + 1, reader := Execute(true))
    case Execute(paid) =>
      s.(executed := s.executed + 1, reader := Outside,
         sincePause := if paid then s.sincePause.(paid := s.sincePause.paid + 1)
                       else s.sincePause.(unpaid := s.sincePause.unpaid + 1))
  }

  function Next(s: State, e: Event): State {
    match e
    case RunEdge(level) => if level then s.(running := true) else s
    case PauseEdge(level) =>
      if level then
        s.(paused := true,
           sincePause := if s.paused then s.sincePause
                         else SincePause(0, 0, 0, Held(s), Free(s)))
      else s.(paused := false)
    case StepEdge => if s.paused && !s.pressSeen then s.(pressSeen := true) else s
    case StepWake(level) =>
      if !s.pressSeen then s
      else if level then
        s.(pressSeen := false, stepCount := s.stepCount + 1, accepted := s.accepted + 1,
           sincePause := s.sincePause.(accepted := s.sincePause.accepted + 1))
      else s.(pressSeen := false)
    case Call => if s.reader == Outside then s.(reader := ReadRunning) else s
    case Signal => if s.reader.ReadRunning? then s.(reader := Outside) else s
    case Move => ReaderMove(s)
  }

  /** Tokens in the counter, and one taken but not yet executed on. */
  function Held(s: State): int {
    s.stepCount + if s.reader == Execute(true) then 1 else 0
  }

  function Run(s: State, events: seq<Event>): State {
    if events == [] then s else Next(Run(s, events[..|events| - 1]), events[|events| - 1])
  }

  /** What every interleaving keeps. */
  predicate Inv(start: State, s: State) {
    && s.stepCount >= 0
    && (s.reader == Admitted(true) || s.reader == Decrement ==> s.stepCount > 0)
    // a token is consumed only if it was there: presses are neither lost nor invented
    && s.consumed + s.stepCount == s.accepted + start.stepCount
    // the reader gets past the wait only when running
    && (start.running ==> s.running)
    && ((!s.reader.Outside? && !s.reader.ReadRunning?) || s.executed > 0 ==> s.running)
    && (s.paused ==> PauseInv(s))
  }

  /** While paused: at most the one instruction already on its way runs for free, and the
      others are paid for by tokens held at the pause or accepted since. */
  predicate PauseInv(s: State) {
    var p := s.sincePause;
    && p.unpaid + (if Free(s) then 1 else 0) <= (if p.inFlight then 1 else 0)
    && p.paid + Held(s) <= p.tokensThen + p.accepted
  }

  lemma NextKeepsInv(start: State, s: State, e: Event)
    requires Inv(start, s)
    ensures Inv(start, Next(s, e))
  {}

  lemma {:induction false} RunKeepsInv(start: State, events: seq<Event>)
    requires Init(start)
    ensures Inv(start, Run(start, events))
  {
    if events != [] {
      RunKeepsInv(start, events[..|events| - 1]);
      NextKeepsInv(start, Run(start, events[..|events| - 1]), events[|events| - 1]);
    }
  }

  /** The step count never goes negative, and every accepted press is either still in
      it or was consumed by exactly one instruction's turn. */
  lemma {:induction false} TokensConserved(start: State, events: seq<Event>)
    requires Init(start)
    ensures var s := Run(start, events);
      s.stepCount >= 0 && s.consumed + s.stepCount == s.accepted + start.stepCount
  {
    RunKeepsInv(start, events);
  }

  lemma {:induction false} RunningIsSet(start: State, events: seq<Event>)
    requires !start.running && RunEdge(true) !in events
    ensures !Run(start, events).running
  {
    if events != [] {
      RunningIsSet(start, events[..|events| - 1]);
    }
  }

  /** Nothing executes before the run switch has been turned on. */
  lemma {:induction false} NothingBeforeRun(start: State, events: seq<Event>)
    requires Init(start) && !start.running && RunEdge(true) !in events
    ensures Run(start, events).executed == 0
  {
    RunKeepsInv(start, events);
    RunningIsSet(start, events);
  }

  lemma {:induction false} RunAppend(s: State, a: seq<Event>, b: seq<Event>)
    ensures Run(s, a + b) == Run(Run(s, a), b)
  {
    if b == [] {
      assert a + b == a;
    } else {
      RunAppend(s, a, b[..|b| - 1]);
      assert (a + b)[..|a + b| - 1] == a + b[..|b| - 1];
    }
  }

  lemma PauseStep(s: State, e: Event)
    requires s.paused && e != PauseEdge(false)
    ensures var s' := Next(s, e); var p, p' := s.sincePause, s'.sincePause;
      && s'.paused && p'.inFlight == p.inFlight && p'.tokensThen == p.tokensThen
      && p'.unpaid + p'.paid - s'.executed == p.unpaid + p.paid - s.executed
      && p'.accepted - s'.accepted == p.accepted - s.accepted
  {}

  /** While the pause lasts, the counts since its beginning are differences of totals. */
  lemma {:induction false} PauseCounts(s: State, events: seq<Event>)
    requires !s.paused && PauseEdge(false) !in events
    ensures var s' := Run(Next(s, PauseEdge(true)), events); var p := s'.sincePause;
      && s'.paused && p.inFlight == Free(s) && p.tokensThen == Held(s)
      && p.unpaid + p.paid == s'.executed - s.executed
      && p.accepted == s'.accepted - s.accepted
  {
    hide ReaderMove;
    if events != [] {
      var before, e := events[..|events| - 1], events[|events| - 1];
      PauseCounts(s, before);
      assert e in events;
      PauseStep(Run(Next(s, PauseEdge(true)), before), e);
    }
  }

  /** What a pause beginning now can still let through without a further press. */
  function Budget(s: State): int {
    Held(s) + if Free(s) then 1 else 0
  }

  /** The run through `before`, a pause edge, and `during`. */
  function Paused(start: State, before: seq<Event>, during: seq<Event>): State {
    Run(start, before + [PauseEdge(true)] + during)
  }

  lemma PausedSplits(start: State, before: seq<Event>, during: seq<Event>)
    ensures Paused(start, before, during) == Run(Next(Run(start, before), PauseEdge(true)), during)
  {
    RunOn(start, before, PauseEdge(true));
    RunAppend(start, before + [PauseEdge(true)], during);
  }

  /** From a pause edge until the switch is turned off again, under any interleaving: at
      most one instruction executes without a token, and none unless it was already bound
      to; the others are covered by tokens held at the edge or pressed since. */
  lemma {:induction false} PausedExecutions(start: State, before: seq<Event>, during: seq<Event>)
    requires Init(start) && !Run(start, before).paused && PauseEdge(false) !in during
    ensures var s, s' := Run(start, before), Paused(start, before, during);
      && s'.sincePause.unpaid <= (if Free(s) then 1 else 0)
      && s'.executed - s.executed <= Budget(s) + (s'.accepted - s.accepted)
  {
    hide Run, Inv;
    PausedSplits(start, before, during);
    PauseCounts(Run(start, before), during);
    RunKeepsInv(start, before + [PauseEdge(true)] + during);
    PausePaid(start, Paused(start, before, during));
    assert Held(Paused(start, before, during)) >= 0;
  }

  lemma PausePaid(start: State, s: State)
    requires Inv(start, s) && s.paused
    ensures PauseInv(s) && s.stepCount >= 0
  {}

  function Rank(r: Reader): nat {
    match r
    case Outside => 6
    case ReadRunning => 5
    case ReadPaused => 4
    case ReadSteps => 3
    case Admitted(_) => 2
    case Decrement => 1
    case Execute(_) => 0
  }

  /** A paused reader called again and again spends the whole budget. */
  lemma {:induction false} Spend(s: State, es: seq<Event>) returns (during: seq<Event>)
    requires var p := Run(s, es);
      && p.paused && p.running && p.stepCount >= 0
      && (p.reader == Admitted(true) || p.reader == Decrement ==> p.stepCount > 0)
    requires PauseEdge(false) !in es
    ensures PauseEdge(false) !in during
    ensures var p, p' := Run(s, es), Run(s, during); p'.executed == p.executed + Budget(p) && p'.accepted == p.accepted
    decreases Budget(Run(s, es)), Rank(Run(s, es).reader)
  {
    hide Run;
    var p := Run(s, es);
    if Budget(p) == 0 {
      during := es;
    } else {
      var e := if p.reader == Outside then Call else Move;
      RunOn(s, es, e);
      during := Spend(s, es + [e]);
    }
  }

  /** The bound is reached: some interleaving lets the whole budget through with no press
      at all. */
  lemma {:induction false} BudgetReached(start: State, before: seq<Event>) returns (during: seq<Event>)
    requires Init(start) && !Run(start, before).paused
    ensures PauseEdge(false) !in during
    ensures var s, s' := Run(start, before), Paused(start, before, during);
      s'.executed == s.executed + Budget(s) && s'.accepted == s.accepted
  {
    hide Run;
    var s := Run(start, before);
    var p := Next(s, PauseEdge(true));
    RunKeepsInv(start, before);
    RunNothing(p);
    RunOn(p, [], RunEdge(true));
    during := Spend(p, [] + [RunEdge(true)]);
    PausedSplits(start, before, during);
  }

  /** `spare` instructions beyond the presses of the pause are enough for every course it
      can take. */
  ghost predicate Covers(start: State, before: seq<Event>, spare: int) {
    forall during: seq<Event> :: PauseEdge(false) !in during ==> CoversRun(start, before, spare, during)
  }

  ghost predicate CoversRun(start: State, before: seq<Event>, spare: int, during: seq<Event>) {
    var s, s' := Run(start, before), Paused(start, before, during);
    s'.executed - s.executed <= spare + (s'.accepted - s.accepted)
  }

  /** A pause from any reachable state never lets more than the pressed instructions and
      `spare` others through if and only if `spare` is at least the budget at its edge. In
      particular every instruction is paid for by a press of this pause exactly when no
      token is held and none is about to execute without one. */
  lemma {:induction false} PauseBudget(start: State, before: seq<Event>, spare: int)
    requires Init(start) && !Run(start, before).paused
    ensures Covers(start, before, spare) <==> spare >= Budget(Run(start, before))
    ensures Covers(start, before, 0) <==> Held(Run(start, before)) == 0 && !Free(Run(start, before))
  {
    hide Run;
    RunKeepsInv(start, before);
    var s := Run(start, before);
    var worst := BudgetReached(start, before);
    forall spare: int | Covers(start, before, spare) ensures spare >= Budget(s) {
      assert CoversRun(start, before, spare, worst);
    }
    forall spare: int | spare >= Budget(s) ensures Covers(start, before, spare) {
      forall during: seq<Event> | PauseEdge(false) !in during ensures CoversRun(start, before, spare, during) {
        PausedExecutions(start, before, during);
      }
    }
  }

  /** Such a pause exists: tokens outlive the pause they were pressed in, because the
      step thread may wake after it is over, and then a later pause lets an instruction
      through unpressed. */
  lemma {:induction false} StaleToken()
    ensures exists start: State, before: seq<Event> ::
      && Init(start) && start.stepCount == 0 && !Run(start, before).paused && !Free(Run(start, before))
      && !Covers(start, before, 0)
  {
    hide Run, Covers;
    var start := State(true, false, 0, Outside, false, 0, 0, 0, SincePause(0, 0, 0, 0, false));
    var s, before := StalePress(start);
    PauseBudget(start, before, 0);
  }

  /** A press whose thread wakes only after the pause. */
  lemma StalePress(start: State) returns (s: State, before: seq<Event>)
    requires start == State(true, false, 0, Outside, false, 0, 0, 0, SincePause(0, 0, 0, 0, false))
    ensures s == Run(start, before)
      == State(true, false, 1, Outside, false, 1, 0, 0, SincePause(0, 0, 1, 0, false))
  {
    hide Run;
    RunNothing(start);
    RunOn(start, [], PauseEdge(true));
    RunOn(start, [] + [PauseEdge(true)], StepEdge);
    RunOn(start, [] + [PauseEdge(true)] + [StepEdge], PauseEdge(false));
    before := [] + [PauseEdge(true)] + [StepEdge] + [PauseEdge(false)];
    RunOn(start, before, StepWake(true));
    before := before + [StepWake(true)];
    s := Run(start, before);
  }

  lemma RunNothing(s: State)
    ensures Run(s, []) == s
  {}

  lemma RunOn(s: State, es: seq<Event>, e: Event)
    ensures Run(s, es + [e]) == Next(Run(s, es), e)
  {
    assert (es + [e])[..|es|] == es;
  }

  // ---- the switches, and what they let through ----

  /** The pause switch's level: the one of its latest edge. */
  function PauseLevel(start: State, events: seq<Event>): bool {
    if events == [] then start.paused
    else if events[|events| - 1].PauseEdge? then events[|events| - 1].level
    else PauseLevel(start, events[..|events| - 1])
  }

  /** Under every interleaving the CPU is running once the run switch has been on, and for
      good, and it is paused as the pause switch is. */
  lemma {:induction false} SwitchesFollowed(start: State, events: seq<Event>)
    ensures Run(start, events).running <==> start.running || RunEdge(true) in events
    ensures Run(start, events).paused == PauseLevel(start, events)
  {
    if events != [] {
      var before, e := events[..|events| - 1], events[|events| - 1];
      SwitchesFollowed(start, before);
      assert events == before + [e];
    }
  }

  /** A press is accepted only if the CPU was paused when it began and the device still
      reads high when the thread wakes. */
  lemma {:induction false} PressAccepted(start: State, events: seq<Event>)
    requires Init(start)
    requires (!start.paused && PauseEdge(true) !in events) || StepEdge !in events || StepWake(true) !in events
    ensures Run(start, events).accepted == 0
    ensures (!start.paused && PauseEdge(true) !in events) || StepEdge !in events ==> !Run(start, events).pressSeen
    ensures !start.paused && PauseEdge(true) !in events ==> !Run(start, events).paused
  {
    if events != [] {
      var before, e := events[..|events| - 1], events[|events| - 1];
      assert events == before + [e];
      PressAccepted(start, before);
    }
  }

  /** The reader is not past its wait. */
  predicate Waiting(s: State) {
    match s.reader
    case Outside => true
    case ReadRunning => true
    case ReadPaused => s.running
    case ReadSteps => s.running
    case _ => false
  }

  /** The condition of the wait. */
  predicate Gate(s: State) {
    s.running && (!s.paused || s.stepCount > 0)
  }

  /** The client calls read, unless it waits already, and the reader makes `k` moves. */
  function Round(k: nat): (es: seq<Event>)
    ensures |es| == k + 1
  {
    if k == 0 then [Call] else Round(k - 1) + [Move]
  }

  lemma RoundBegins(s: State)
    ensures Run(s, Round(0)) == Next(s, Call)
  {
    RunNothing(s);
    RunOn(s, [], Call);
    assert [] + [Call] == Round(0);
  }

  lemma RoundMoves(s: State, k: nat)
    ensures Run(s, Round(k + 1)) == ReaderMove(Run(s, Round(k)))
  {
    RunOn(s, Round(k), Move);
  }

  /** What one executed instruction changes: it takes a token if there is one. */
  predicate OneMore(s: State, s': State) {
    && s'.reader == Outside && s'.executed == s.executed + 1
    && s'.consumed == s.consumed + (if s.stepCount > 0 then 1 else 0)
    && s'.stepCount == (if s.stepCount > 0 then s.stepCount - 1 else 0)
    && s'.running == s.running && s'.paused == s.paused && s'.accepted == s.accepted && s'.pressSeen == s.pressSeen
  }

  /** With the condition met, six moves of the reader execute one instruction. */
  lemma {:induction false} LetThrough(s: State)
    requires Waiting(s) && s.stepCount >= 0 && Gate(s)
    ensures OneMore(s, Run(s, Round(6)))
  {
    hide Run, Round;
    RoundBegins(s);
    RoundMoves(s, 0); RoundMoves(s, 1); RoundMoves(s, 2); RoundMoves(s, 3); RoundMoves(s, 4); RoundMoves(s, 5);
  }

  /** Otherwise it waits, and nothing changes, however many moves it makes. */
  lemma {:induction false} HeldBack(s: State, k: nat)
    requires Waiting(s) && s.stepCount >= 0 && !Gate(s)
    ensures var s' := Run(s, Round(k)); Waiting(s') && s'.reader != Outside && s' == s.(reader := s'.reader)
  {
    hide Run, Round;
    if k == 0 {
      RoundBegins(s);
    } else {
      HeldBack(s, k - 1);
      RoundMoves(s, k - 1);
    }
  }

  /** After any interleaving that leaves the reader waiting, its own moves execute an
      instruction if and only if the run switch has been on and either the pause switch is
      off or a token is left. */
  lemma {:induction false} GetsThrough(start: State, events: seq<Event>)
    requires Init(start) && Waiting(Run(start, events))
    ensures var s := Run(start, events);
      (exists k: nat :: Run(s, Round(k)).executed > s.executed) <==>
        && (start.running || RunEdge(true) in events)
        && (!PauseLevel(start, events) || start.stepCount + s.accepted > s.consumed)
  {
    hide Run, Round, Inv;
    var s := Run(start, events);
    SwitchesFollowed(start, events);
    TokensConserved(start, events);
    if Gate(s) {
      LetThrough(s);
      assert Run(s, Round(6)).executed > s.executed;
    } else {
      forall k: nat ensures Run(s, Round(k)).executed == s.executed { HeldBack(s, k); }
    }
  }

  // ---- several calls ----

  function Calls(n: nat): seq<Event> {
    if n == 0 then [] else Calls(n - 1) + Round(6)
  }

  function Least(a: int, b: int): int { if a < b then a else b }

  /** Left to itself for `n` calls, a running CPU executes `n` instructions unless it is
      paused; a paused one executes one for each token, and one that was never switched on
      none. Either way tokens are taken as long as there are some. */
  lemma {:induction false} CallsExecute(s: State, n: nat)
    requires Waiting(s) && s.stepCount >= 0
    ensures var s' := Run(s, Calls(n));
      var taken := if s.running then Least(n, s.stepCount) else 0;
      && Waiting(s') && s'.running == s.running && s'.paused == s.paused
      && s'.stepCount == s.stepCount - taken && s'.consumed == s.consumed + taken
      && s'.executed == s.executed + if s.running && !s.paused then n else taken
  {
    hide Run, Round;
    if n == 0 {
      RunNothing(s);
    } else {
      CallsExecute(s, n - 1);
      var p := Run(s, Calls(n - 1));
      RunAppend(s, Calls(n - 1), Round(6));
      if Gate(p) { LetThrough(p); } else { HeldBack(p, 6); }
    }
  }

  function Presses(n: nat): seq<Event> {
    if n == 0 then [] else Presses(n - 1) + [StepEdge] + [StepWake(true)]
  }

  /** Each press of the step button in a pause is a token. */
  lemma {:induction false} PressesCount(s: State, n: nat)
    requires s.paused && !s.pressSeen
    ensures var s' := Run(s, Presses(n));
      s' == s.(stepCount := s.stepCount + n, accepted := s.accepted + n, sincePause := s'.sincePause)
  {
    hide Run;
    if n == 0 {
      RunNothing(s);
    } else {
      PressesCount(s, n - 1);
      RunOn(s, Presses(n - 1), StepEdge);
      RunOn(s, Presses(n - 1) + [StepEdge], StepWake(true));
    }
  }

  /** Stepping: `k` presses in a pause let exactly `k` instructions through, beside the
      tokens there already, to a client that calls often enough. */
  lemma {:induction false} StepsThrough(s: State, k: nat, n: nat)
    requires Waiting(s) && s.running && s.paused && !s.pressSeen && s.stepCount >= 0
    ensures Run(s, Presses(k) + Calls(n)).executed == s.executed + Least(n, s.stepCount + k)
  {
    hide Run;
    PressesCount(s, k);
    RunAppend(s, Presses(k), Calls(n));
    CallsExecute(Run(s, Presses(k)), n);
  }
}
