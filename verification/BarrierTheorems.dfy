/** What the phase barrier promises over whole runs. */
module BarrierTheorems {
  import opened OrchestratorMonitor
  import opened Barrier
  import opened BarrierInvariant

  ghost predicate Reachable(w: Workload, s: State) {
    exists steps :: Admissible(w, Init(w), steps) && After(w, Init(w), steps) == s
  }

  lemma ReachableInv(w: Workload, s: State)
    requires Reachable(w, s)
    ensures Inv(w, s)
  {
    var steps :| Admissible(w, Init(w), steps) && After(w, Init(w), steps) == s;
    InitInv(w);
    RunKeepsInv(w, Init(w), steps);
  }

  // Lockstep

  /** Between the return of awaitPhaseStart and the increment of the outer iterator. */
  predicate InPhase(pc: Pc) {
    pc.Entered? || pc.Check? || pc.Decide? || pc.Body? || pc.Leave?
  }

  /** Up to the first abort, all actors inside a phase are inside the same phase. */
  lemma Lockstep(w: Workload, s: State, a: nat, b: nat)
    requires Reachable(w, s) && !s.m.errors
    requires a < |s.actors| && b < |s.actors| && InPhase(s.actors[a].pc) && InPhase(s.actors[b].pc)
    ensures s.actors[a].pc.phase == s.actors[b].pc.phase <= w.max
    ensures s.actors[a].pc.phase == s.m.current || s.actors[a].pc.phase + 1 == s.m.current
  {
    ReachableInv(w, s);
    assert ActorOk(w, s.m, s.failed, a, s.actors[a]);
    assert ActorOk(w, s.m, s.failed, b, s.actors[b]);
  }

  /** An actor holds a token exactly when it has called awaitPhaseStart once more than awaitPhaseEnd. */
  predicate Balanced(w: Workload, a: nat, x: Actor) {
    x.starts == x.ends + if Holds(w, a, x.pc) then 1 else 0
  }

  ghost predicate AllBalanced(w: Workload, s: State) {
    forall a :: 0 <= a < |s.actors| ==> Balanced(w, a, s.actors[a])
  }

  lemma MoverStaysBalanced(w: Workload, s: State, a: nat, e: Event)
    requires Enabled(w, s, a, e) && Balanced(w, a, s.actors[a])
    ensures |Apply(w, s, a, e).actors| == |s.actors| && Balanced(w, a, Apply(w, s, a, e).actors[a])
  {
  }

  lemma StepKeepsBalance(w: Workload, s: State, a: nat, e: Event)
    requires AllBalanced(w, s) && Enabled(w, s, a, e)
    ensures AllBalanced(w, Apply(w, s, a, e))
  {
    MoverStaysBalanced(w, s, a, e);
    forall b | 0 <= b < |s.actors| && b != a
      ensures Balanced(w, b, Apply(w, s, a, e).actors[b])
    {
      assert Balanced(w, b, s.actors[b]);
      OthersOnlyNotified(w, s, a, e, b);
    }
  }

  lemma {:induction false} RunKeepsBalance(w: Workload, s: State, steps: seq<Step>)
    requires AllBalanced(w, s) && Admissible(w, s, steps)
    ensures AllBalanced(w, After(w, s, steps))
    decreases |steps|
  {
    if steps != [] {
      StepKeepsBalance(w, s, steps[0].actor, steps[0].event);
      RunKeepsBalance(w, Apply(w, s, steps[0].actor, steps[0].event), steps[1..]);
    }
  }

  /**
   In every reachable state, by the history of calls: no actor is more than one awaitPhaseStart ahead of its
   awaitPhaseEnds, and the token count is the number of actors that are one ahead.
   */
  lemma TokensCounted(w: Workload, s: State)
    requires Reachable(w, s)
    ensures forall a :: 0 <= a < |s.actors| ==> s.actors[a].ends <= s.actors[a].starts <= s.actors[a].ends + 1
    ensures s.m.currentTokens == |set a: nat | a < |s.actors| && s.actors[a].starts > s.actors[a].ends|
    ensures 0 <= s.m.currentTokens <= |w.phaseMaps|
  {
    ReachableInv(w, s);
    HeldIsCardinality(w, s.actors);
    var steps :| Admissible(w, Init(w), steps) && After(w, Init(w), steps) == s;
    RunKeepsBalance(w, Init(w), steps);
    assert forall a :: 0 <= a < |s.actors| ==> Balanced(w, a, s.actors[a]);
    assert (set a: nat | a < |s.actors| && Holds(w, a, s.actors[a].pc))
        == (set a: nat | a < |s.actors| && s.actors[a].starts > s.actors[a].ends);
  }

  lemma {:induction false} HeldIsCardinality(w: Workload, actors: seq<Actor>)
    ensures Held(w, actors) == |set a: nat | a < |actors| && Holds(w, a, actors[a].pc)|
  {
    if actors != [] {
      var last := |actors| - 1;
      HeldIsCardinality(w, actors[..last]);
      var before := set a: nat | a < last && Holds(w, a, actors[..last][a].pc);
      var all := set a: nat | a < |actors| && Holds(w, a, actors[a].pc);
      assert all == before + if Holds(w, last, actors[last].pc) then {last} else {};
    }
  }

  /** Neither assertion of the monitor fails: a start is called in an ended phase, an end in a started one. */
  lemma AssertionsHold(w: Workload, s: State, a: nat)
    requires Reachable(w, s) && a < |s.actors|
    ensures s.actors[a].pc.AtStart? ==> s.m.state == PhaseEnded || s.m.errors
    ensures s.actors[a].pc.Entered? || (s.actors[a].pc.Leave? && Blocks(w, a, s.actors[a].pc.phase)) ==>
              s.m.state == PhaseStarted || s.m.errors
  {
    ReachableInv(w, s);
    assert ActorOk(w, s.m, s.failed, a, s.actors[a]);
  }

  /** Up to the first abort the phase counter is at most one past the last phase, so it cannot wrap around. */
  lemma PhaseCounterBounded(w: Workload, s: State)
    requires Reachable(w, s) && !s.m.errors
    ensures s.m.current <= w.max + 1
  {
    ReachableInv(w, s);
  }

  // Completion

  /**
   If no actor threw, every actor that left run() has entered each phase 0 .. max once and in order,
   and once anybody aborted every actor has, wherever it is still unwinding.
   */
  lemma Completion(w: Workload, s: State, a: nat)
    requires Reachable(w, s) && !s.failed && a < |s.actors|
    requires s.m.errors || s.actors[a].pc.Exiting? || s.actors[a].pc.Finished?
    ensures s.actors[a].entered == Upto(w.max + 1)
  {
    ReachableInv(w, s);
    assert ActorOk(w, s.m, s.failed, a, s.actors[a]);
  }

  /** At any earlier moment an actor has entered an initial segment of the phases, never ahead of the monitor. */
  lemma PhasesInOrder(w: Workload, s: State, a: nat)
    requires Reachable(w, s) && !s.m.errors && a < |s.actors| && !s.actors[a].pc.Exiting?
    ensures s.actors[a].entered == Upto(s.m.current) || s.actors[a].entered == Upto(s.m.current + 1)
  {
    ReachableInv(w, s);
    assert ActorOk(w, s.m, s.failed, a, s.actors[a]);
  }

  // The history of calls

  /** How many steps of a schedule are this event of this actor. */
  function Count(steps: seq<Step>, a: nat, e: Event): nat {
    if steps == [] then 0 else (if steps[0] == Step(a, e) then 1 else 0) + Count(steps[1..], a, e)
  }

  lemma StepCounts(w: Workload, s: State, a: nat, e: Event, b: nat)
    requires Enabled(w, s, a, e) && b < |s.actors|
    ensures |Apply(w, s, a, e).actors| == |s.actors|
    ensures var x, y := s.actors[b], Apply(w, s, a, e).actors[b];
            && y.starts == x.starts + (if a == b && e == CallStart then 1 else 0)
            && y.bodies == x.bodies + (if a == b && e == DecideDone(false) then 1 else 0)
  {
    if a != b {
      OthersOnlyNotified(w, s, a, e, b);
    }
  }

  /** An actor's history counts its calls of awaitPhaseStart and the bodies it began. */
  lemma {:induction false} HistoryCounts(w: Workload, s: State, steps: seq<Step>, b: nat)
    requires Admissible(w, s, steps) && b < |s.actors|
    ensures |After(w, s, steps).actors| == |s.actors|
    ensures After(w, s, steps).actors[b].starts == s.actors[b].starts + Count(steps, b, CallStart)
    ensures After(w, s, steps).actors[b].bodies == s.actors[b].bodies + Count(steps, b, DecideDone(false))
    decreases |steps|
  {
    if steps != [] {
      StepCounts(w, s, steps[0].actor, steps[0].event, b);
      HistoryCounts(w, Apply(w, s, steps[0].actor, steps[0].event), steps[1..], b);
    }
  }

  /**
   awaitPhaseStart answers with the phase that was current when it was called, aborted or not: a call that returns at
   once enters the monitor's phase, one that waits remembers it, and the wake-up that ends the wait enters that one.
   */
  lemma EntersPhaseOfCall(w: Workload, s: State, a: nat, e: Event)
    requires Enabled(w, s, a, e)
    ensures |Apply(w, s, a, e).actors| == |s.actors|
    ensures var x, y := s.actors[a], Apply(w, s, a, e).actors[a];
            && (e.CallStart? ==> (y.pc.WaitStart? || y.pc.Entered?) && y.pc.phase == s.m.current)
            && (e.Wake? && x.pc.WaitStart? ==> (y.pc.WaitStart? || y.pc.Entered?) && y.pc.phase == x.pc.phase)
            && y.entered == x.entered + if y.pc.Entered? then [y.pc.phase] else []
  {
  }

  // Hooks

  /** The n-th hook round is start n/2 or stop n/2. */
  lemma {:induction false} HooksAlternate(phases: nat, open: bool)
    ensures |HooksUpto(phases, open)| == 2 * phases + if open then 1 else 0
    ensures forall i :: 0 <= i < |HooksUpto(phases, open)| ==>
              HooksUpto(phases, open)[i] == if i % 2 == 0 then StartHooks(i / 2) else StopHooks(i / 2)
    decreases phases, open
  {
    if open {
      HooksAlternate(phases, false);
    } else if phases > 0 {
      HooksAlternate(phases - 1, true);
    }
  }

  /** Up to the first abort the hook log is start 0, stop 0, start 1, stop 1, ... up to the current phase. */
  lemma HookDiscipline(w: Workload, s: State)
    requires Reachable(w, s) && !s.m.errors
    ensures |s.m.hookLog| == 2 * s.m.current + if s.m.state == PhaseStarted then 1 else 0
    ensures forall i :: 0 <= i < |s.m.hookLog| ==>
              s.m.hookLog[i] == if i % 2 == 0 then StartHooks(i / 2) else StopHooks(i / 2)
  {
    ReachableInv(w, s);
    HooksAlternate(s.m.current, s.m.state == PhaseStarted);
  }

  /** A step of an unaborted run that fires start hooks finds every actor inside awaitPhaseStart. */
  lemma StartHooksFireAlone(w: Workload, s: State, a: nat, e: Event)
    requires Reachable(w, s) && !s.m.errors && Enabled(w, s, a, e)
    requires Apply(w, s, a, e).m.hookLog == s.m.hookLog + [StartHooks(s.m.current)]
    ensures e.CallStart?
    ensures forall b :: 0 <= b < |s.actors| && b != a ==> s.actors[b].pc.WaitStart?
  {
    ReachableInv(w, s);
    var log := Apply(w, s, a, e).m.hookLog;
    assert log[|log| - 1].StartHooks? && |log| > |s.m.hookLog|;
    AllWaitAtStart(w, s, a);
  }

  // Waiting

  /** A sleeping waiter never has its condition satisfied: no wake-up is lost, before or after an abort. */
  lemma NoLostWakeup(w: Workload, s: State, a: nat)
    requires Reachable(w, s) && a < |s.actors| && Asleep(s.actors[a].pc)
    ensures if s.actors[a].pc.WaitStart? then AwaitsStart(s.m) else AwaitsEnd(s.m)
  {
    ReachableInv(w, s);
    assert ActorOk(w, s.m, s.failed, a, s.actors[a]);
  }

  predicate AllFinished(s: State) {
    forall a :: 0 <= a < |s.actors| ==> s.actors[a].pc.Finished?
  }

  predicate Live(pc: Pc) {
    !Asleep(pc) && !pc.Finished?
  }

  /** Some actor is neither asleep nor finished, as long as not all are finished. */
  lemma SomebodyLive(w: Workload, s: State)
    requires Inv(w, s) && !AllFinished(s)
    ensures exists a :: 0 <= a < |s.actors| && Live(s.actors[a].pc)
  {
    if forall a :: 0 <= a < |s.actors| ==> !Live(s.actors[a].pc) {
      HeldExtremes(w, s.actors);
      forall a | 0 <= a < |s.actors|
        ensures !s.m.errors && Asleep(s.actors[a].pc)
        ensures Holds(w, a, s.actors[a].pc) == (s.m.state == PhaseEnded)
      {
        assert ActorOk(w, s.m, s.failed, a, s.actors[a]);
        var b :| 0 <= b < |s.actors| && !s.actors[b].pc.Finished?;
        assert ActorOk(w, s.m, s.failed, b, s.actors[b]) && !Live(s.actors[b].pc);
        assert !Live(s.actors[a].pc);
      }
      assert false;
    }
  }

  /** The step a live actor takes next; every decision to be taken is "done" where there is a choice. */
  function NextEvent(w: Workload, s: State, a: nat): (e: Event)
    requires a < |s.actors| && Live(s.actors[a].pc)
    ensures Enabled(w, s, a, e) && !e.Spurious? && !e.Throw?
  {
    var pc := s.actors[a].pc;
    match pc
    case Ready => TestMorePhases
    case AtStart => CallStart
    case WaitStart(_, _) => Wake
    case Entered(_) => Resolve
    case Check(_) => ReadErrors
    case Decide(p) => DecideDone(Blocks(w, a, p) || s.m.current != p)
    case Body(_) => EndBody
    case Leave(_) => CallEnd
    case WaitEnd(_, _) => Wake
    case Exiting(_) => CallAbort
  }

  /** Deadlock freedom: until all actors have finished, some actor has a step that is no spurious wake-up. */
  lemma DeadlockFree(w: Workload, s: State)
    requires Reachable(w, s) && !AllFinished(s)
    ensures exists a, e :: Enabled(w, s, a, e) && !e.Spurious? && !e.Throw?
  {
    ReachableInv(w, s);
    SomebodyLive(w, s);
    var a :| 0 <= a < |s.actors| && Live(s.actors[a].pc);
    var e := NextEvent(w, s, a);
    assert Enabled(w, s, a, e);
  }
}
