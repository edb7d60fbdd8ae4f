/** How a run of the phase barrier ends: draining after an abort, and the way to the end from anywhere. */
module BarrierProgress {
  import opened OrchestratorMonitor
  import opened Barrier
  import opened BarrierInvariant
  import opened BarrierTheorems

  /**
   What the run is working on: getting everybody to the start, to the end of a phase, or out.  Closing is
   Running without counting how far an actor is inside an iteration.
   */
  datatype Stage = Gathering | Running | Closing | Draining

  function StageOf(m: Monitor): Stage {
    if m.errors then Draining else if m.state == PhaseEnded then Gathering else Running
  }

  /** How many sections an actor is away from the goal of the stage. */
  function Distance(w: Workload, stage: Stage, a: nat, pc: Pc): nat {
    match stage
    case Gathering => (match pc
      case Body(_) => 6 case Check(_) => 5 case Decide(_) => 4 case Leave(_) => 3 case WaitEnd(_, _) => 3
      case Ready => 2 case AtStart => 1 case _ => 0)
    case Running =>
      if !Holds(w, a, pc) then 0 else (match pc
      case WaitStart(_, _) => 6 case Entered(_) => 5 case Body(_) => 4 case Check(_) => 3 case Decide(_) => 2
      case Leave(_) => 1 case _ => 0)
    case Closing =>
      if !Holds(w, a, pc) then 0 else (match pc
      case WaitStart(_, _) => 4 case Entered(_) => 3 case Leave(_) => 1 case Exiting(_) => 0 case Finished(_) => 0
      case _ => 2)
    case Draining => (match pc
      case AtStart => 8 case WaitStart(_, _) => 7 case Decide(_) => 7 case Entered(_) => 6 case Body(_) => 6
      case Check(_) => 5 case Leave(_) => 4 case WaitEnd(_, _) => 3 case Ready => 2 case Exiting(_) => 1
      case Finished(_) => 0)
  }

  /** In the inner iterator. */
  predicate InLoop(pc: Pc) {
    pc.Check? || pc.Decide? || pc.Body?
  }

  function TotalDistance(w: Workload, stage: Stage, actors: seq<Actor>): (n: nat)
    ensures n <= 8 * |actors|
  {
    if actors == [] then 0
    else
      var last := |actors| - 1;
      TotalDistance(w, stage, actors[..last]) + Distance(w, stage, last, actors[last].pc)
  }

  lemma {:induction false} TotalUpdate(w: Workload, stage: Stage, actors: seq<Actor>, a: nat, x: Actor)
    requires a < |actors|
    ensures TotalDistance(w, stage, actors[a := x]) ==
            TotalDistance(w, stage, actors) - Distance(w, stage, a, actors[a].pc) + Distance(w, stage, a, x.pc)
  {
    var last := |actors| - 1;
    if a < last {
      TotalUpdate(w, stage, actors[..last], a, x);
      assert actors[a := x][..last] == actors[..last][a := x];
    } else {
      assert actors[a := x][..last] == actors[..last];
    }
  }

  lemma {:induction false} TotalSame(w: Workload, stage: Stage, actors: seq<Actor>, others: seq<Actor>)
    requires |actors| == |others|
    requires forall i :: 0 <= i < |actors| ==>
               Distance(w, stage, i, actors[i].pc) == Distance(w, stage, i, others[i].pc)
    ensures TotalDistance(w, stage, actors) == TotalDistance(w, stage, others)
  {
    if actors != [] {
      var last := |actors| - 1;
      TotalSame(w, stage, actors[..last], others[..last]);
    }
  }

  // Draining after an abort

  /** How many more calls of awaitPhaseStart, of awaitPhaseEnd, and bodies an actor makes after an abort. */
  function StartsLeft(pc: Pc): nat {
    if pc.AtStart? then 1 else 0
  }

  function EndsLeft(w: Workload, a: nat, pc: Pc): nat {
    match pc
    case AtStart => 1
    case WaitStart(_, _) => 1
    case Entered(_) => 1
    case Check(p) => if Blocks(w, a, p) then 1 else 0
    case Decide(p) => if Blocks(w, a, p) then 1 else 0
    case Body(p) => if Blocks(w, a, p) then 1 else 0
    case Leave(p) => if Blocks(w, a, p) then 1 else 0
    case _ => 0
  }

  function BodiesLeft(pc: Pc): nat {
    if pc.Decide? then 1 else 0
  }

  /** y may follow x in a drained run: no more calls and bodies than x had left. */
  predicate WithinBudget(w: Workload, a: nat, x: Actor, y: Actor) {
    && y.starts + StartsLeft(y.pc) <= x.starts + StartsLeft(x.pc)
    && y.ends + EndsLeft(w, a, y.pc) <= x.ends + EndsLeft(w, a, x.pc)
    && y.bodies + BodiesLeft(y.pc) <= x.bodies + BodiesLeft(x.pc)
  }

  ghost predicate AllWithinBudget(w: Workload, s: State, t: State) {
    |t.actors| == |s.actors| && forall b :: 0 <= b < |s.actors| ==> WithinBudget(w, b, s.actors[b], t.actors[b])
  }

  /** The actor that moves after an abort gets closer to Finished and stays within its budget. */
  lemma DrainActor(w: Workload, s: State, a: nat, e: Event)
    requires s.m.errors && Enabled(w, s, a, e) && !Asleep(s.actors[a].pc)
    ensures |Apply(w, s, a, e).actors| == |s.actors|
    ensures var x, y := s.actors[a], Apply(w, s, a, e).actors[a];
            Distance(w, Draining, a, y.pc) < Distance(w, Draining, a, x.pc) && WithinBudget(w, a, x, y)
  {
  }

  lemma DrainStepBudget(w: Workload, s: State, a: nat, e: Event)
    requires s.m.errors && Enabled(w, s, a, e) && !Asleep(s.actors[a].pc)
    ensures Apply(w, s, a, e).m.errors && AllWithinBudget(w, s, Apply(w, s, a, e))
  {
    var s' := Apply(w, s, a, e);
    DrainActor(w, s, a, e);
    forall b | 0 <= b < |s.actors| && b != a
      ensures WithinBudget(w, b, s.actors[b], s'.actors[b])
    {
      OthersOnlyNotified(w, s, a, e, b);
    }
  }

  lemma DrainStepDistance(w: Workload, s: State, a: nat, e: Event)
    requires s.m.errors && Enabled(w, s, a, e) && !Asleep(s.actors[a].pc)
    ensures TotalDistance(w, Draining, Apply(w, s, a, e).actors) < TotalDistance(w, Draining, s.actors)
  {
    var s' := Apply(w, s, a, e);
    DrainActor(w, s, a, e);
    forall b | 0 <= b < |s.actors| && b != a
      ensures Distance(w, Draining, b, s.actors[b].pc) == Distance(w, Draining, b, s'.actors[b].pc)
    {
      OthersOnlyNotified(w, s, a, e, b);
    }
    TotalUpdate(w, Draining, s.actors, a, s'.actors[a]);
    TotalSame(w, Draining, s.actors[a := s'.actors[a]], s'.actors);
  }

  lemma DrainStep(w: Workload, s: State, a: nat, e: Event)
    requires Inv(w, s) && s.m.errors && Enabled(w, s, a, e)
    ensures Apply(w, s, a, e).m.errors && AllWithinBudget(w, s, Apply(w, s, a, e))
    ensures TotalDistance(w, Draining, Apply(w, s, a, e).actors) < TotalDistance(w, Draining, s.actors)
  {
    assert ActorOk(w, s.m, s.failed, a, s.actors[a]);
    DrainStepBudget(w, s, a, e);
    DrainStepDistance(w, s, a, e);
  }

  lemma BudgetComposes(w: Workload, s: State, t: State, u: State)
    ensures AllWithinBudget(w, s, t) && AllWithinBudget(w, t, u) ==> AllWithinBudget(w, s, u)
  {
    forall b | 0 <= b < |s.actors| && AllWithinBudget(w, s, t) && AllWithinBudget(w, t, u)
      ensures WithinBudget(w, b, s.actors[b], u.actors[b])
    {
      assert WithinBudget(w, b, s.actors[b], t.actors[b]);
      assert WithinBudget(w, b, t.actors[b], u.actors[b]);
    }
  }

  lemma {:induction false} DrainRun(w: Workload, s: State, steps: seq<Step>)
    requires Inv(w, s) && s.m.errors && Admissible(w, s, steps)
    ensures var t := After(w, s, steps);
            && t.m.errors && AllWithinBudget(w, s, t)
            && |steps| + TotalDistance(w, Draining, t.actors) <= TotalDistance(w, Draining, s.actors)
    decreases |steps|
  {
    if steps != [] {
      var a, e := steps[0].actor, steps[0].event;
      var s' := Apply(w, s, a, e);
      DrainStep(w, s, a, e);
      StepKeepsInv(w, s, a, e);
      DrainRun(w, s', steps[1..]);
      BudgetComposes(w, s, s', After(w, s, steps));
    }
  }

  /**
   After an abort nobody sleeps in either phase wait again; every run of barrier steps has at most eight per actor
   left, and each actor makes at most one more call of awaitPhaseStart, one more of awaitPhaseEnd, and
   begins at most one more body.
   */
  lemma AbortDrains(w: Workload, s: State, steps: seq<Step>, a: nat)
    requires Reachable(w, s) && s.m.errors && Admissible(w, s, steps) && a < |s.actors|
    ensures |steps| <= 8 * |s.actors|
    ensures |After(w, s, steps).actors| == |s.actors|
    ensures var x, y := s.actors[a], After(w, s, steps).actors[a];
            && !Asleep(y.pc)
            && x.starts <= y.starts <= x.starts + 1
            && x.ends <= y.ends <= x.ends + 1
            && x.bodies <= y.bodies <= x.bodies + 1
  {
    ReachableInv(w, s);
    DrainRun(w, s, steps);
    RunKeepsInv(w, s, steps);
    CountersGrow(w, s, steps, a);
    var t := After(w, s, steps);
    assert ActorOk(w, t.m, t.failed, a, t.actors[a]);
    assert WithinBudget(w, a, s.actors[a], t.actors[a]);
  }

  lemma CountersGrowStep(w: Workload, s: State, a: nat, e: Event, b: nat)
    requires Enabled(w, s, a, e) && b < |s.actors|
    ensures |Apply(w, s, a, e).actors| == |s.actors|
    ensures var x, y := s.actors[b], Apply(w, s, a, e).actors[b];
            x.starts <= y.starts && x.ends <= y.ends && x.bodies <= y.bodies
  {
    if a != b {
      OthersOnlyNotified(w, s, a, e, b);
    }
  }

  lemma {:induction false} CountersGrow(w: Workload, s: State, steps: seq<Step>, b: nat)
    requires Admissible(w, s, steps) && b < |s.actors|
    ensures |After(w, s, steps).actors| == |s.actors|
    ensures var x, y := s.actors[b], After(w, s, steps).actors[b];
            x.starts <= y.starts && x.ends <= y.ends && x.bodies <= y.bodies
    decreases |steps|
  {
    if steps != [] {
      CountersGrowStep(w, s, steps[0].actor, steps[0].event, b);
      CountersGrow(w, Apply(w, s, steps[0].actor, steps[0].event), steps[1..], b);
    }
  }

  // The way to the end

  /** Phase boundaries still to cross before the last phase has ended. */
  function BoundariesLeft(m: Monitor): int {
    2 * (m.max + 1 - m.current) + if m.state == PhaseEnded then 1 else 0
  }

  predicate Exiter(s: State, a: nat) {
    a < |s.actors| && s.actors[a].pc.Exiting?
  }

  /** While a phase is open and nobody is leaving, somebody holds a token and is awake. */
  lemma HolderIsLive(w: Workload, s: State) returns (a: nat)
    requires Inv(w, s) && !s.m.errors && s.m.state == PhaseStarted && forall b :: !Exiter(s, b)
    ensures a < |s.actors| && Live(s.actors[a].pc) && Holds(w, a, s.actors[a].pc)
  {
    HeldExtremes(w, s.actors);
    a :| 0 <= a < |s.actors| && Holds(w, a, s.actors[a].pc);
    assert ActorOk(w, s.m, s.failed, a, s.actors[a]);
    assert !Exiter(s, a);
  }

  /** Between phases, when nobody is leaving, somebody is not yet waiting for the start. */
  lemma StragglerIsLive(w: Workload, s: State) returns (a: nat)
    requires Inv(w, s) && !s.m.errors && s.m.state == PhaseEnded && |s.actors| > 0 && forall b :: !Exiter(s, b)
    ensures a < |s.actors| && Live(s.actors[a].pc) && !s.actors[a].pc.WaitStart?
  {
    HeldExtremes(w, s.actors);
    a :| 0 <= a < |s.actors| && !Holds(w, a, s.actors[a].pc);
    assert ActorOk(w, s.m, s.failed, a, s.actors[a]);
    assert !Exiter(s, a);
  }

  /** The chosen actor's next step crosses a boundary, ends in an exit, or shortens its distance. */
  lemma AdvanceActor(w: Workload, s: State, a: nat)
    requires !s.m.errors && a < |s.actors| && Live(s.actors[a].pc) && !s.actors[a].pc.Exiting?
    requires ActorOk(w, s.m, s.failed, a, s.actors[a])
    requires if s.m.state == PhaseStarted then Holds(w, a, s.actors[a].pc) else !s.actors[a].pc.WaitStart?
    ensures var s' := Apply(w, s, a, NextEvent(w, s, a));
            && !s'.m.errors && s'.m.max == s.m.max && |s'.actors| == |s.actors|
            && (BoundariesLeft(s'.m) < BoundariesLeft(s.m) || Exiter(s', a) ||
                (s'.m.state == s.m.state && s'.m.current == s.m.current && s'.actors == s.actors[a := s'.actors[a]] &&
                 Distance(w, StageOf(s.m), a, s'.actors[a].pc) < Distance(w, StageOf(s.m), a, s.actors[a].pc)))
  {
  }

  /** Nobody fails on a step other than an exception, if all phases are configured. */
  ghost predicate AllConfigured(w: Workload) {
    forall a, p | 0 <= a < |w.phaseMaps| && 0 <= p <= w.max :: Configured(w, a, p)
  }

  lemma NextDoesNotFail(w: Workload, s: State, a: nat)
    requires Inv(w, s) && a < |s.actors| && Live(s.actors[a].pc) && AllConfigured(w) && !s.failed
    ensures !Apply(w, s, a, NextEvent(w, s, a)).failed
  {
    assert ActorOk(w, s.m, s.failed, a, s.actors[a]);
  }

  ghost predicate Finishes(w: Workload, s: State, steps: seq<Step>) {
    && Admissible(w, s, steps) && AllFinished(After(w, s, steps))
    && (AllConfigured(w) && !s.failed ==> !After(w, s, steps).failed)
  }

  lemma Prepend(w: Workload, s: State, a: nat, steps: seq<Step>)
    requires Inv(w, s) && a < |s.actors| && Live(s.actors[a].pc)
    requires Finishes(w, Apply(w, s, a, NextEvent(w, s, a)), steps)
    ensures Finishes(w, s, [Step(a, NextEvent(w, s, a))] + steps)
  {
    var all := [Step(a, NextEvent(w, s, a))] + steps;
    assert all[1..] == steps;
    if AllConfigured(w) && !s.failed {
      NextDoesNotFail(w, s, a);
    }
  }

  lemma {:induction false} FinishAborted(w: Workload, s: State) returns (steps: seq<Step>)
    requires Inv(w, s) && s.m.errors
    ensures Finishes(w, s, steps)
    decreases TotalDistance(w, Draining, s.actors)
  {
    if AllFinished(s) {
      return [];
    }
    SomebodyLive(w, s);
    var a :| 0 <= a < |s.actors| && Live(s.actors[a].pc);
    var e := NextEvent(w, s, a);
    DrainStep(w, s, a, e);
    StepKeepsInv(w, s, a, e);
    var rest := FinishAborted(w, Apply(w, s, a, e));
    Prepend(w, s, a, rest);
    return [Step(a, e)] + rest;
  }

  lemma {:induction false} FinishRunning(w: Workload, s: State) returns (steps: seq<Step>)
    requires Inv(w, s) && !s.m.errors && |s.actors| > 0
    ensures Finishes(w, s, steps)
    decreases if exists b :: Exiter(s, b) then 0 else 1, BoundariesLeft(s.m), TotalDistance(w, StageOf(s.m), s.actors)
  {
    var a: nat;
    if b :| Exiter(s, b) {
      StepKeepsInv(w, s, b, CallAbort);
      var rest := FinishAborted(w, Apply(w, s, b, CallAbort));
      Prepend(w, s, b, rest);
      return [Step(b, CallAbort)] + rest;
    } else if s.m.state == PhaseStarted {
      a := HolderIsLive(w, s);
    } else {
      a := StragglerIsLive(w, s);
    }
    assert !Exiter(s, a) && ActorOk(w, s.m, s.failed, a, s.actors[a]);
    var e := NextEvent(w, s, a);
    var s' := Apply(w, s, a, e);
    AdvanceActor(w, s, a);
    TotalUpdate(w, StageOf(s.m), s.actors, a, s'.actors[a]);
    StepKeepsInv(w, s, a, e);
    var rest := FinishRunning(w, s');
    Prepend(w, s, a, rest);
    return [Step(a, e)] + rest;
  }

  /**
   No reachable state is a trap: from each one some schedule without exceptions finishes all actors; and if
   nobody failed so far and every phase is configured, that schedule ends with every actor having entered
   every phase in order.
   */
  lemma CanAlwaysFinish(w: Workload, s: State) returns (steps: seq<Step>)
    requires Reachable(w, s)
    ensures Admissible(w, s, steps) && AllFinished(After(w, s, steps))
    ensures AllConfigured(w) && !s.failed ==>
              forall a :: 0 <= a < |After(w, s, steps).actors| ==> After(w, s, steps).actors[a].entered == Upto(w.max + 1)
  {
    ReachableInv(w, s);
    if s.m.errors {
      steps := FinishAborted(w, s);
    } else if |s.actors| > 0 {
      steps := FinishRunning(w, s);
    } else {
      steps := [];
    }
    RunKeepsInv(w, s, steps);
    var t := After(w, s, steps);
    forall a | 0 <= a < |t.actors| && !t.failed
      ensures t.actors[a].entered == Upto(w.max + 1)
    {
      assert ActorOk(w, t.m, t.failed, a, t.actors[a]);
    }
  }
}
