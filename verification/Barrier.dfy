/**
 N actors driving one Orchestrator through PhaseLoop: the transition system.  Each event is one section
 executed under the monitor's lock, one read of an atomic, or one stretch of actor code.
 */
module Barrier {
  import opened OrchestratorMonitor

  /** phaseMaps[a] maps each phase configured for actor a to whether the actor blocks its completion. */
  datatype Workload = Workload(phaseMaps: seq<map<nat, bool>>, max: nat)

  datatype Pc =
    | Ready                               // about to test morePhases
    | AtStart                             // about to call awaitPhaseStart
    | WaitStart(phase: nat, asleep: bool) // in the wait loop of awaitPhaseStart
    | Entered(phase: nat)                 // awaitPhaseStart returned
    | Check(phase: nat)                   // inner iterator, about to read the abort flag
    | Decide(phase: nat)                  // inner iterator, abort flag was clear
    | Body(phase: nat)                    // running one iteration
    | Leave(phase: nat)                   // inner loop over, about to increment the outer iterator
    | WaitEnd(phase: nat, asleep: bool)   // in the wait loop of awaitPhaseEnd
    | Exiting(holds: bool)                // run() is over, scope guard about to abort
    | Finished(holds: bool)

  /** An actor with its history: the phases it entered, and how often it called and iterated. */
  datatype Actor = Actor(pc: Pc, entered: seq<nat>, starts: nat, ends: nat, bodies: nat)

  /** `failed` is the driver's outcome code: some actor left run() by an exception. */
  datatype State = State(m: Monitor, actors: seq<Actor>, failed: bool)

  datatype Event =
    | TestMorePhases
    | CallStart
    | Wake                // a notified waiter re-tests its condition
    | Spurious            // a waiter wakes without a notification
    | Resolve             // outer dereference: look up the phase, give the token back if not blocking
    | ReadErrors
    | DecideDone(done: bool)
    | EndBody
    | CallEnd
    | Throw               // an exception leaves run(): outside any phase, or inside one
    | CallAbort

  predicate Configured(w: Workload, a: nat, p: nat) {
    a < |w.phaseMaps| && p in w.phaseMaps[a]
  }

  /** PhaseLoopIterator::doesBlockOn: an unconfigured phase blocks. */
  predicate Blocks(w: Workload, a: nat, p: nat) {
    Configured(w, a, p) ==> w.phaseMaps[a][p]
  }

  function Init(w: Workload): State {
    var m := Fresh().(requireTokens := |w.phaseMaps|, max := w.max);
    State(m, seq(|w.phaseMaps|, i => Actor(Ready, [], 0, 0, 0)), false)
  }

  /** condition_variable::notify_all */
  function Notified(x: Actor): Actor {
    match x.pc
    case WaitStart(p, _) => x.(pc := WaitStart(p, false))
    case WaitEnd(p, _) => x.(pc := WaitEnd(p, false))
    case _ => x
  }

  function NotifyAll(actors: seq<Actor>): (r: seq<Actor>)
    ensures |r| == |actors|
    ensures forall i :: 0 <= i < |r| ==> r[i] == Notified(actors[i])
  {
    seq(|actors|, i requires 0 <= i < |actors| => Notified(actors[i]))
  }

  predicate Asleep(pc: Pc) {
    (pc.WaitStart? || pc.WaitEnd?) && pc.asleep
  }

  predicate Enabled(w: Workload, s: State, a: nat, e: Event) {
    a < |s.actors| &&
    var pc := s.actors[a].pc;
    match e
    case TestMorePhases => pc.Ready?
    case CallStart => pc.AtStart?
    case Wake => (pc.WaitStart? || pc.WaitEnd?) && !pc.asleep
    case Spurious => Asleep(pc)
    case Resolve => pc.Entered?
    case ReadErrors => pc.Check?
    case DecideDone(done) => pc.Decide? && (!Blocks(w, a, pc.phase) ==> done == (s.m.current != pc.phase))
    case EndBody => pc.Body?
    case CallEnd => pc.Leave?
    case Throw => pc.Ready? || pc.Check? || pc.Body? || pc.Leave?
    case CallAbort => pc.Exiting?
  }

  /** Whether actor a at program point pc has a token deposited in the monitor. */
  predicate Holds(w: Workload, a: nat, pc: Pc) {
    match pc
    case WaitStart(_, _) => true
    case Entered(_) => true
    case Check(p) => Blocks(w, a, p)
    case Decide(p) => Blocks(w, a, p)
    case Body(p) => Blocks(w, a, p)
    case Leave(p) => Blocks(w, a, p)
    case Exiting(h) => h
    case Finished(h) => h
    case _ => false
  }

  function Move(s: State, a: nat, pc: Pc): State
    requires a < |s.actors|
  {
    s.(actors := s.actors[a := s.actors[a].(pc := pc)])
  }

  function Enter(x: Actor, p: nat): Actor {
    x.(pc := Entered(p), entered := x.entered + [p])
  }

  function DoStart(s: State, a: nat): State
    requires a < |s.actors|
  {
    var m := StartEnter(s.m, 1);
    var x := s.actors[a].(starts := s.actors[a].starts + 1);
    if StartFires(s.m, 1) then
      s.(m := m, actors := NotifyAll(s.actors)[a := Enter(x, s.m.current)])
    else if AwaitsStart(m) then
      s.(m := m, actors := s.actors[a := x.(pc := WaitStart(s.m.current, true))])
    else
      s.(m := m, actors := s.actors[a := Enter(x, s.m.current)])
  }

  /** awaitPhaseEnd for an actor in phase p; `after` is where it goes when the call returns. */
  function DoEnd(s: State, a: nat, p: nat, block: bool, after: Pc): State
    requires a < |s.actors|
  {
    var m := EndEnter(s.m, 1);
    var x := s.actors[a].(ends := s.actors[a].ends + 1);
    if EndFires(s.m, 1) then
      s.(m := m, actors := NotifyAll(s.actors)[a := x.(pc := after)])
    else if block && AwaitsEnd(m) then
      s.(m := m, actors := s.actors[a := x.(pc := WaitEnd(p, true))])
    else
      s.(m := m, actors := s.actors[a := x.(pc := after)])
  }

  function DoWake(s: State, a: nat): State
    requires a < |s.actors| && (s.actors[a].pc.WaitStart? || s.actors[a].pc.WaitEnd?)
  {
    var x := s.actors[a];
    match x.pc
    case WaitStart(p, _) =>
      if AwaitsStart(s.m) then Move(s, a, WaitStart(p, true))
      else s.(actors := s.actors[a := Enter(x, p)])
    case WaitEnd(p, _) =>
      if AwaitsEnd(s.m) then Move(s, a, WaitEnd(p, true)) else Move(s, a, Ready)
  }

  function DoResolve(w: Workload, s: State, a: nat, p: nat): State
    requires a < |s.actors|
  {
    if !Configured(w, a, p) then Move(s, a, Exiting(true)).(failed := true)
    else if Blocks(w, a, p) then Move(s, a, Check(p))
    else DoEnd(s, a, p, false, Check(p))
  }

  function DoAbort(s: State, a: nat): State
    requires a < |s.actors| && s.actors[a].pc.Exiting?
  {
    var x := s.actors[a];
    s.(m := Aborted(s.m), actors := NotifyAll(s.actors)[a := x.(pc := Finished(x.pc.holds))])
  }

  function Apply(w: Workload, s: State, a: nat, e: Event): State
    requires Enabled(w, s, a, e)
  {
    var x := s.actors[a];
    match e
    case TestMorePhases => Move(s, a, if MorePhases(s.m) then AtStart else Exiting(false))
    case CallStart => DoStart(s, a)
    case Wake => DoWake(s, a)
    case Spurious => s.(actors := s.actors[a := Notified(x)])
    case Resolve => DoResolve(w, s, a, x.pc.phase)
    case ReadErrors => Move(s, a, if s.m.errors then Leave(x.pc.phase) else Decide(x.pc.phase))
    case DecideDone(done) =>
      if done then Move(s, a, Leave(x.pc.phase))
      else s.(actors := s.actors[a := x.(pc := Body(x.pc.phase), bodies := x.bodies + 1)])
    case EndBody => Move(s, a, Check(x.pc.phase))
    case CallEnd =>
      if Blocks(w, a, x.pc.phase) then DoEnd(s, a, x.pc.phase, true, Ready) else Move(s, a, Ready)
    case Throw => Move(s, a, Exiting(Holds(w, a, x.pc))).(failed := true)
    case CallAbort => DoAbort(s, a)
  }

  /** Who moved, and how. */
  datatype Step = Step(actor: nat, event: Event)

  /** Running a schedule; the schedule is admissible when every step is enabled where it is taken. */
  ghost predicate Admissible(w: Workload, s: State, steps: seq<Step>)
    decreases |steps|
  {
    steps == [] ||
    (Enabled(w, s, steps[0].actor, steps[0].event) &&
     Admissible(w, Apply(w, s, steps[0].actor, steps[0].event), steps[1..]))
  }

  ghost function After(w: Workload, s: State, steps: seq<Step>): State
    requires Admissible(w, s, steps)
    decreases |steps|
  {
    if steps == [] then s
    else After(w, Apply(w, s, steps[0].actor, steps[0].event), steps[1..])
  }
}
