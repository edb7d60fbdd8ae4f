/** What every step of the phase barrier keeps. */
module BarrierInvariant {
  import opened OrchestratorMonitor
  import opened Barrier

  /** The phases 0 .. n-1, in order. */
  function Upto(n: nat): (r: seq<nat>) {
    seq(n, i => i)
  }

  /** The hook rounds fired by the time `phases` phases have ended, and one more has started if `open`. */
  function HooksUpto(phases: nat, open: bool): seq<HookRound> {
    if open then HooksUpto(phases, false) + [StartHooks(phases)]
    else if phases == 0 then []
    else HooksUpto(phases - 1, true) + [StopHooks(phases - 1)]
  }

  /** How many actors have a token deposited. */
  function Held(w: Workload, actors: seq<Actor>): (n: nat)
    ensures n <= |actors|
  {
    if actors == [] then 0
    else
      var last := |actors| - 1;
      Held(w, actors[..last]) + if Holds(w, last, actors[last].pc) then 1 else 0
  }

  /** Where an actor can be, before the first abort, given the monitor's phase and state. */
  predicate PhaseOk(w: Workload, m: Monitor, failed: bool, a: nat, x: Actor) {
    var open := m.state == PhaseStarted;
    match x.pc
    case Ready => !open && x.entered == Upto(m.current)
    case AtStart => !open && x.entered == Upto(m.current) && m.current <= m.max
    case WaitStart(p, _) => p == m.current <= m.max && x.entered == Upto(p)
    case Entered(p) => open && p == m.current && x.entered == Upto(p + 1)
    case Leave(p) =>
      x.entered == Upto(p + 1) &&
      if Blocks(w, a, p) then open && p == m.current else !open && p + 1 == m.current
    case WaitEnd(p, _) =>
      x.entered == Upto(p + 1) && if open then p == m.current else p + 1 == m.current
    case Exiting(h) =>
      if failed then h ==> open
      else !h && !open && m.current == m.max + 1 && x.entered == Upto(m.max + 1)
    case Finished(_) => false
    case _ =>
      x.entered == Upto(x.pc.phase + 1) &&
      if open then x.pc.phase == m.current else !Blocks(w, a, x.pc.phase) && x.pc.phase + 1 == m.current
  }

  /** Where an actor can be once a finished actor has aborted, when no actor threw. */
  predicate Unwinding(w: Workload, m: Monitor, a: nat, x: Actor) {
    x.entered == Upto(m.max + 1) &&
    match x.pc
    case Ready => true
    case Check(p) => !Blocks(w, a, p)
    case Decide(p) => !Blocks(w, a, p) && p == m.max
    case Body(p) => !Blocks(w, a, p)
    case Leave(p) => !Blocks(w, a, p)
    case WaitEnd(_, _) => true
    case Exiting(h) => !h
    case Finished(h) => !h
    case _ => false
  }

  predicate ActorOk(w: Workload, m: Monitor, failed: bool, a: nat, x: Actor) {
    && (x.pc.WaitStart? && x.pc.asleep ==> AwaitsStart(m))
    && (x.pc.WaitEnd? && x.pc.asleep ==> AwaitsEnd(m))
    && (!m.errors ==> PhaseOk(w, m, failed, a, x))
    && (m.errors && !failed ==> Unwinding(w, m, a, x))
  }

  ghost predicate ActorsOk(w: Workload, s: State) {
    forall a :: 0 <= a < |s.actors| ==> ActorOk(w, s.m, s.failed, a, s.actors[a])
  }

  predicate MonitorOk(w: Workload, s: State) {
    && |s.actors| == |w.phaseMaps| == s.m.requireTokens
    && s.m.max == w.max
    && s.m.currentTokens == Held(w, s.actors)
    && (!s.m.errors ==>
          && s.m.current <= s.m.max + (if s.m.state == PhaseStarted then 0 else 1)
          && s.m.hookLog == HooksUpto(s.m.current, s.m.state == PhaseStarted)
          && (if s.m.state == PhaseStarted then 0 < s.m.currentTokens
              else |s.actors| == 0 || s.m.currentTokens < |s.actors|))
    && (s.m.errors && !s.failed ==> s.m.current == s.m.max + 1 && s.m.state == PhaseEnded)
  }

  ghost predicate Inv(w: Workload, s: State) {
    MonitorOk(w, s) && ActorsOk(w, s)
  }

  // Counting tokens

  lemma {:induction false} HeldUpdate(w: Workload, actors: seq<Actor>, a: nat, x: Actor)
    requires a < |actors|
    ensures Held(w, actors[a := x]) ==
            Held(w, actors) - (if Holds(w, a, actors[a].pc) then 1 else 0) + (if Holds(w, a, x.pc) then 1 else 0)
  {
    var last := |actors| - 1;
    if a < last {
      HeldUpdate(w, actors[..last], a, x);
      assert actors[a := x][..last] == actors[..last][a := x];
    } else {
      assert actors[a := x][..last] == actors[..last];
    }
  }

  lemma {:induction false} HeldSame(w: Workload, actors: seq<Actor>, others: seq<Actor>)
    requires |actors| == |others|
    requires forall i :: 0 <= i < |actors| ==> Holds(w, i, actors[i].pc) == Holds(w, i, others[i].pc)
    ensures Held(w, actors) == Held(w, others)
  {
    if actors != [] {
      var last := |actors| - 1;
      HeldSame(w, actors[..last], others[..last]);
    }
  }

  /** Notifying deposits and withdraws nothing. */
  lemma HeldNotified(w: Workload, actors: seq<Actor>, a: nat, y: Actor)
    requires a < |actors|
    ensures Held(w, NotifyAll(actors)[a := y]) == Held(w, actors[a := y])
  {
    HeldSame(w, NotifyAll(actors)[a := y], actors[a := y]);
  }

  /** All tokens are in exactly when everybody deposited; none is exactly when nobody did. */
  lemma {:induction false} HeldExtremes(w: Workload, actors: seq<Actor>)
    ensures Held(w, actors) == |actors| <==> forall i :: 0 <= i < |actors| ==> Holds(w, i, actors[i].pc)
    ensures Held(w, actors) == 0 <==> forall i :: 0 <= i < |actors| ==> !Holds(w, i, actors[i].pc)
  {
    if actors != [] {
      var last := |actors| - 1;
      HeldExtremes(w, actors[..last]);
      assert forall i :: 0 <= i < last ==> actors[..last][i] == actors[i];
      if forall i :: 0 <= i < last ==> Holds(w, i, actors[..last][i].pc) {
        assert forall i :: 0 <= i < last ==> Holds(w, i, actors[i].pc);
      }
      if forall i :: 0 <= i < last ==> !Holds(w, i, actors[..last][i].pc) {
        assert forall i :: 0 <= i < last ==> !Holds(w, i, actors[i].pc);
      }
    }
  }

  lemma UptoNext(n: nat)
    ensures Upto(n) + [n] == Upto(n + 1)
  {
  }

  // The invariant

  /** A step moves the actor that takes it; the others are notified at most. */
  lemma OthersOnlyNotified(w: Workload, s: State, a: nat, e: Event, b: nat)
    requires Enabled(w, s, a, e) && b < |s.actors| && b != a
    ensures |Apply(w, s, a, e).actors| == |s.actors|
    ensures var y := Apply(w, s, a, e).actors[b]; y == s.actors[b] || y == Notified(s.actors[b])
  {
  }

  lemma InitInv(w: Workload)
    ensures Inv(w, Init(w))
  {
    HeldExtremes(w, Init(w).actors);
  }

  /** A step that leaves the monitor alone: only the moved actor has to be looked at. */
  lemma LocalKeepsInv(w: Workload, s: State, a: nat, x: Actor, failed: bool)
    requires Inv(w, s) && a < |s.actors| && (s.failed ==> failed)
    requires Holds(w, a, x.pc) == Holds(w, a, s.actors[a].pc)
    requires ActorOk(w, s.m, failed, a, x)
    requires failed != s.failed && !s.m.errors ==>
               forall b :: 0 <= b < |s.actors| ==> PhaseOk(w, s.m, failed, b, s.actors[b])
    ensures Inv(w, s.(actors := s.actors[a := x], failed := failed))
  {
    HeldUpdate(w, s.actors, a, x);
  }

  /** Recording a failure only relaxes what is known about the other actors. */
  lemma FailingRelaxes(w: Workload, m: Monitor, a: nat, x: Actor)
    ensures PhaseOk(w, m, false, a, x) ==> PhaseOk(w, m, true, a, x)
  {
  }

  lemma FailKeepsInv(w: Workload, s: State, a: nat, x: Actor)
    requires Inv(w, s) && a < |s.actors|
    requires Holds(w, a, x.pc) == Holds(w, a, s.actors[a].pc)
    requires ActorOk(w, s.m, true, a, x)
    ensures Inv(w, s.(actors := s.actors[a := x], failed := true))
  {
    forall b | 0 <= b < |s.actors| && !s.m.errors && !s.failed
      ensures PhaseOk(w, s.m, true, b, s.actors[b])
    {
      FailingRelaxes(w, s.m, b, s.actors[b]);
    }
    LocalKeepsInv(w, s, a, x, true);
  }

  /** What is known about an actor does not depend on the token count or the hook log. */
  lemma CountersKeepActors(w: Workload, s: State, s': State, a: nat)
    requires ActorsOk(w, s) && |s'.actors| == |s.actors| && s'.failed == s.failed
    requires s'.m == s.m.(currentTokens := s'.m.currentTokens)
    requires a < |s.actors| && ActorOk(w, s'.m, s'.failed, a, s'.actors[a])
    requires forall b :: 0 <= b < |s.actors| && b != a ==> s'.actors[b] == s.actors[b]
    ensures ActorsOk(w, s')
  {
    forall b | 0 <= b < |s'.actors| && b != a
      ensures ActorOk(w, s'.m, s'.failed, b, s'.actors[b])
    {
      assert ActorOk(w, s.m, s.failed, b, s.actors[b]);
    }
  }

  /** When the last token comes in before any abort, everybody else is waiting for the start. */
  lemma AllWaitAtStart(w: Workload, s: State, a: nat)
    requires Inv(w, s) && Enabled(w, s, a, CallStart) && StartFires(s.m, 1) && !s.m.errors
    ensures s.m.state == PhaseEnded
    ensures forall b :: 0 <= b < |s.actors| && b != a ==> s.actors[b].pc.WaitStart?
  {
    var x := s.actors[a].(pc := WaitStart(0, true));
    var t := s.actors[a := x];
    HeldUpdate(w, s.actors, a, x);
    HeldExtremes(w, t);
    forall b | 0 <= b < |s.actors| && b != a
      ensures s.actors[b].pc.WaitStart?
    {
      assert t[b] == s.actors[b] && Holds(w, b, t[b].pc);
      assert ActorOk(w, s.m, s.failed, b, s.actors[b]);
    }
  }

  /** Starting the phase moves every waiter from "waiting" to "notified". */
  lemma StartedActorOk(w: Workload, m: Monitor, failed: bool, b: nat, x: Actor)
    requires ActorOk(w, m, failed, b, x) && StartFires(m, 1)
    requires m.errors ==> failed
    requires !m.errors ==> x.pc.WaitStart?
    ensures ActorOk(w, StartEnter(m, 1), failed, b, Notified(x))
  {
  }

  lemma StartFiresKeepsInv(w: Workload, s: State, a: nat)
    requires Inv(w, s) && Enabled(w, s, a, CallStart) && StartFires(s.m, 1)
    ensures Inv(w, DoStart(s, a))
  {
    var s' := DoStart(s, a);
    assert ActorOk(w, s.m, s.failed, a, s.actors[a]);
    UptoNext(s.m.current);
    HeldUpdate(w, s.actors, a, s'.actors[a]);
    HeldSame(w, s'.actors, s.actors[a := s'.actors[a]]);
    if !s.m.errors {
      AllWaitAtStart(w, s, a);
    }
    forall b | 0 <= b < |s'.actors| && b != a
      ensures ActorOk(w, s'.m, s'.failed, b, s'.actors[b])
    {
      StartedActorOk(w, s.m, s.failed, b, s.actors[b]);
    }
  }

  lemma StartKeepsInv(w: Workload, s: State, a: nat)
    requires Inv(w, s) && Enabled(w, s, a, CallStart)
    ensures Inv(w, DoStart(s, a))
  {
    if StartFires(s.m, 1) {
      StartFiresKeepsInv(w, s, a);
    } else {
      var s' := DoStart(s, a);
      assert ActorOk(w, s.m, s.failed, a, s.actors[a]);
      UptoNext(s.m.current);
      HeldUpdate(w, s.actors, a, s'.actors[a]);
      CountersKeepActors(w, s, s', a);
    }
  }

  /** When the last token goes out before any abort, everybody else is done with the phase or not blocking it. */
  lemma NobodyHoldsAtEnd(w: Workload, s: State, a: nat, y: Actor)
    requires s.m.currentTokens == Held(w, s.actors) && EndFires(s.m, 1)
    requires a < |s.actors| && Holds(w, a, s.actors[a].pc) && !Holds(w, a, y.pc)
    ensures s.m.currentTokens == 1 && Held(w, s.actors[a := y]) == 0
    ensures forall b :: 0 <= b < |s.actors| && b != a ==> !Holds(w, b, s.actors[b].pc)
  {
    HeldUpdate(w, s.actors, a, y);
    HeldExtremes(w, s.actors[a := y]);
    forall b | 0 <= b < |s.actors| && b != a
      ensures !Holds(w, b, s.actors[b].pc)
    {
      assert s.actors[a := y][b] == s.actors[b];
    }
  }

  /** An actor that holds its token in the open phase, about to call awaitPhaseEnd. */
  ghost predicate AboutToEnd(w: Workload, s: State, a: nat, p: nat, block: bool, after: Pc) {
    && Inv(w, s) && a < |s.actors| && Holds(w, a, s.actors[a].pc)
    && (s.m.errors ==> s.failed)
    && (!s.m.errors ==> s.m.state == PhaseStarted && s.m.current == p && s.actors[a].entered == Upto(p + 1))
    && (if block then after.Ready? else after == Check(p) && !Blocks(w, a, p))
  }

  lemma EndedActorOk(w: Workload, m: Monitor, failed: bool, b: nat, x: Actor)
    requires ActorOk(w, m, failed, b, x) && EndFires(m, 1) && !Holds(w, b, x.pc)
    requires m.errors ==> failed
    requires !m.errors ==> m.state == PhaseStarted
    ensures ActorOk(w, EndEnter(m, 1), failed, b, Notified(x))
  {
  }

  lemma EnderOk(w: Workload, m: Monitor, failed: bool, a: nat, x: Actor, p: nat, after: Pc)
    requires EndFires(m, 1) && (m.errors ==> failed)
    requires !m.errors ==> m.state == PhaseStarted && m.current == p && x.entered == Upto(p + 1)
    requires after.Ready? || (after == Check(p) && !Blocks(w, a, p))
    ensures ActorOk(w, EndEnter(m, 1), failed, a, x.(ends := x.ends + 1, pc := after))
  {
  }

  lemma EndFiresReleases(w: Workload, s: State, a: nat, p: nat, block: bool, after: Pc)
    requires s.m.currentTokens == Held(w, s.actors) && EndFires(s.m, 1)
    requires a < |s.actors| && Holds(w, a, s.actors[a].pc) && !Holds(w, a, after)
    ensures s.m.currentTokens == 1 && Held(w, DoEnd(s, a, p, block, after).actors) == 0
  {
    var y := s.actors[a].(ends := s.actors[a].ends + 1, pc := after);
    NobodyHoldsAtEnd(w, s, a, y);
    HeldNotified(w, s.actors, a, y);
  }

  lemma EndFiresKeepsMonitor(w: Workload, s: State, a: nat, p: nat, block: bool, after: Pc)
    requires AboutToEnd(w, s, a, p, block, after) && EndFires(s.m, 1)
    ensures MonitorOk(w, DoEnd(s, a, p, block, after))
  {
    EndFiresReleases(w, s, a, p, block, after);
  }

  lemma EndFiresKeepsActors(w: Workload, s: State, a: nat, p: nat, block: bool, after: Pc)
    requires AboutToEnd(w, s, a, p, block, after) && EndFires(s.m, 1)
    ensures ActorsOk(w, DoEnd(s, a, p, block, after))
  {
    var s' := DoEnd(s, a, p, block, after);
    NobodyHoldsAtEnd(w, s, a, s'.actors[a]);
    EnderOk(w, s.m, s.failed, a, s.actors[a], p, after);
    forall b | 0 <= b < |s'.actors| && b != a
      ensures ActorOk(w, s'.m, s'.failed, b, s'.actors[b])
    {
      EndedActorOk(w, s.m, s.failed, b, s.actors[b]);
    }
  }

  lemma EndKeepsInv(w: Workload, s: State, a: nat, p: nat, block: bool, after: Pc)
    requires AboutToEnd(w, s, a, p, block, after)
    ensures Inv(w, DoEnd(s, a, p, block, after))
  {
    if EndFires(s.m, 1) {
      EndFiresKeepsMonitor(w, s, a, p, block, after);
      EndFiresKeepsActors(w, s, a, p, block, after);
    } else {
      var s' := DoEnd(s, a, p, block, after);
      HeldUpdate(w, s.actors, a, s'.actors[a]);
      CountersKeepActors(w, s, s', a);
    }
  }

  lemma AbortedActorOk(w: Workload, m: Monitor, failed: bool, b: nat, x: Actor)
    requires ActorOk(w, m, failed, b, x)
    requires !m.errors && !failed ==> m.current == m.max + 1 && m.state == PhaseEnded
    ensures ActorOk(w, Aborted(m), failed, b, Notified(x))
  {
  }

  lemma AbortKeepsInv(w: Workload, s: State, a: nat)
    requires Inv(w, s) && Enabled(w, s, a, CallAbort)
    ensures Inv(w, DoAbort(s, a))
  {
    var s' := DoAbort(s, a);
    assert ActorOk(w, s.m, s.failed, a, s.actors[a]);
    HeldSame(w, s'.actors, s.actors);
    forall b | 0 <= b < |s'.actors| && b != a
      ensures ActorOk(w, s'.m, s'.failed, b, s'.actors[b])
    {
      AbortedActorOk(w, s.m, s.failed, b, s.actors[b]);
    }
  }

  lemma WakeKeepsInv(w: Workload, s: State, a: nat)
    requires Inv(w, s) && Enabled(w, s, a, Wake)
    ensures Inv(w, DoWake(s, a))
  {
    assert ActorOk(w, s.m, s.failed, a, s.actors[a]);
    UptoNext(s.actors[a].pc.phase);
    LocalKeepsInv(w, s, a, DoWake(s, a).actors[a], s.failed);
  }

  lemma ResolveKeepsInv(w: Workload, s: State, a: nat)
    requires Inv(w, s) && Enabled(w, s, a, Resolve)
    ensures Inv(w, DoResolve(w, s, a, s.actors[a].pc.phase))
  {
    var p := s.actors[a].pc.phase;
    assert ActorOk(w, s.m, s.failed, a, s.actors[a]);
    if !Configured(w, a, p) {
      FailKeepsInv(w, s, a, s.actors[a].(pc := Exiting(true)));
    } else if Blocks(w, a, p) {
      LocalKeepsInv(w, s, a, s.actors[a].(pc := Check(p)), s.failed);
    } else {
      EndKeepsInv(w, s, a, p, false, Check(p));
    }
  }

  lemma CallEndKeepsInv(w: Workload, s: State, a: nat)
    requires Inv(w, s) && Enabled(w, s, a, CallEnd)
    ensures Inv(w, Apply(w, s, a, CallEnd))
  {
    var p := s.actors[a].pc.phase;
    assert ActorOk(w, s.m, s.failed, a, s.actors[a]);
    if Blocks(w, a, p) {
      EndKeepsInv(w, s, a, p, true, Ready);
    } else {
      LocalKeepsInv(w, s, a, s.actors[a].(pc := Ready), s.failed);
    }
  }

  /** The events that only move the actor that takes them. */
  predicate Private(e: Event) {
    e.TestMorePhases? || e.Spurious? || e.ReadErrors? || e.DecideDone? || e.EndBody?
  }

  lemma PrivateKeepsInv(w: Workload, s: State, a: nat, e: Event)
    requires Inv(w, s) && Enabled(w, s, a, e) && Private(e)
    ensures Inv(w, Apply(w, s, a, e))
  {
    assert ActorOk(w, s.m, s.failed, a, s.actors[a]);
    LocalKeepsInv(w, s, a, Apply(w, s, a, e).actors[a], s.failed);
  }

  lemma StepKeepsInv(w: Workload, s: State, a: nat, e: Event)
    requires Inv(w, s) && Enabled(w, s, a, e)
    ensures Inv(w, Apply(w, s, a, e))
  {
    match e
    case CallStart => StartKeepsInv(w, s, a);
    case Wake => WakeKeepsInv(w, s, a);
    case CallAbort => AbortKeepsInv(w, s, a);
    case Resolve => ResolveKeepsInv(w, s, a);
    case CallEnd => CallEndKeepsInv(w, s, a);
    case Throw =>
      assert ActorOk(w, s.m, s.failed, a, s.actors[a]);
      FailKeepsInv(w, s, a, Apply(w, s, a, e).actors[a]);
    case _ => PrivateKeepsInv(w, s, a, e);
  }

  /** Every state of every run satisfies the invariant. */
  lemma {:induction false} RunKeepsInv(w: Workload, s: State, steps: seq<Step>)
    requires Inv(w, s) && Admissible(w, s, steps)
    ensures Inv(w, After(w, s, steps))
    decreases |steps|
  {
    if steps != [] {
      StepKeepsInv(w, s, steps[0].actor, steps[0].event);
      RunKeepsInv(w, Apply(w, s, steps[0].actor, steps[0].event), steps[1..]);
    }
  }
}
