/**
 How a run of the barrier with a shared rate limiter ends.  After an abort the barrier's own steps are
 bounded, but limitRate's retry loop does not look at the abort flag: an actor in it gets out by a token or,
 if it blocks the phase, by being done.  Letting time pass, every reachable state has a way to the end.
 */
module PacedProgress {
  import opened OrchestratorMonitor
  import opened Wrappers
  import opened PhaseIteration
  import opened PacedPhases
  import RateLimiter
  import B = Barrier
  import BI = BarrierInvariant
  import BT = BarrierTheorems
  import BP = BarrierProgress
  import R = RateSystem

  // The barrier inside a joint run

  /** The barrier steps of a joint run. */
  function Syncs(events: seq<Event>): seq<B.Step> {
    if events == [] then []
    else if events[0].Sync? then [B.Step(events[0].actor, events[0].sync)] + Syncs(events[1..])
    else Syncs(events[1..])
  }

  /** A joint run, seen through its barrier steps, is a run of the barrier with the same end. */
  lemma {:induction false} JointRunIsBarrierRun(plan: Plan, j: Joint, events: seq<Event>)
    requires Admissible(plan, j, events)
    ensures B.Admissible(plan.workload, j.b, Syncs(events))
    ensures B.After(plan.workload, j.b, Syncs(events)) == After(plan, j, events).b
    decreases |events|
  {
    if events != [] {
      JointRunIsBarrierRun(plan, Apply(plan, j, events[0]), events[1..]);
      if events[0].Sync? {
        assert Syncs(events)[1..] == Syncs(events[1..]);
      }
    }
  }

  ghost predicate Reaches(plan: Plan, j: Joint, k: Joint) {
    exists events :: Admissible(plan, j, events) && After(plan, j, events) == k
  }

  ghost predicate Reachable(plan: Plan, k: Joint) {
    exists j :: Initial(plan, j) && Reaches(plan, j, k)
  }

  lemma ReachableBarrier(plan: Plan, k: Joint)
    requires Reachable(plan, k)
    ensures BT.Reachable(plan.workload, k.b) && Inv(plan, k)
  {
    var j :| Initial(plan, j) && Reaches(plan, j, k);
    var events :| Admissible(plan, j, events) && After(plan, j, events) == k;
    JointRunIsBarrierRun(plan, j, events);
    InitialInv(plan, j);
    RunKeepsInv(plan, j, events);
  }

  /**
   After an abort nobody sleeps in a phase wait again; every joint run has at most eight barrier steps per
   actor left, and each actor makes at most one more call of awaitPhaseStart, one more of awaitPhaseEnd, and
   begins at most one more body, however long limitRate keeps retrying in between.
   */
  lemma PacedAbortDrains(plan: Plan, j: Joint, events: seq<Event>, a: nat)
    requires Reachable(plan, j) && j.b.m.errors && Admissible(plan, j, events) && a < |j.b.actors|
    ensures |Syncs(events)| <= 8 * |j.b.actors|
    ensures |After(plan, j, events).b.actors| == |j.b.actors|
    ensures var x, y := j.b.actors[a], After(plan, j, events).b.actors[a];
            && !B.Asleep(y.pc)
            && x.starts <= y.starts <= x.starts + 1
            && x.ends <= y.ends <= x.ends + 1
            && x.bodies <= y.bodies <= x.bodies + 1
  {
    ReachableBarrier(plan, j);
    JointRunIsBarrierRun(plan, j, events);
    BP.AbortDrains(plan.workload, j.b, Syncs(events), a);
  }

  // Reaching states

  lemma ReachesItself(plan: Plan, j: Joint)
    ensures Reaches(plan, j, j)
  {
    assert Admissible(plan, j, []) && After(plan, j, []) == j;
  }

  lemma ReachesAfter(plan: Plan, j: Joint, e: Event, k: Joint)
    requires Enabled(plan, j, e) && Reaches(plan, Apply(plan, j, e), k)
    ensures Reaches(plan, j, k)
  {
    var rest :| Admissible(plan, Apply(plan, j, e), rest) && After(plan, Apply(plan, j, e), rest) == k;
    var all := [e] + rest;
    assert all[1..] == rest;
    assert Admissible(plan, j, all) && After(plan, j, all) == k;
  }

  lemma ReachesOne(plan: Plan, j: Joint, e: Event)
    requires Enabled(plan, j, e)
    ensures Reaches(plan, j, Apply(plan, j, e))
  {
    ReachesItself(plan, Apply(plan, j, e));
    ReachesAfter(plan, j, e, Apply(plan, j, e));
  }

  lemma {:induction false} ReachesVia(plan: Plan, i: Joint, events: seq<Event>, j: Joint, k: Joint)
    requires Admissible(plan, i, events) && After(plan, i, events) == j && Reaches(plan, j, k)
    ensures Reaches(plan, i, k)
    decreases |events|
  {
    if events != [] {
      ReachesVia(plan, Apply(plan, i, events[0]), events[1..], j, k);
      ReachesAfter(plan, i, events[0], k);
    }
  }

  lemma ReachesTransitive(plan: Plan, i: Joint, j: Joint, k: Joint)
    ensures Reaches(plan, i, j) && Reaches(plan, j, k) ==> Reaches(plan, i, k)
  {
    if Reaches(plan, i, j) && Reaches(plan, j, k) {
      var events :| Admissible(plan, i, events) && After(plan, i, events) == j;
      ReachesVia(plan, i, events, j, k);
    }
  }

  // Inside limitRate

  predicate InLimiter(pc: R.Pc) {
    !pc.Outside? && !pc.Broke? && !pc.Running?
  }

  /** The compare-exchange that a step makes succeeds, or the increment after one is made. */
  predicate TakesToken(y: R.System, i: nat, r: R.Event)
    requires R.Enabled(y, i, r)
  {
    r.IncrementCount? || (r.ExchangeCount? && !r.spurious && y.limiter.burstCount == y.threads[i].pc.count)
  }

  /**
   The way out of limitRate, before and after an abort: a step leads out exactly when it brings a token, or
   when the attempt was denied and the actor blocks the phase and was done at the time of the attempt.
   */
  lemma OutOfLimitRate(plan: Plan, j: Joint, a: nat, r: R.Event)
    requires Inv(plan, j) && Enabled(plan, j, Pace(a, r))
    ensures var t, t' := j.y.threads[a], Apply(plan, j, Pace(a, r)).y.threads[a];
            !InLimiter(t'.pc) <==>
            || TakesToken(j.y, a, r)
            || (t.pc.Denied? && DoesBlock(t.checker) && IsDone(t.checker, t.startedAt, t.iteration, t.pc.now))
  {
    assert Coupled(plan, a, j.b.actors[a].pc, j.y.threads[a]);
  }

  /** The barrier goes on with an actor in a rate-limited phase only once it is out of limitRate. */
  lemma HeldInLimitRate(plan: Plan, j: Joint, a: nat, s: B.Event)
    requires Inv(plan, j) && Enabled(plan, j, Sync(a, s)) && InLimiter(j.y.threads[a].pc)
    ensures s.Throw? && j.y.threads[a].pc.Top?
  {
    assert Coupled(plan, a, j.b.actors[a].pc, j.y.threads[a]);
  }

  /**
   The abort flag does not end the retries: while the time of the next token has not come and the phase is
   not done, an attempt of an actor that cannot draw on a burst leads back to the very same state.
   */
  lemma RetriesIgnoreAbort(plan: Plan, j: Joint, a: nat)
    requires a < |j.b.actors| && a < |j.y.threads| && j.b.actors[a].pc.Check? && j.y.threads[a].pc.Top?
    requires j.y.limiter.burstSize <= 1 && j.y.clock < j.y.limiter.lastEmptied + j.y.limiter.rate
    requires R.StillGoing(j.y.threads[a], j.y.clock)
    ensures var events := [Pace(a, R.ReadClock), Pace(a, R.LoadTime), Pace(a, R.Retry)];
            Admissible(plan, j, events) && After(plan, j, events) == j
  {
    var e0, e1, e2 := Pace(a, R.ReadClock), Pace(a, R.LoadTime), Pace(a, R.Retry);
    var j1 := Apply(plan, j, e0);
    var j2 := Apply(plan, j1, e1);
    var j3 := Apply(plan, j2, e2);
    assert j3.y.threads == j.y.threads;
    assert [e0, e1, e2][1..] == [e1, e2] && [e1, e2][1..] == [e2] && [e2][1..] == [];
    assert After(plan, j2, [e2]) == j3;
    assert After(plan, j1, [e1, e2]) == j3;
  }

  /** Two actors; the first does not block its only phase, in which it is rate limited. */
  function TwoActors(): Plan {
    Plan(B.Workload([map[0 := false], map[0 := false]], 0), map[(0, 0) := Checker(None, None)])
  }

  function TwoActorsStart(): Joint {
    var t := R.Thread(R.Outside, Checker(None, None), 0, 0, 0, 0, 0);
    Joint(B.Init(TwoActors().workload), R.System(RateLimiter.Limiter(1, 1, 0, 0), 0, [t, t], 0, 0, 0))
  }

  /** The second actor throws and aborts while the first is about to call awaitPhaseStart. */
  lemma AbortedBeforeStart() returns (j: Joint)
    ensures Reaches(TwoActors(), TwoActorsStart(), j) && j.y == TwoActorsStart().y
    ensures j.b.m.errors && j.b.m.currentTokens == 0 && j.b.m.requireTokens == 2 && j.b.m.current == 0
    ensures |j.b.actors| == 2 && j.b.actors[0].pc == B.AtStart
  {
    hide Reaches, Admissible, After, Inv;
    var plan := TwoActors();
    var j0 := TwoActorsStart();
    var j1 := Apply(plan, j0, Sync(0, B.TestMorePhases));
    var j2 := Apply(plan, j1, Sync(1, B.Throw));
    j := Apply(plan, j2, Sync(1, B.CallAbort));
    ReachesOne(plan, j2, Sync(1, B.CallAbort));
    ReachesAfter(plan, j1, Sync(1, B.Throw), j);
    ReachesAfter(plan, j0, Sync(0, B.TestMorePhases), j);
  }

  /** Such states are reached: the first actor goes on into limitRate after that abort. */
  lemma AbortedYetRetrying() returns (j: Joint)
    ensures Reachable(TwoActors(), j) && j.b.m.errors
    ensures |j.b.actors| == 2 && j.b.actors[0].pc == B.Check(0) && |j.y.threads| == 2 && j.y.threads[0].pc == R.Top
    ensures j.y.limiter.burstSize == 1 && j.y.clock < j.y.limiter.lastEmptied + j.y.limiter.rate
    ensures R.StillGoing(j.y.threads[0], j.y.clock)
  {
    hide Reaches, Admissible, After, Inv;
    var plan := TwoActors();
    var j3 := AbortedBeforeStart();
    var j4 := Apply(plan, j3, Sync(0, B.CallStart));
    j := Apply(plan, j4, Sync(0, B.Resolve));
    ReachesOne(plan, j4, Sync(0, B.Resolve));
    ReachesAfter(plan, j3, Sync(0, B.CallStart), j);
    ReachesTransitive(plan, TwoActorsStart(), j3, j);
    assert Initial(plan, TwoActorsStart());
  }

  // Getting a token

  /** Actor a at its completion test, its thread inside limitRate. */
  ghost predicate Limited(plan: Plan, j: Joint, a: nat) {
    Inv(plan, j) && a < |j.b.actors| && j.b.actors[a].pc.Check? && InLimiter(j.y.threads[a].pc)
  }

  /** The next step of an uninterrupted attempt. */
  function NextPace(pc: R.Pc): R.Event
    requires InLimiter(pc)
  {
    match pc
    case Top => R.ReadClock
    case LoadBurst(_) => R.LoadCount
    case CasBurst(_, _) => R.ExchangeCount(false)
    case LoadEmptied(_) => R.LoadTime
    case CasEmptied(_, _) => R.ExchangeTime(false)
    case Increment => R.IncrementCount
    case Denied(_) => R.Retry
  }

  /** Steps to the end of the attempt. */
  function Rank(pc: R.Pc): nat {
    match pc
    case Top => 6
    case LoadBurst(_) => 5
    case CasBurst(_, _) => 4
    case LoadEmptied(_) => 4
    case CasEmptied(_, _) => 3
    case Increment => 2
    case Denied(_) => 1
    case _ => 0
  }

  /** k is j after steps of actor a's thread and the clock only, in the same iteration. */
  ghost predicate Paced(plan: Plan, j: Joint, a: nat, k: Joint) {
    && Inv(plan, k) && Reaches(plan, j, k) && k.b == j.b
    && a < |j.y.threads| == |k.y.threads|
    && k.y.threads[a].checker == j.y.threads[a].checker
    && k.y.threads[a].startedAt == j.y.threads[a].startedAt
    && k.y.threads[a].iteration == j.y.threads[a].iteration
  }

  lemma PacedTransitive(plan: Plan, i: Joint, a: nat, j: Joint, k: Joint)
    ensures Paced(plan, i, a, j) && Paced(plan, j, a, k) ==> Paced(plan, i, a, k)
  {
    ReachesTransitive(plan, i, j, k);
  }

  /** One step of the attempt. */
  lemma PaceOnce(plan: Plan, j: Joint, a: nat) returns (k: Joint)
    requires Limited(plan, j, a)
    ensures Paced(plan, j, a, k) && k.y.clock == j.y.clock
    ensures k.y == R.Apply(j.y, a, NextPace(j.y.threads[a].pc))
  {
    var e := Pace(a, NextPace(j.y.threads[a].pc));
    k := Apply(plan, j, e);
    ReachesOne(plan, j, e);
    PaceKeepsInv(plan, j, a, e.pace);
  }

  lemma AttemptShrinks(y: R.System, i: nat)
    requires i < |y.threads| && InLimiter(y.threads[i].pc) && !y.threads[i].pc.Top?
    ensures R.Enabled(y, i, NextPace(y.threads[i].pc))
    ensures var z := R.Apply(y, i, NextPace(y.threads[i].pc));
            && |z.threads| == |y.threads|
            && (z.threads[i].pc.Top? || z.threads[i].pc.Broke?
                || (InLimiter(z.threads[i].pc) && Rank(z.threads[i].pc) < Rank(y.threads[i].pc)))
  {
  }

  /** Whatever was going on, the current attempt ends: back at the top, or out. */
  lemma {:induction false} EndAttempt(plan: Plan, j: Joint, a: nat) returns (k: Joint)
    requires Limited(plan, j, a)
    ensures Paced(plan, j, a, k) && (k.y.threads[a].pc.Top? || k.y.threads[a].pc.Broke?)
    decreases Rank(j.y.threads[a].pc)
  {
    if j.y.threads[a].pc.Top? {
      ReachesItself(plan, j);
      return j;
    }
    AttemptShrinks(j.y, a);
    var next := PaceOnce(plan, j, a);
    if next.y.threads[a].pc.Top? || next.y.threads[a].pc.Broke? {
      return next;
    }
    k := EndAttempt(plan, next, a);
    PacedTransitive(plan, j, a, next, k);
  }

  /** An attempt that will not be denied if nobody interferes. */
  predicate Ripe(y: R.System, i: nat)
    requires i < |y.threads|
  {
    var l := y.limiter;
    match y.threads[i].pc
    case Top => l.lastEmptied + l.rate <= y.clock
    case LoadBurst(now) => l.lastEmptied + l.rate <= now
    case CasBurst(_, count) => count == l.burstCount
    case LoadEmptied(now) => l.lastEmptied + l.rate <= now
    case CasEmptied(_, time) => time == l.lastEmptied
    case Increment => true
    case _ => false
  }

  lemma RipePace(y: R.System, i: nat)
    requires i < |y.threads| && InLimiter(y.threads[i].pc) && Ripe(y, i)
    ensures R.Enabled(y, i, NextPace(y.threads[i].pc))
    ensures var z := R.Apply(y, i, NextPace(y.threads[i].pc));
            && |z.threads| == |y.threads|
            && (z.threads[i].pc == R.Broke(true)
                || (InLimiter(z.threads[i].pc) && Ripe(z, i) && Rank(z.threads[i].pc) < Rank(y.threads[i].pc)))
  {
  }

  lemma {:induction false} WinToken(plan: Plan, j: Joint, a: nat) returns (k: Joint)
    requires Limited(plan, j, a) && Ripe(j.y, a)
    ensures Paced(plan, j, a, k) && k.y.threads[a].pc == R.Broke(true)
    decreases Rank(j.y.threads[a].pc)
  {
    RipePace(j.y, a);
    k := PaceOnce(plan, j, a);
    if !k.y.threads[a].pc.Broke? {
      var next := k;
      k := WinToken(plan, next, a);
      PacedTransitive(plan, j, a, next, k);
    }
  }

  lemma LetTimePass(plan: Plan, j: Joint, a: nat, d: nat) returns (k: Joint)
    requires Inv(plan, j) && a < |j.b.actors|
    ensures Paced(plan, j, a, k) && k.y == j.y.(clock := j.y.clock + d)
  {
    k := Apply(plan, j, Pass(d));
    ReachesOne(plan, j, Pass(d));
    StepKeepsInv(plan, j, Pass(d));
  }

  /** An actor in limitRate gets out if it is given the time until the next token, whatever the others left behind. */
  lemma GetThrough(plan: Plan, j: Joint, a: nat) returns (k: Joint)
    requires Limited(plan, j, a)
    ensures Paced(plan, j, a, k) && k.y.threads[a].pc.Broke?
  {
    k := EndAttempt(plan, j, a);
    if k.y.threads[a].pc.Top? {
      var top := k;
      var due := top.y.limiter.lastEmptied + top.y.limiter.rate;
      var ripe := LetTimePass(plan, top, a, if due > top.y.clock then due - top.y.clock else 0);
      PacedTransitive(plan, j, a, top, ripe);
      k := WinToken(plan, ripe, a);
      PacedTransitive(plan, j, a, ripe, k);
    }
  }

  // Taking barrier steps

  /** Actor a's thread does not keep it from a completion test. */
  predicate Free(j: Joint, a: nat)
    requires a < |j.y.threads|
  {
    j.y.threads[a].pc.Outside? || j.y.threads[a].pc.Broke?
  }

  /** A barrier step of an actor that is not held in limitRate. */
  lemma SyncEnabled(plan: Plan, j: Joint, a: nat, s: B.Event)
    requires Inv(plan, j) && B.Enabled(plan.workload, j.b, a, s) && !s.Throw?
    requires (s.ReadErrors? ==> Free(j, a)) && DecidesByClock(j, a, s)
    ensures Enabled(plan, j, Sync(a, s))
  {
    assert Coupled(plan, a, j.b.actors[a].pc, j.y.threads[a]);
  }

  lemma SyncOnce(plan: Plan, j: Joint, a: nat, s: B.Event) returns (k: Joint)
    requires Inv(plan, j) && B.Enabled(plan.workload, j.b, a, s) && !s.Throw?
    requires (s.ReadErrors? ==> Free(j, a)) && DecidesByClock(j, a, s)
    ensures Enabled(plan, j, Sync(a, s)) && k == Apply(plan, j, Sync(a, s))
    ensures Inv(plan, k) && Reaches(plan, j, k) && k.b == B.Apply(plan.workload, j.b, a, s)
  {
    SyncEnabled(plan, j, a, s);
    k := Apply(plan, j, Sync(a, s));
    ReachesOne(plan, j, Sync(a, s));
    StepKeepsInv(plan, j, Sync(a, s));
  }

  /** The next barrier event of a live actor: a rate-limited actor that blocks decides by the clock. */
  function NextSync(plan: Plan, j: Joint, a: nat): (s: B.Event)
    requires a < |j.b.actors| == |j.y.threads| && BT.Live(j.b.actors[a].pc)
    ensures !s.Throw? && !s.Spurious?
  {
    var t := j.y.threads[a];
    if j.b.actors[a].pc.Decide? && !t.pc.Outside? && DoesBlock(t.checker)
    then B.DecideDone(IsDone(t.checker, t.startedAt, t.iteration, j.y.clock))
    else BT.NextEvent(plan.workload, j.b, a)
  }

  lemma NextSyncEnabled(plan: Plan, j: Joint, a: nat)
    requires Inv(plan, j) && a < |j.b.actors| && BT.Live(j.b.actors[a].pc)
    ensures var s := NextSync(plan, j, a);
            && B.Enabled(plan.workload, j.b, a, s) && DecidesByClock(j, a, s)
            && (BP.AllConfigured(plan.workload) && !j.b.failed ==> !B.Apply(plan.workload, j.b, a, s).failed)
  {
    assert Coupled(plan, a, j.b.actors[a].pc, j.y.threads[a]);
    if BP.AllConfigured(plan.workload) && !j.b.failed {
      BP.NextDoesNotFail(plan.workload, j.b, a);
    }
  }

  /** A live actor can take its next barrier step, after getting through limitRate where it has to. */
  lemma Advance(plan: Plan, j: Joint, a: nat) returns (k: Joint, s: B.Event)
    requires Inv(plan, j) && a < |j.b.actors| && BT.Live(j.b.actors[a].pc)
    ensures Inv(plan, k) && Reaches(plan, j, k)
    ensures B.Enabled(plan.workload, j.b, a, s) && k.b == B.Apply(plan.workload, j.b, a, s)
    ensures s == NextSync(plan, j, a)
    ensures BP.AllConfigured(plan.workload) && !j.b.failed ==> !k.b.failed
  {
    assert Coupled(plan, a, j.b.actors[a].pc, j.y.threads[a]);
    var free := j;
    if j.b.actors[a].pc.Check? && !Free(j, a) {
      free := GetThrough(plan, j, a);
    } else {
      ReachesItself(plan, j);
    }
    s := NextSync(plan, free, a);
    NextSyncEnabled(plan, free, a);
    k := SyncOnce(plan, free, a, s);
    ReachesTransitive(plan, j, free, k);
  }

  // Leaving a rate-limited phase that the actor blocks

  /** Actor a iterates in a rate-limited phase that it blocks, and nobody has aborted. */
  ghost predicate Iterating(plan: Plan, j: Joint, a: nat) {
    && Inv(plan, j) && !j.b.m.errors && a < |j.b.actors| && BP.InLoop(j.b.actors[a].pc)
    && (a, j.b.actors[a].pc.phase) in plan.limited && DoesBlock(j.y.threads[a].checker)
  }

  /** Iterations that Repeat still asks for once the current body is over. */
  function ToRepeat(pc: B.Pc, t: R.Thread): nat {
    Shortfall(Repeat(t.checker), if pc.Body? then t.iteration + 1 else t.iteration)
  }

  function LoopRank(pc: B.Pc): nat {
    match pc
    case Body(_) => 2
    case Check(_) => 1
    case _ => 0
  }

  /** k is j with actor a somewhere else, in phase p. */
  ghost predicate OnlyMoved(plan: Plan, j: Joint, a: nat, k: Joint) {
    && Inv(plan, k) && Reaches(plan, j, k) && a < |j.b.actors|
    && k.b.m == j.b.m && k.b.failed == j.b.failed
    && |k.b.actors| == |j.b.actors| && k.b.actors == j.b.actors[a := k.b.actors[a]]
  }

  lemma OnlyMovedTransitive(plan: Plan, i: Joint, a: nat, j: Joint, k: Joint)
    ensures OnlyMoved(plan, i, a, j) && OnlyMoved(plan, j, a, k) ==> OnlyMoved(plan, i, a, k)
  {
    ReachesTransitive(plan, i, j, k);
  }

  lemma ThroughTest(plan: Plan, j: Joint, a: nat) returns (k: Joint)
    requires Iterating(plan, j, a) && j.b.actors[a].pc.Check?
    ensures OnlyMoved(plan, j, a, k) && k.b.actors[a].pc == B.Decide(j.b.actors[a].pc.phase)
    ensures a < |k.y.threads| && k.y.threads[a].checker == j.y.threads[a].checker
    ensures k.y.threads[a].iteration == j.y.threads[a].iteration
  {
    assert Coupled(plan, a, j.b.actors[a].pc, j.y.threads[a]);
    var free := j;
    if Free(j, a) {
      ReachesItself(plan, j);
    } else {
      free := GetThrough(plan, j, a);
    }
    k := SyncOnce(plan, free, a, B.ReadErrors);
    ReachesTransitive(plan, j, free, k);
  }

  lemma ThroughBody(plan: Plan, j: Joint, a: nat) returns (k: Joint)
    requires Iterating(plan, j, a) && j.b.actors[a].pc.Body?
    ensures OnlyMoved(plan, j, a, k) && k.b.actors[a].pc == B.Check(j.b.actors[a].pc.phase)
    ensures a < |k.y.threads| && k.y.threads[a].checker == j.y.threads[a].checker
    ensures k.y.threads[a].iteration == j.y.threads[a].iteration + 1
  {
    assert Coupled(plan, a, j.b.actors[a].pc, j.y.threads[a]);
    k := SyncOnce(plan, j, a, B.EndBody);
  }

  lemma IntoBody(plan: Plan, j: Joint, a: nat) returns (k: Joint)
    requires Iterating(plan, j, a) && j.b.actors[a].pc.Decide?
    requires j.y.threads[a].iteration < Repeat(j.y.threads[a].checker)
    ensures OnlyMoved(plan, j, a, k) && k.b.actors[a].pc == B.Body(j.b.actors[a].pc.phase)
    ensures a < |k.y.threads| && k.y.threads[a].checker == j.y.threads[a].checker
    ensures k.y.threads[a].iteration == j.y.threads[a].iteration
  {
    assert Coupled(plan, a, j.b.actors[a].pc, j.y.threads[a]);
    assert DecidesByClock(j, a, B.DecideDone(false));
    k := SyncOnce(plan, j, a, B.DecideDone(false));
    assert k.y == R.Apply(j.y, a, R.Proceed(false));
  }

  /** Once Repeat is reached, passing time brings the Duration about. */
  lemma OutOfLoop(plan: Plan, j: Joint, a: nat) returns (k: Joint)
    requires Iterating(plan, j, a) && j.b.actors[a].pc.Decide?
    requires j.y.threads[a].iteration >= Repeat(j.y.threads[a].checker)
    ensures OnlyMoved(plan, j, a, k) && k.b.actors[a].pc == B.Leave(j.b.actors[a].pc.phase)
  {
    var t := j.y.threads[a];
    var due := if t.checker.minDuration.Some? then t.startedAt + t.checker.minDuration.value else j.y.clock;
    var later := LetTimePass(plan, j, a, if due > j.y.clock then due - j.y.clock else 0);
    k := SyncOnce(plan, later, a, B.DecideDone(true));
    ReachesTransitive(plan, j, later, k);
  }

  /** With a token for every iteration and time passing, the loop of a blocked phase ends by its own test. */
  lemma {:induction false} LeaveLoop(plan: Plan, j: Joint, a: nat) returns (k: Joint)
    requires Iterating(plan, j, a)
    ensures OnlyMoved(plan, j, a, k) && k.b.actors[a].pc == B.Leave(j.b.actors[a].pc.phase)
    decreases ToRepeat(j.b.actors[a].pc, j.y.threads[a]), LoopRank(j.b.actors[a].pc)
  {
    var pc := j.b.actors[a].pc;
    var next: Joint;
    if pc.Check? {
      next := ThroughTest(plan, j, a);
    } else if pc.Body? {
      next := ThroughBody(plan, j, a);
    } else if j.y.threads[a].iteration < Repeat(j.y.threads[a].checker) {
      next := IntoBody(plan, j, a);
    } else {
      k := OutOfLoop(plan, j, a);
      return;
    }
    k := LeaveLoop(plan, next, a);
    OnlyMovedTransitive(plan, j, a, next, k);
  }

  // The way to the end

  ghost predicate Finished(plan: Plan, j: Joint, k: Joint) {
    && Reaches(plan, j, k) && Inv(plan, k) && BT.AllFinished(k.b)
    && (BP.AllConfigured(plan.workload) && !j.b.failed ==> !k.b.failed)
  }

  lemma FinishedVia(plan: Plan, j: Joint, next: Joint, k: Joint)
    ensures Reaches(plan, j, next) && Finished(plan, next, k)
            && (BP.AllConfigured(plan.workload) && !j.b.failed ==> !next.b.failed)
            ==> Finished(plan, j, k)
  {
    ReachesTransitive(plan, j, next, k);
  }

  lemma {:induction false} FinishAborted(plan: Plan, j: Joint) returns (k: Joint)
    requires Inv(plan, j) && j.b.m.errors
    ensures Finished(plan, j, k)
    decreases BP.TotalDistance(plan.workload, BP.Draining, j.b.actors)
  {
    if BT.AllFinished(j.b) {
      ReachesItself(plan, j);
      return j;
    }
    BT.SomebodyLive(plan.workload, j.b);
    var a :| 0 <= a < |j.b.actors| && BT.Live(j.b.actors[a].pc);
    var next, s := Advance(plan, j, a);
    BP.DrainStep(plan.workload, j.b, a, s);
    k := FinishAborted(plan, next);
    FinishedVia(plan, j, next, k);
  }

  /** From s to t: a boundary crossed, an actor on its way out, or less to do in the same stage. */
  ghost predicate Closer(w: B.Workload, s: B.State, t: B.State) {
    || BP.BoundariesLeft(t.m) < BP.BoundariesLeft(s.m)
    || (exists a :: BP.Exiter(t, a))
    || (BP.BoundariesLeft(t.m) == BP.BoundariesLeft(s.m) && BP.StageOf(t.m) == BP.StageOf(s.m) &&
        BP.TotalDistance(w, BP.StageOf(s.m), t.actors) < BP.TotalDistance(w, BP.StageOf(s.m), s.actors))
  }

  /** In an unaborted state, actor a is the one to move next: it holds the phase open, or keeps it from starting. */
  ghost predicate Chosen(plan: Plan, j: Joint, a: nat) {
    && Inv(plan, j) && !j.b.m.errors && a < |j.b.actors|
    && BT.Live(j.b.actors[a].pc) && !j.b.actors[a].pc.Exiting?
    && if j.b.m.state == PhaseStarted then B.Holds(plan.workload, a, j.b.actors[a].pc) else !j.b.actors[a].pc.WaitStart?
  }

  lemma LoopIsCloser(plan: Plan, j: Joint, a: nat, k: Joint)
    requires Chosen(plan, j, a) && BP.InLoop(j.b.actors[a].pc)
    requires OnlyMoved(plan, j, a, k) && k.b.actors[a].pc == B.Leave(j.b.actors[a].pc.phase)
    ensures Closer(plan.workload, j.b, k.b)
  {
    BP.TotalUpdate(plan.workload, BP.StageOf(j.b.m), j.b.actors, a, k.b.actors[a]);
  }

  lemma StepIsCloser(w: B.Workload, s: B.State, a: nat)
    requires BI.Inv(w, s) && !s.m.errors && a < |s.actors|
    requires BT.Live(s.actors[a].pc) && !s.actors[a].pc.Exiting?
    requires if s.m.state == PhaseStarted then B.Holds(w, a, s.actors[a].pc) else !s.actors[a].pc.WaitStart?
    ensures var t := B.Apply(w, s, a, BT.NextEvent(w, s, a));
            !t.m.errors && |t.actors| == |s.actors| && Closer(w, s, t)
  {
    assert BI.ActorOk(w, s.m, s.failed, a, s.actors[a]);
    BP.AdvanceActor(w, s, a);
    BP.TotalUpdate(w, BP.StageOf(s.m), s.actors, a, B.Apply(w, s, a, BT.NextEvent(w, s, a)).actors[a]);
  }

  /** The chosen actor gets on: out of its loop if it iterates under a rate, by one barrier step otherwise. */
  lemma GetOn(plan: Plan, j: Joint, a: nat) returns (k: Joint)
    requires Chosen(plan, j, a)
    ensures Inv(plan, k) && Reaches(plan, j, k) && !k.b.m.errors && |k.b.actors| == |j.b.actors|
    ensures BP.AllConfigured(plan.workload) && !j.b.failed ==> !k.b.failed
    ensures Closer(plan.workload, j.b, k.b)
  {
    assert Coupled(plan, a, j.b.actors[a].pc, j.y.threads[a]);
    if Iterating(plan, j, a) {
      k := LeaveLoop(plan, j, a);
      LoopIsCloser(plan, j, a, k);
    } else {
      var s: B.Event;
      k, s := Advance(plan, j, a);
      StepIsCloser(plan.workload, j.b, a);
    }
  }

  lemma {:induction false} FinishRunning(plan: Plan, j: Joint) returns (k: Joint)
    requires Inv(plan, j) && !j.b.m.errors && |j.b.actors| > 0
    ensures Finished(plan, j, k)
    decreases if exists b :: BP.Exiter(j.b, b) then 0 else 1, BP.BoundariesLeft(j.b.m),
              BP.TotalDistance(plan.workload, BP.StageOf(j.b.m), j.b.actors)
  {
    var next: Joint;
    if b :| BP.Exiter(j.b, b) {
      var s: B.Event;
      next, s := Advance(plan, j, b);
      k := FinishAborted(plan, next);
    } else {
      var a: nat;
      if j.b.m.state == PhaseStarted {
        a := BP.HolderIsLive(plan.workload, j.b);
      } else {
        a := BP.StragglerIsLive(plan.workload, j.b);
      }
      assert !BP.Exiter(j.b, a);
      next := GetOn(plan, j, a);
      k := FinishRunning(plan, next);
    }
    FinishedVia(plan, j, next, k);
  }

  /**
   No reachable joint state is a trap, whoever is inside limitRate: with time passing, some schedule without
   exceptions finishes all actors, every blocked rate-limited phase ending by its own Repeat and Duration; and
   if nobody failed so far and every phase is configured, all actors have then entered every phase in order.
   */
  lemma CanAlwaysFinish(plan: Plan, j: Joint) returns (k: Joint)
    requires Reachable(plan, j)
    ensures Reaches(plan, j, k) && BT.AllFinished(k.b)
    ensures BP.AllConfigured(plan.workload) && !j.b.failed ==>
              forall a :: 0 <= a < |k.b.actors| ==> k.b.actors[a].entered == BI.Upto(plan.workload.max + 1)
  {
    ReachableBarrier(plan, j);
    if j.b.m.errors {
      k := FinishAborted(plan, j);
    } else if |j.b.actors| > 0 {
      k := FinishRunning(plan, j);
    } else {
      ReachesItself(plan, j);
      k := j;
    }
    forall a | 0 <= a < |k.b.actors| && !k.b.failed
      ensures k.b.actors[a].entered == BI.Upto(plan.workload.max + 1)
    {
      assert BI.ActorOk(plan.workload, k.b.m, k.b.failed, a, k.b.actors[a]);
    }
  }
}
