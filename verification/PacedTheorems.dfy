/** What the barrier and the rate limiter promise together, stated of the events of whole runs. */
module PacedTheorems {
  import opened OrchestratorMonitor
  import opened Wrappers
  import opened PhaseIteration
  import opened PacedPhases
  import RateLimiter
  import B = Barrier
  import BI = BarrierInvariant
  import BP = BarrierProgress
  import R = RateSystem
  import RB = RateBound

  // The rate of a phase

  predicate FiresStartHooks(j: Joint, e: Event) {
    e.Sync? && FiresStart(j, e.sync)
  }

  /** An actor begins a body of a rate-limited phase. */
  predicate BeginsLimitedBody(plan: Plan, j: Joint, e: Event) {
    && e.Sync? && e.sync == B.DecideDone(false) && e.actor < |j.b.actors| && j.b.actors[e.actor].pc.Decide?
    && (e.actor, j.b.actors[e.actor].pc.phase) in plan.limited
  }

  /** How many bodies of rate-limited phases begin in a run. */
  ghost function LimitedBodies(plan: Plan, j: Joint, events: seq<Event>): nat
    requires Admissible(plan, j, events)
    decreases |events|
  {
    if events == [] then 0
    else
      (if BeginsLimitedBody(plan, j, events[0]) then 1 else 0)
      + LimitedBodies(plan, Apply(plan, j, events[0]), events[1..])
  }

  /** No start hooks fire in a run. */
  ghost predicate SamePhase(plan: Plan, j: Joint, events: seq<Event>)
    requires Admissible(plan, j, events)
    decreases |events|
  {
    events == []
    || (!FiresStartHooks(j, events[0]) && SamePhase(plan, Apply(plan, j, events[0]), events[1..]))
  }

  /** What steps other than a reset keep: the time and count of the last reset, and the parameters. */
  predicate SameReset(y: R.System, z: R.System) {
    && z.resetAt == y.resetAt && z.countAtReset == y.countAtReset
    && z.limiter.rate == y.limiter.rate && z.limiter.burstSize == y.limiter.burstSize
  }

  lemma ThreadTally(y: R.System, i: nat, r: R.Event)
    requires R.Enabled(y, i, r) && !r.ResetLimiter? && !r.Tick?
    ensures var z := R.Apply(y, i, r);
            && SameReset(y, z)
            && RB.Total(RB.Begun, z.threads) == RB.Total(RB.Begun, y.threads) + if r == R.Proceed(false) then 1 else 0
  {
    var z := R.Apply(y, i, r);
    assert z.threads == y.threads[i := z.threads[i]];
    RB.TotalUpdate(RB.Begun, y.threads, i, z.threads[i]);
  }

  /** The thread takes the step into a body exactly when the actor of a rate-limited phase does. */
  lemma CompanionBegins(plan: Plan, j: Joint, a: nat, s: B.Event)
    requires Inv(plan, j) && Enabled(plan, j, Sync(a, s))
    ensures Companion(plan, j, a, s) == Some(R.Proceed(false)) <==> BeginsLimitedBody(plan, j, Sync(a, s))
  {
    assert Coupled(plan, a, j.b.actors[a].pc, j.y.threads[a]);
  }

  lemma StepTally(plan: Plan, j: Joint, e: Event)
    requires Inv(plan, j) && Enabled(plan, j, e) && !FiresStartHooks(j, e)
    ensures var k := Apply(plan, j, e);
            && SameReset(j.y, k.y)
            && RB.Total(RB.Begun, k.y.threads)
               == RB.Total(RB.Begun, j.y.threads) + if BeginsLimitedBody(plan, j, e) then 1 else 0
  {
    match e
    case Pass(_) =>
    case Pace(a, r) => ThreadTally(j.y, a, r);
    case Sync(a, s) =>
      CompanionBegins(plan, j, a, s);
      var c := Companion(plan, j, a, s);
      if c.Some? {
        ThreadTally(j.y, a, c.value);
      }
  }

  lemma {:induction false} RunTally(plan: Plan, j: Joint, events: seq<Event>)
    requires Inv(plan, j) && Admissible(plan, j, events) && SamePhase(plan, j, events)
    ensures var k := After(plan, j, events);
            && SameReset(j.y, k.y)
            && RB.Total(RB.Begun, k.y.threads) == RB.Total(RB.Begun, j.y.threads) + LimitedBodies(plan, j, events)
    decreases |events|
  {
    if events != [] {
      StepTally(plan, j, events[0]);
      StepKeepsInv(plan, j, events[0]);
      RunTally(plan, Apply(plan, j, events[0]), events[1..]);
    }
  }

  lemma BodiesWithinAllowance(y: R.System)
    requires RB.Inv(y)
    ensures RB.Total(RB.Begun, y.threads) <= RB.Allowance(y)
  {
    RB.GrantsWithinAllowance(y);
    forall i | 0 <= i < |y.threads|
      ensures y.threads[i].bodies <= y.threads[i].grants
    {
      assert RB.ThreadOk(y.limiter, y.clock, y.threads[i]);
    }
    RB.BegunWithinGranted(y.threads);
  }

  /** Firing start hooks records the time and the count, and clears the tallies. */
  lemma StartResets(plan: Plan, j: Joint, a: nat)
    requires Inv(plan, j) && Enabled(plan, j, Sync(a, B.CallStart)) && StartFires(j.b.m, 1)
    ensures var k := Apply(plan, j, Sync(a, B.CallStart));
            && k.b.m.hookLog != [] && k.b.m.errors == j.b.m.errors && Inv(plan, k)
            && k.y.resetAt == j.y.clock && k.y.countAtReset == j.y.limiter.burstCount
            && k.y.limiter.rate == j.y.limiter.rate && k.y.limiter.burstSize == j.y.limiter.burstSize
            && RB.Total(RB.Begun, k.y.threads) == 0
  {
    var k := Apply(plan, j, Sync(a, B.CallStart));
    StepKeepsInv(plan, j, Sync(a, B.CallStart));
    RB.TotalZero(RB.Begun, k.y.threads);
  }

  lemma {:induction false} HooksStay(plan: Plan, j: Joint, events: seq<Event>)
    requires Admissible(plan, j, events) && j.b.m.hookLog != []
    ensures After(plan, j, events).b.m.hookLog != []
    decreases |events|
  {
    if events != [] {
      HooksStay(plan, Apply(plan, j, events[0]), events[1..]);
    }
  }

  /** The most bodies in a time: one burst per period begun, and what is left of the burst under way. */
  function Limit(l: RateLimiter.Limiter, elapsed: int): int
    requires l.rate >= 1
  {
    var b := RateLimiter.Burst(l);
    b * (elapsed / l.rate + 1) + (b - l.burstCount % b) % b
  }

  lemma AllowanceIsLimit(y: R.System, l: RateLimiter.Limiter, t0: int)
    requires l.rate >= 1 && y.limiter.rate == l.rate && y.limiter.burstSize == l.burstSize
    requires y.resetAt == t0 && y.countAtReset == l.burstCount
    ensures RB.Allowance(y) == Limit(l, y.clock - t0)
  {
  }

  /** From the start hooks on, for any state in which they fire. */
  lemma BodiesSinceStart(plan: Plan, start: Joint, a: nat, begun: Joint, post: seq<Event>, k: Joint)
    requires Inv(plan, start) && Enabled(plan, start, Sync(a, B.CallStart)) && StartFires(start.b.m, 1)
    requires begun == Apply(plan, start, Sync(a, B.CallStart))
    requires Admissible(plan, begun, post) && SamePhase(plan, begun, post)
    requires k == After(plan, begun, post) && !k.b.m.errors
    ensures LimitedBodies(plan, begun, post) <= Limit(start.y.limiter, k.y.clock - start.y.clock)
  {
    hide Limit, Apply, Enabled, B.Apply;
    StartResets(plan, start, a);
    RunKeepsInv(plan, begun, post);
    RunTally(plan, begun, post);
    HooksStay(plan, begun, post);
    BodiesWithinAllowance(k.y);
    AllowanceIsLimit(k.y, start.y.limiter, start.y.clock);
  }

  /**
   The composed promise.  Let the start hooks of some phase fire at time t0, when b0 tokens have been counted, and let
   no further start hooks fire since.  Then, as long as nobody has aborted, all rate-limited actors together have begun
   at most B * (floor((now - t0) / R) + 1) + ((B - b0 mod B) mod B) bodies of that phase.
   */
  lemma PhaseBodiesWithinRate(plan: Plan, j: Joint, pre: seq<Event>, a: nat, post: seq<Event>)
    requires Initial(plan, j) && Admissible(plan, j, pre)
    requires var start := After(plan, j, pre);
             && Enabled(plan, start, Sync(a, B.CallStart)) && StartFires(start.b.m, 1)
             && var begun := Apply(plan, start, Sync(a, B.CallStart));
                && Admissible(plan, begun, post) && SamePhase(plan, begun, post)
                && !After(plan, begun, post).b.m.errors
    ensures var start := After(plan, j, pre);
            var begun := Apply(plan, start, Sync(a, B.CallStart));
            var now := After(plan, begun, post).y.clock;
            && start.y.limiter.rate == j.y.limiter.rate >= 1 && start.y.limiter.burstSize == j.y.limiter.burstSize
            && LimitedBodies(plan, begun, post) <= Limit(start.y.limiter, now - start.y.clock)
  {
    var start := After(plan, j, pre);
    var begun := Apply(plan, start, Sync(a, B.CallStart));
    InitialInv(plan, j);
    RunKeepsInv(plan, j, pre);
    ParametersStay(plan, j, pre);
    BodiesSinceStart(plan, start, a, begun, post, After(plan, begun, post));
  }

  lemma {:induction false} ParametersStay(plan: Plan, j: Joint, events: seq<Event>)
    requires Inv(plan, j) && Admissible(plan, j, events)
    ensures var k := After(plan, j, events);
            k.y.limiter.rate == j.y.limiter.rate && k.y.limiter.burstSize == j.y.limiter.burstSize
    decreases |events|
  {
    if events != [] {
      if !FiresStartHooks(j, events[0]) {
        StepTally(plan, j, events[0]);
      }
      StepKeepsInv(plan, j, events[0]);
      ParametersStay(plan, Apply(plan, j, events[0]), events[1..]);
    }
  }

  // The course of a rate-limited phase

  /** How many bodies actor a begins. */
  function BodiesOf(a: nat, events: seq<Event>): nat {
    if events == [] then 0
    else (if events[0] == Sync(a, B.DecideDone(false)) then 1 else 0) + BodiesOf(a, events[1..])
  }

  /** Actor a stays in the inner iterator of its phase. */
  ghost predicate StaysInLoop(plan: Plan, j: Joint, a: nat, events: seq<Event>)
    requires Admissible(plan, j, events)
    decreases |events|
  {
    && a < |j.b.actors| && BP.InLoop(j.b.actors[a].pc)
    && (events == [] || StaysInLoop(plan, Apply(plan, j, events[0]), a, events[1..]))
  }

  /** Actor a entered rate-limited phase p at time t0 and has begun n bodies there. */
  ghost predicate OnCourse(plan: Plan, j: Joint, a: nat, p: nat, t0: int, n: nat) {
    && Inv(plan, j) && a < |j.b.actors| && BP.InLoop(j.b.actors[a].pc) && j.b.actors[a].pc.phase == p
    && (a, p) in plan.limited
    && j.y.threads[a].startedAt == t0
    && j.y.threads[a].iteration + (if j.b.actors[a].pc.Body? then 1 else 0) == n
  }

  lemma EnteringIsOnCourse(plan: Plan, j: Joint, a: nat)
    requires Inv(plan, j) && Enabled(plan, j, Sync(a, B.Resolve)) && (a, j.b.actors[a].pc.phase) in plan.limited
    ensures OnCourse(plan, Apply(plan, j, Sync(a, B.Resolve)), a, j.b.actors[a].pc.phase, j.y.clock, 0)
  {
    StepKeepsInv(plan, j, Sync(a, B.Resolve));
    var p := j.b.actors[a].pc.phase;
    assert B.Configured(plan.workload, a, p);
    assert B.Apply(plan.workload, j.b, a, B.Resolve).actors[a].pc == B.Check(p);
  }

  /** Another actor's step, whatever it is, leaves actor a and its thread's course alone. */
  lemma OthersKeepCourse(plan: Plan, j: Joint, e: Event, a: nat)
    requires Inv(plan, j) && Enabled(plan, j, e) && a < |j.b.actors| && BP.InLoop(j.b.actors[a].pc)
    requires e.Pass? || e.actor != a
    ensures var k := Apply(plan, j, e);
            && |k.b.actors| == |j.b.actors| && |k.y.threads| == |j.y.threads|
            && k.b.actors[a].pc == j.b.actors[a].pc
            && k.y.threads[a].startedAt == j.y.threads[a].startedAt
            && k.y.threads[a].iteration == j.y.threads[a].iteration
  {
    match e
    case Pass(_) =>
    case Pace(b, r) => ThreadStepFrame(j.y, b, r);
    case Sync(b, s) =>
      BI.OthersOnlyNotified(plan.workload, j.b, b, s, a);
      var c := Companion(plan, j, b, s);
      if c.Some? && !FiresStart(j, s) {
        ThreadStepFrame(j.y, b, c.value);
      }
  }

  /** Actor a's own step in the inner iterator counts a body when it begins one. */
  lemma OwnStepKeepsCourse(plan: Plan, j: Joint, s: B.Event, a: nat, p: nat, t0: int, n: nat)
    requires OnCourse(plan, j, a, p, t0, n) && Enabled(plan, j, Sync(a, s))
    requires a < |Apply(plan, j, Sync(a, s)).b.actors| && BP.InLoop(Apply(plan, j, Sync(a, s)).b.actors[a].pc)
    ensures var k := Apply(plan, j, Sync(a, s));
            && a < |k.y.threads|
            && k.b.actors[a].pc.phase == p && k.y.threads[a].startedAt == t0
            && k.y.threads[a].iteration + (if k.b.actors[a].pc.Body? then 1 else 0)
               == n + if s == B.DecideDone(false) then 1 else 0
  {
    assert Coupled(plan, a, j.b.actors[a].pc, j.y.threads[a]);
    assert s.ReadErrors? || s.DecideDone? || s.EndBody? || s.Throw?;
  }

  lemma OwnPaceKeepsCourse(plan: Plan, j: Joint, r: R.Event, a: nat, p: nat, t0: int, n: nat)
    requires OnCourse(plan, j, a, p, t0, n) && Enabled(plan, j, Pace(a, r))
    ensures var k := Apply(plan, j, Pace(a, r));
            && k.b == j.b && a < |k.y.threads| && k.y.threads[a].startedAt == t0
            && k.y.threads[a].iteration == j.y.threads[a].iteration
  {
    assert Coupled(plan, a, j.b.actors[a].pc, j.y.threads[a]);
  }

  lemma StepKeepsCourse(plan: Plan, j: Joint, e: Event, a: nat, p: nat, t0: int, n: nat)
    requires OnCourse(plan, j, a, p, t0, n) && Enabled(plan, j, e)
    requires a < |Apply(plan, j, e).b.actors| && BP.InLoop(Apply(plan, j, e).b.actors[a].pc)
    ensures OnCourse(plan, Apply(plan, j, e), a, p, t0, n + if e == Sync(a, B.DecideDone(false)) then 1 else 0)
  {
    StepKeepsInv(plan, j, e);
    if e.Pass? || e.actor != a {
      OthersKeepCourse(plan, j, e, a);
    } else {
      match e
      case Pace(_, r) => OwnPaceKeepsCourse(plan, j, r, a, p, t0, n);
      case Sync(_, s) => OwnStepKeepsCourse(plan, j, s, a, p, t0, n);
    }
  }

  lemma {:induction false} RunKeepsCourse(plan: Plan, j: Joint, events: seq<Event>, a: nat, p: nat, t0: int, n: nat)
    requires OnCourse(plan, j, a, p, t0, n) && Admissible(plan, j, events) && StaysInLoop(plan, j, a, events)
    ensures OnCourse(plan, After(plan, j, events), a, p, t0, n + BodiesOf(a, events))
    decreases |events|
  {
    if events != [] {
      StepKeepsCourse(plan, j, events[0], a, p, t0, n);
      var n' := n + if events[0] == Sync(a, B.DecideDone(false)) then 1 else 0;
      RunKeepsCourse(plan, Apply(plan, j, events[0]), events[1..], a, p, t0, n');
    }
  }

  /**
   An actor that entered a rate-limited phase it blocks decides to leave it exactly when it has begun Repeat bodies
   there and the Duration has passed since it entered, whatever everybody else did in between.
   */
  lemma BlockedPhaseRunsItsCourse(plan: Plan, j: Joint, pre: seq<Event>, a: nat, events: seq<Event>, done: bool)
    requires Initial(plan, j) && Admissible(plan, j, pre)
    requires var entry := After(plan, j, pre);
             && Enabled(plan, entry, Sync(a, B.Resolve))
             && (a, entry.b.actors[a].pc.phase) in plan.limited
             && DoesBlock(plan.limited[(a, entry.b.actors[a].pc.phase)])
             && var entered := Apply(plan, entry, Sync(a, B.Resolve));
                && Admissible(plan, entered, events) && StaysInLoop(plan, entered, a, events)
                && Enabled(plan, After(plan, entered, events), Sync(a, B.DecideDone(done)))
    ensures var entry := After(plan, j, pre);
            var now := After(plan, Apply(plan, entry, Sync(a, B.Resolve)), events).y.clock;
            var c := plan.limited[(a, entry.b.actors[a].pc.phase)];
            done <==>
            && (c.minIterations.Some? ==> BodiesOf(a, events) >= c.minIterations.value)
            && (c.minDuration.Some? ==> now - entry.y.clock >= c.minDuration.value)
  {
    InitialInv(plan, j);
    RunKeepsInv(plan, j, pre);
    var entry := After(plan, j, pre);
    var p := entry.b.actors[a].pc.phase;
    var entered := Apply(plan, entry, Sync(a, B.Resolve));
    EnteringIsOnCourse(plan, entry, a);
    RunKeepsCourse(plan, entered, events, a, p, entry.y.clock, 0);
    var k := After(plan, entered, events);
    assert Coupled(plan, a, k.b.actors[a].pc, k.y.threads[a]);
  }
}
