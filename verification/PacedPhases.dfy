/**
 The phase barrier and a shared rate limiter together: the limiter is reset by the start hooks, and its
 threads are the actors inside the inner iterator of a rate-limited phase.
 */
module PacedPhases {
  import opened OrchestratorMonitor
  import opened Wrappers
  import opened PhaseIteration
  import RateLimiter
  import B = Barrier
  import BI = BarrierInvariant
  import R = RateSystem
  import RB = RateBound

  /** `limited` gives the completion test of every actor and phase that uses the limiter. */
  datatype Plan = Plan(workload: B.Workload, limited: map<(nat, nat), Checker>)

  datatype Joint = Joint(b: B.State, y: R.System)

  datatype Event =
    | Sync(actor: nat, sync: B.Event)  // a step of the phase barrier
    | Pace(actor: nat, pace: R.Event)  // a step inside limitRate
    | Pass(elapsed: nat)               // time passes

  predicate Consistent(plan: Plan) {
    forall k :: k in plan.limited ==>
                  B.Configured(plan.workload, k.0, k.1) &&
                  DoesBlock(plan.limited[k]) == B.Blocks(plan.workload, k.0, k.1)
  }

  predicate InsideConsume(e: R.Event) {
    e.ReadClock? || e.LoadCount? || e.ExchangeCount? || e.LoadTime? || e.ExchangeTime? || e.IncrementCount? || e.Retry?
  }

  /** Where actor a's limiter thread is, given where the actor is. */
  predicate Coupled(plan: Plan, a: nat, pc: B.Pc, t: R.Thread) {
    match pc
    case Check(p) =>
      if (a, p) in plan.limited then !t.pc.Outside? && !t.pc.Running? && t.checker == plan.limited[(a, p)] else t.pc.Outside?
    case Decide(p) =>
      if (a, p) in plan.limited then t.pc.Broke? && t.checker == plan.limited[(a, p)] else t.pc.Outside?
    case Body(p) =>
      if (a, p) in plan.limited then t.pc.Running? && t.checker == plan.limited[(a, p)] else t.pc.Outside?
    case _ => t.pc.Outside?
  }

  /** The step of actor a's limiter thread that goes with a step of the barrier, if any. */
  function Companion(plan: Plan, j: Joint, a: nat, e: B.Event): Option<R.Event>
    requires B.Enabled(plan.workload, j.b, a, e) && a < |j.y.threads|
  {
    var pc, t := j.b.actors[a].pc, j.y.threads[a];
    match e
    case Resolve =>
      if (a, pc.phase) in plan.limited && B.Configured(plan.workload, a, pc.phase)
      then Some(R.Begin(plan.limited[(a, pc.phase)])) else None
    case ReadErrors => if !t.pc.Outside? && j.b.m.errors then Some(R.Proceed(true)) else None
    case DecideDone(done) => if !t.pc.Outside? then Some(R.Proceed(done)) else None
    case EndBody => if !t.pc.Outside? then Some(R.EndBody) else None
    case Throw => if !t.pc.Outside? then Some(R.Quit) else None
    case _ => None
  }

  /** A rate-limited actor that blocks its phase decides by Repeat and Duration. */
  predicate DecidesByClock(j: Joint, a: nat, e: B.Event)
    requires a < |j.y.threads|
  {
    var t := j.y.threads[a];
    e.DecideDone? && !t.pc.Outside? && DoesBlock(t.checker) ==>
      e.done == IsDone(t.checker, t.startedAt, t.iteration, j.y.clock)
  }

  predicate FiresStart(j: Joint, e: B.Event) {
    e.CallStart? && StartFires(j.b.m, 1)
  }

  predicate Enabled(plan: Plan, j: Joint, e: Event) {
    match e
    case Pass(_) => true
    case Pace(a, r) => a < |j.b.actors| && j.b.actors[a].pc.Check? && InsideConsume(r) && R.Enabled(j.y, a, r)
    case Sync(a, s) =>
      && B.Enabled(plan.workload, j.b, a, s) && a < |j.y.threads|
      && (s.ReadErrors? ==> j.y.threads[a].pc.Outside? || j.y.threads[a].pc.Broke?)
      && DecidesByClock(j, a, s)
      && var c := Companion(plan, j, a, s); c.Some? ==> R.Enabled(j.y, a, c.value)
  }

  function Apply(plan: Plan, j: Joint, e: Event): Joint
    requires Enabled(plan, j, e)
  {
    match e
    case Pass(d) => j.(y := R.Apply(j.y, 0, R.Tick(d)))
    case Pace(a, r) => j.(y := R.Apply(j.y, a, r))
    case Sync(a, s) =>
      var c := Companion(plan, j, a, s);
      Joint(B.Apply(plan.workload, j.b, a, s),
            if FiresStart(j, s) then R.Rewound(j.y)
            else if c.Some? then R.Apply(j.y, a, c.value) else j.y)
  }

  ghost predicate Admissible(plan: Plan, j: Joint, events: seq<Event>)
    decreases |events|
  {
    events == [] || (Enabled(plan, j, events[0]) && Admissible(plan, Apply(plan, j, events[0]), events[1..]))
  }

  ghost function After(plan: Plan, j: Joint, events: seq<Event>): Joint
    requires Admissible(plan, j, events)
    decreases |events|
  {
    if events == [] then j else After(plan, Apply(plan, j, events[0]), events[1..])
  }

  /** The barrier at its start, and a limiter with a positive period that nobody has used. */
  predicate Initial(plan: Plan, j: Joint) {
    && Consistent(plan)
    && j.b == B.Init(plan.workload) && |j.y.threads| == |j.b.actors|
    && R.AllOutside(j.y) && j.y.limiter.rate >= 1
  }

  ghost predicate AllCoupled(plan: Plan, j: Joint) {
    |j.y.threads| == |j.b.actors| &&
    forall a :: 0 <= a < |j.b.actors| ==> Coupled(plan, a, j.b.actors[a].pc, j.y.threads[a])
  }

  ghost predicate Inv(plan: Plan, j: Joint) {
    && Consistent(plan) && BI.Inv(plan.workload, j.b) && AllCoupled(plan, j) && j.y.limiter.rate >= 1
    && (!j.b.m.errors && j.b.m.hookLog != [] ==> RB.Inv(j.y))
  }

  lemma InitialInv(plan: Plan, j: Joint)
    requires Initial(plan, j)
    ensures Inv(plan, j)
  {
    BI.InitInv(plan.workload);
  }

  /** The limiter's parameters never change, and a step of one thread leaves the others where they are. */
  lemma ThreadStepFrame(y: R.System, a: nat, e: R.Event)
    requires R.Enabled(y, a, e) && !e.Tick? && !e.ResetLimiter?
    ensures var z := R.Apply(y, a, e);
            && |z.threads| == |y.threads| && z.limiter.rate == y.limiter.rate
            && forall i :: 0 <= i < |y.threads| && i != a ==> z.threads[i] == y.threads[i]
  {
  }

  lemma PaceKeepsInv(plan: Plan, j: Joint, a: nat, r: R.Event)
    requires Inv(plan, j) && Enabled(plan, j, Pace(a, r))
    ensures Inv(plan, Apply(plan, j, Pace(a, r)))
  {
    ThreadStepFrame(j.y, a, r);
    assert Coupled(plan, a, j.b.actors[a].pc, j.y.threads[a]);
    if !j.b.m.errors && j.b.m.hookLog != [] {
      RB.StepKeepsInv(j.y, a, r);
    }
    forall i | 0 <= i < |j.b.actors|
      ensures Coupled(plan, i, j.b.actors[i].pc, R.Apply(j.y, a, r).threads[i])
    {
      assert Coupled(plan, i, j.b.actors[i].pc, j.y.threads[i]);
    }
  }

  /** Being notified does not couple or uncouple anybody. */
  lemma NotifiedStaysCoupled(plan: Plan, a: nat, x: B.Actor, t: R.Thread)
    ensures Coupled(plan, a, x.pc, t) ==> Coupled(plan, a, B.Notified(x).pc, t)
  {
  }

  lemma OthersStayCoupled(plan: Plan, j: Joint, a: nat, s: B.Event, i: nat)
    requires Enabled(plan, j, Sync(a, s)) && !FiresStart(j, s) && i < |j.b.actors| == |j.y.threads| && i != a
    requires Coupled(plan, i, j.b.actors[i].pc, j.y.threads[i])
    ensures var k := Apply(plan, j, Sync(a, s));
            |k.b.actors| == |k.y.threads| == |j.b.actors| && Coupled(plan, i, k.b.actors[i].pc, k.y.threads[i])
  {
    NotifiedStaysCoupled(plan, i, j.b.actors[i], j.y.threads[i]);
    BI.OthersOnlyNotified(plan.workload, j.b, a, s, i);
    var c := Companion(plan, j, a, s);
    if c.Some? {
      ThreadStepFrame(j.y, a, c.value);
    }
  }

  /** An actor that gets past the lookup of a rate-limited phase enters the limiter's loop. */
  lemma ResolveStaysCoupled(plan: Plan, j: Joint, a: nat)
    requires Consistent(plan) && Enabled(plan, j, Sync(a, B.Resolve))
    requires Coupled(plan, a, j.b.actors[a].pc, j.y.threads[a])
    ensures var k := Apply(plan, j, Sync(a, B.Resolve));
            a < |k.b.actors| && a < |k.y.threads| && Coupled(plan, a, k.b.actors[a].pc, k.y.threads[a])
  {
    var pc := B.Apply(plan.workload, j.b, a, B.Resolve).actors[a].pc;
    assert pc.Exiting? || pc == B.Check(j.b.actors[a].pc.phase);
  }

  /** The inner iterator and the limiter thread move together. */
  lemma IteratorStaysCoupled(plan: Plan, j: Joint, a: nat, s: B.Event)
    requires Enabled(plan, j, Sync(a, s)) && (s.ReadErrors? || s.DecideDone? || s.EndBody? || s.Throw?)
    requires Coupled(plan, a, j.b.actors[a].pc, j.y.threads[a])
    ensures var k := Apply(plan, j, Sync(a, s));
            a < |k.b.actors| && a < |k.y.threads| && Coupled(plan, a, k.b.actors[a].pc, k.y.threads[a])
  {
  }

  /** The moved actor and its limiter thread end up in matching places. */
  lemma MoverStaysCoupled(plan: Plan, j: Joint, a: nat, s: B.Event)
    requires Consistent(plan) && Enabled(plan, j, Sync(a, s)) && !FiresStart(j, s)
    requires Coupled(plan, a, j.b.actors[a].pc, j.y.threads[a])
    ensures var k := Apply(plan, j, Sync(a, s));
            a < |k.b.actors| && a < |k.y.threads| && Coupled(plan, a, k.b.actors[a].pc, k.y.threads[a])
  {
    if s.Resolve? {
      ResolveStaysCoupled(plan, j, a);
    } else if s.ReadErrors? || s.DecideDone? || s.EndBody? || s.Throw? {
      IteratorStaysCoupled(plan, j, a, s);
    } else {
      var pc := B.Apply(plan.workload, j.b, a, s).actors[a].pc;
      assert !pc.Check? && !pc.Decide? && !pc.Body?;
    }
  }

  /** Start hooks of an unaborted run find nobody inside the limiter. */
  lemma ResetFindsNobody(plan: Plan, j: Joint, a: nat)
    requires Inv(plan, j) && Enabled(plan, j, Sync(a, B.CallStart)) && StartFires(j.b.m, 1) && !j.b.m.errors
    ensures R.AllOutside(j.y)
  {
    BI.AllWaitAtStart(plan.workload, j.b, a);
    forall i | 0 <= i < |j.y.threads|
      ensures j.y.threads[i].pc.Outside?
    {
      assert Coupled(plan, i, j.b.actors[i].pc, j.y.threads[i]);
    }
  }

  lemma StartKeepsInv(plan: Plan, j: Joint, a: nat)
    requires Inv(plan, j) && Enabled(plan, j, Sync(a, B.CallStart)) && StartFires(j.b.m, 1)
    ensures Inv(plan, Apply(plan, j, Sync(a, B.CallStart)))
  {
    var k := Apply(plan, j, Sync(a, B.CallStart));
    BI.StepKeepsInv(plan.workload, j.b, a, B.CallStart);
    assert Coupled(plan, a, j.b.actors[a].pc, j.y.threads[a]);
    forall i | 0 <= i < |j.b.actors|
      ensures Coupled(plan, i, k.b.actors[i].pc, k.y.threads[i])
    {
      assert Coupled(plan, i, j.b.actors[i].pc, j.y.threads[i]);
      NotifiedStaysCoupled(plan, i, j.b.actors[i], k.y.threads[i]);
    }
    if !j.b.m.errors {
      ResetFindsNobody(plan, j, a);
      RB.ResetKeepsInv(j.y);
    }
  }

  /** Only start hooks extend an empty hook log before an abort. */
  lemma FirstHooksAreStartHooks(plan: Plan, j: Joint, a: nat, s: B.Event)
    requires Inv(plan, j) && Enabled(plan, j, Sync(a, s)) && !FiresStart(j, s)
    requires !j.b.m.errors && j.b.m.hookLog == []
    ensures B.Apply(plan.workload, j.b, a, s).m.hookLog == []
  {
    assert BI.ActorOk(plan.workload, j.b.m, j.b.failed, a, j.b.actors[a]);
    assert |BI.HooksUpto(j.b.m.current, j.b.m.state == PhaseStarted)| == 0;
  }

  lemma SyncKeepsInv(plan: Plan, j: Joint, a: nat, s: B.Event)
    requires Inv(plan, j) && Enabled(plan, j, Sync(a, s)) && !FiresStart(j, s)
    ensures Inv(plan, Apply(plan, j, Sync(a, s)))
  {
    var k := Apply(plan, j, Sync(a, s));
    var c := Companion(plan, j, a, s);
    BI.StepKeepsInv(plan.workload, j.b, a, s);
    assert Coupled(plan, a, j.b.actors[a].pc, j.y.threads[a]);
    MoverStaysCoupled(plan, j, a, s);
    forall i | 0 <= i < |j.b.actors| && i != a
      ensures |k.b.actors| == |k.y.threads| == |j.b.actors| && Coupled(plan, i, k.b.actors[i].pc, k.y.threads[i])
    {
      assert Coupled(plan, i, j.b.actors[i].pc, j.y.threads[i]);
      OthersStayCoupled(plan, j, a, s, i);
    }
    if c.Some? {
      ThreadStepFrame(j.y, a, c.value);
    }
    if !j.b.m.errors {
      if j.b.m.hookLog == [] {
        FirstHooksAreStartHooks(plan, j, a, s);
      } else if c.Some? {
        RB.StepKeepsInv(j.y, a, c.value);
      }
    }
  }

  lemma StepKeepsInv(plan: Plan, j: Joint, e: Event)
    requires Inv(plan, j) && Enabled(plan, j, e)
    ensures Inv(plan, Apply(plan, j, e))
  {
    match e
    case Pass(d) =>
      if !j.b.m.errors && j.b.m.hookLog != [] {
        RB.StepKeepsInv(j.y, 0, R.Tick(d));
      }
      assert AllCoupled(plan, Apply(plan, j, e)) by {
        forall a | 0 <= a < |j.b.actors|
          ensures Coupled(plan, a, j.b.actors[a].pc, Apply(plan, j, e).y.threads[a])
        {
          assert Coupled(plan, a, j.b.actors[a].pc, j.y.threads[a]);
        }
      }
    case Pace(a, r) => PaceKeepsInv(plan, j, a, r);
    case Sync(a, s) =>
      if FiresStart(j, s) {
        StartKeepsInv(plan, j, a);
      } else {
        SyncKeepsInv(plan, j, a, s);
      }
  }

  lemma {:induction false} RunKeepsInv(plan: Plan, j: Joint, events: seq<Event>)
    requires Inv(plan, j) && Admissible(plan, j, events)
    ensures Inv(plan, After(plan, j, events))
    decreases |events|
  {
    if events != [] {
      StepKeepsInv(plan, j, events[0]);
      RunKeepsInv(plan, Apply(plan, j, events[0]), events[1..]);
    }
  }
}
