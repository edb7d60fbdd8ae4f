/** The throughput bound of the rate limiter under every interleaving. */
module RateBound {
  import opened PhaseIteration
  import opened RateLimiter
  import opened RateSystem

  datatype Tally = Granted | Begun | Pending

  function Count(tally: Tally, t: Thread): nat {
    match tally
    case Granted => t.grants
    case Begun => t.bodies
    case Pending => if t.pc.Increment? then 1 else 0
  }

  function Total(tally: Tally, ts: seq<Thread>): nat {
    if ts == [] then 0 else Total(tally, ts[..|ts| - 1]) + Count(tally, ts[|ts| - 1])
  }

  lemma {:induction false} TotalUpdate(tally: Tally, ts: seq<Thread>, i: nat, t: Thread)
    requires i < |ts|
    ensures Total(tally, ts[i := t]) == Total(tally, ts) - Count(tally, ts[i]) + Count(tally, t)
  {
    var last := |ts| - 1;
    if i < last {
      TotalUpdate(tally, ts[..last], i, t);
      assert ts[i := t][..last] == ts[..last][i := t];
    } else {
      assert ts[i := t][..last] == ts[..last];
    }
  }

  lemma {:induction false} TotalZero(tally: Tally, ts: seq<Thread>)
    requires forall i :: 0 <= i < |ts| ==> Count(tally, ts[i]) == 0
    ensures Total(tally, ts) == 0
  {
    if ts != [] {
      TotalZero(tally, ts[..|ts| - 1]);
    }
  }

  lemma {:induction false} BegunWithinGranted(ts: seq<Thread>)
    requires forall i :: 0 <= i < |ts| ==> ts[i].bodies <= ts[i].grants
    ensures Total(Begun, ts) <= Total(Granted, ts)
  {
    if ts != [] {
      BegunWithinGranted(ts[..|ts| - 1]);
    }
  }

  /** A granted token that neither a body nor a stop has used up yet. */
  predicate InHand(pc: Pc) {
    pc.Increment? || (pc.Broke? && pc.paid)
  }

  predicate ThreadOk(l: Limiter, clock: int, t: Thread) {
    && t.grants == t.bodies + t.unused + (if InHand(t.pc) then 1 else 0)
    && (t.pc.Broke? && !t.pc.paid ==> DoesBlock(t.checker) && IsDone(t.checker, t.startedAt, t.iteration, clock))
    && (t.pc.LoadBurst? || t.pc.CasBurst? || t.pc.LoadEmptied? || t.pc.CasEmptied? || t.pc.Denied? ==> t.pc.now <= clock)
    && (t.pc.CasBurst? ==> l.burstSize > 1 && t.pc.count % l.burstSize != 0)
    && (t.pc.CasEmptied? ==> t.pc.time + l.rate <= t.pc.now)
  }

  ghost predicate ThreadsOk(y: System) {
    forall i :: 0 <= i < |y.threads| ==> ThreadOk(y.limiter, y.clock, y.threads[i])
  }

  predicate LimiterOk(y: System) {
    var l, b, pending := y.limiter, Burst(y.limiter), Total(Pending, y.threads);
    && l.rate >= 1
    && l.lastEmptied == y.resetAt - l.rate + l.rate * y.emptied
    && l.lastEmptied <= y.clock
    && pending <= y.emptied
    && l.burstCount == y.countAtReset + Total(Granted, y.threads) - pending
    && l.burstCount <= b * (Periods(y.countAtReset, b) + y.emptied - pending)
  }

  ghost predicate Inv(y: System) {
    LimiterOk(y) && ThreadsOk(y)
  }

  lemma JustResetInv(y: System)
    requires JustReset(y)
    ensures Inv(y)
  {
    TotalZero(Pending, y.threads);
    TotalZero(Granted, y.threads);
    PeriodsBounds(y.countAtReset, Burst(y.limiter));
  }

  lemma ResetKeepsInv(y: System)
    requires AllOutside(y) && y.limiter.rate >= 1
    ensures JustReset(Rewound(y)) && Inv(Rewound(y))
  {
    JustResetInv(Rewound(y));
  }

  lemma TickKeepsInv(y: System, d: nat)
    requires Inv(y)
    ensures Inv(y.(clock := y.clock + d))
  {
    forall i | 0 <= i < |y.threads|
      ensures ThreadOk(y.limiter, y.clock + d, y.threads[i])
    {
      assert ThreadOk(y.limiter, y.clock, y.threads[i]);
    }
  }

  /** Steps that leave limiter and tallies alone. */
  lemma QuietKeepsInv(y: System, i: nat, t: Thread)
    requires Inv(y) && i < |y.threads| && ThreadOk(y.limiter, y.clock, t)
    requires t.grants == y.threads[i].grants && !t.pc.Increment? && !y.threads[i].pc.Increment?
    ensures Inv(Put(y, i, t))
  {
    TotalUpdate(Pending, y.threads, i, t);
    TotalUpdate(Granted, y.threads, i, t);
  }

  lemma OthersOk(y: System, i: nat, z: System)
    requires ThreadsOk(y) && i < |y.threads| == |z.threads| && z.threads == y.threads[i := z.threads[i]]
    requires z.clock == y.clock && ThreadOk(z.limiter, z.clock, z.threads[i])
    requires z.limiter.burstSize == y.limiter.burstSize && z.limiter.rate == y.limiter.rate
    ensures ThreadsOk(z)
  {
    forall j | 0 <= j < |z.threads| && j != i
      ensures ThreadOk(z.limiter, z.clock, z.threads[j])
    {
      assert ThreadOk(y.limiter, y.clock, y.threads[j]);
    }
  }

  lemma OffTheMultiple(n: nat, b: int, k: int)
    requires b >= 1 && n <= b * k && n % b != 0
    ensures n + 1 <= b * k
  {
    if n == b * k {
      MultipleMod(b, k);
    }
  }

  /** A burst token is taken strictly inside a period that has been paid for. */
  lemma ExchangeCountKeepsInv(y: System, i: nat)
    requires Inv(y) && Enabled(y, i, ExchangeCount(false)) && y.limiter.burstCount == y.threads[i].pc.count
    ensures Inv(Apply(y, i, ExchangeCount(false)))
  {
    var y' := Apply(y, i, ExchangeCount(false));
    assert ThreadOk(y.limiter, y.clock, y.threads[i]);
    TotalUpdate(Pending, y.threads, i, y'.threads[i]);
    TotalUpdate(Granted, y.threads, i, y'.threads[i]);
    var b := Burst(y.limiter);
    OffTheMultiple(y.limiter.burstCount, b,
                   Periods(y.countAtReset, b) + y.emptied - Total(Pending, y.threads));
    OthersOk(y, i, y');
  }

  lemma ExchangeTimeKeepsInv(y: System, i: nat)
    requires Inv(y) && Enabled(y, i, ExchangeTime(false)) && y.limiter.lastEmptied == y.threads[i].pc.time
    ensures Inv(Apply(y, i, ExchangeTime(false)))
  {
    var y' := Apply(y, i, ExchangeTime(false));
    assert ThreadOk(y.limiter, y.clock, y.threads[i]);
    TotalUpdate(Pending, y.threads, i, y'.threads[i]);
    TotalUpdate(Granted, y.threads, i, y'.threads[i]);
    OthersOk(y, i, y');
    Distributes(y.limiter.rate, y.emptied, 1, 0);
    SameAllowance(Burst(y.limiter), Periods(y.countAtReset, Burst(y.limiter)), y.emptied, Total(Pending, y.threads));
  }

  lemma SameAllowance(b: int, c: int, m: int, p: int)
    ensures b * (c + (m + 1) - (p + 1)) == b * (c + m - p)
  {
    assert c + (m + 1) - (p + 1) == c + m - p;
  }

  /** The delayed increment opens a whole period's worth of burst tokens. */
  lemma IncrementKeepsInv(y: System, i: nat)
    requires Inv(y) && Enabled(y, i, IncrementCount)
    ensures Inv(Apply(y, i, IncrementCount))
  {
    var y' := Apply(y, i, IncrementCount);
    assert ThreadOk(y.limiter, y.clock, y.threads[i]);
    TotalUpdate(Pending, y.threads, i, y'.threads[i]);
    TotalUpdate(Granted, y.threads, i, y'.threads[i]);
    var b := Burst(y.limiter);
    var k := Periods(y.countAtReset, b) + y.emptied - Total(Pending, y.threads);
    assert b * (k + 1) == b * k + b;
    OthersOk(y, i, y');
  }

  lemma StepKeepsInv(y: System, i: nat, e: Event)
    requires Inv(y) && Enabled(y, i, e)
    ensures Inv(Apply(y, i, e))
  {
    match e
    case Tick(d) => TickKeepsInv(y, d);
    case ResetLimiter => ResetKeepsInv(y);
    case ExchangeCount(spurious) =>
      assert ThreadOk(y.limiter, y.clock, y.threads[i]);
      if !spurious && y.limiter.burstCount == y.threads[i].pc.count {
        ExchangeCountKeepsInv(y, i);
      } else {
        QuietKeepsInv(y, i, Apply(y, i, e).threads[i]);
      }
    case ExchangeTime(spurious) =>
      assert ThreadOk(y.limiter, y.clock, y.threads[i]);
      if !spurious && y.limiter.lastEmptied == y.threads[i].pc.time {
        ExchangeTimeKeepsInv(y, i);
      } else {
        QuietKeepsInv(y, i, Apply(y, i, e).threads[i]);
      }
    case IncrementCount => IncrementKeepsInv(y, i);
    case _ => ThreadStepKeepsInv(y, i, e);
  }

  lemma ThreadStepKeepsInv(y: System, i: nat, e: Event)
    requires Inv(y) && Enabled(y, i, e)
    requires !e.Tick? && !e.ResetLimiter? && !e.ExchangeCount? && !e.ExchangeTime? && !e.IncrementCount?
    ensures Inv(Apply(y, i, e))
  {
    assert ThreadOk(y.limiter, y.clock, y.threads[i]);
    QuietKeepsInv(y, i, Apply(y, i, e).threads[i]);
  }

  lemma {:induction false} RunKeepsInv(y: System, steps: seq<Step>)
    requires Inv(y) && Admissible(y, steps)
    ensures Inv(After(y, steps))
    decreases |steps|
  {
    if steps != [] {
      StepKeepsInv(y, steps[0].thread, steps[0].event);
      RunKeepsInv(Apply(y, steps[0].thread, steps[0].event), steps[1..]);
    }
  }

  /** The most tokens that may have been granted since the last reset. */
  function Allowance(y: System): int
    requires y.limiter.rate >= 1
  {
    var b := Burst(y.limiter);
    b * ((y.clock - y.resetAt) / y.limiter.rate + 1) + (b - y.countAtReset % b) % b
  }

  lemma PeriodsFromLeftover(n: nat, b: int)
    requires b >= 1
    ensures b * Periods(n, b) == n + (b - n % b) % b
  {
    var r := (b - n % b) % b;
    LeftoverRoundsUp(n, b);
    var c := (n + r) / b;
    assert b * c == n + r;
    PeriodsUnique(n, b, c);
  }

  /** q tokens counted from n on, p more on their way, m periods charged: the bound, as arithmetic. */
  lemma AllowanceArithmetic(b: int, rate: int, elapsed: int, n: nat, q: int, m: nat, p: nat)
    requires b >= 1 && rate >= 1 && rate * m - rate <= elapsed && p <= m
    requires q <= b * (Periods(n, b) + m - p)
    ensures q - n + p <= b * (elapsed / rate + 1) + (b - n % b) % b
  {
    var k := elapsed / rate + 1;
    PeriodsCharged(rate, elapsed, m);
    PeriodsFromLeftover(n, b);
    Distributes(b, Periods(n, b), m, p);
    Grows(b, 1, p, 0);
    Grows(b, b, k, m);
  }

  lemma PeriodsCharged(rate: int, elapsed: int, m: nat)
    requires rate >= 1 && rate * m - rate <= elapsed
    ensures m <= elapsed / rate + 1
  {
    assert rate * (m - 1) == rate * m - rate;
    FloorAtLeast(elapsed, rate, m - 1);
  }

  lemma Distributes(b: int, x: int, m: int, p: int)
    ensures b * (x + m - p) == b * x + b * m - b * p
  {
  }

  lemma Grows(b: int, c: int, k: int, m: int)
    requires b >= c >= 0 && k >= m >= 0
    ensures c * m <= b * k
    ensures c * k <= b * k
  {
    assert b * k - c * k == (b - c) * k >= 0;
    assert c * k - c * m == c * (k - m) >= 0;
  }

  lemma GrantsWithinAllowance(y: System)
    requires Inv(y)
    ensures Total(Granted, y.threads) <= Allowance(y)
  {
    AllowanceArithmetic(Burst(y.limiter), y.limiter.rate, y.clock - y.resetAt, y.countAtReset,
                        y.limiter.burstCount, y.emptied, Total(Pending, y.threads));
  }

  /**
   The rate bound: whatever the interleaving, the spurious failures and the delayed increments, the tokens
   granted since the last reset are at most one burst per period begun plus the tokens left over in the
   burst bucket; and so are the bodies begun by all threads together.
   */
  lemma RateBoundHolds(y: System, steps: seq<Step>)
    requires JustReset(y) && Admissible(y, steps)
    ensures var z := After(y, steps);
            z.limiter.rate >= 1 && Total(Begun, z.threads) <= Total(Granted, z.threads) <= Allowance(z)
  {
    JustResetInv(y);
    RunKeepsInv(y, steps);
    var z := After(y, steps);
    GrantsWithinAllowance(z);
    forall i | 0 <= i < |z.threads|
      ensures z.threads[i].bodies <= z.threads[i].grants
    {
      assert ThreadOk(z.limiter, z.clock, z.threads[i]);
    }
    BegunWithinGranted(z.threads);
  }

  /** Every body is paid for: a thread begins a body only with a token granted to it for this iteration in hand. */
  lemma BodiesArePaidFor(y: System, steps: seq<Step>, i: nat)
    requires JustReset(y) && Admissible(y, steps)
    requires Enabled(After(y, steps), i, Proceed(false))
    ensures After(y, steps).threads[i].pc == Broke(true)
    ensures After(y, steps).threads[i].grants == After(y, steps).threads[i].bodies + After(y, steps).threads[i].unused + 1
  {
    JustResetInv(y);
    RunKeepsInv(y, steps);
    var z := After(y, steps);
    assert ThreadOk(z.limiter, z.clock, z.threads[i]);
  }

  // A call that is not interrupted

  /** z is y after some steps of thread i alone. */
  ghost predicate Solo(y: System, i: nat, steps: seq<Step>, z: System) {
    && Admissible(y, steps) && After(y, steps) == z
    && forall k :: 0 <= k < |steps| ==> steps[k].thread == i
  }

  lemma SoloStep(y: System, i: nat, e: Event, rest: seq<Step>, z: System)
    requires Enabled(y, i, e) && Solo(Apply(y, i, e), i, rest, z)
    ensures Solo(y, i, [Step(i, e)] + rest, z)
  {
    assert ([Step(i, e)] + rest)[1..] == rest;
  }

  /** The second bucket, from its load on. */
  lemma SoloTimeBucket(y: System, i: nat, spurious: bool) returns (steps: seq<Step>, z: System)
    requires i < |y.threads| && y.threads[i].pc.LoadEmptied? && !CanBurst(y.limiter)
    ensures Solo(y, i, steps, z) && |z.threads| == |y.threads|
    ensures var (l, ok) := Consume(y.limiter, y.threads[i].pc.now, spurious);
            z.limiter == l && z.threads[i].pc == if ok then Broke(true) else Denied(y.threads[i].pc.now)
  {
    var y1 := Apply(y, i, LoadTime);
    if y.threads[i].pc.now < y.limiter.lastEmptied + y.limiter.rate {
      z, steps := y1, [];
    } else {
      var y2 := Apply(y1, i, ExchangeTime(spurious));
      z, steps := y2, [];
      if !spurious {
        z := Apply(y2, i, IncrementCount);
        SoloStep(y2, i, IncrementCount, [], z);
        steps := [Step(i, IncrementCount)] + [];
      }
      SoloStep(y1, i, ExchangeTime(spurious), steps, z);
      steps := [Step(i, ExchangeTime(spurious))] + steps;
    }
    SoloStep(y, i, LoadTime, steps, z);
    steps := [Step(i, LoadTime)] + steps;
  }

  /** The interleaved model, run without interleaving, is the whole-call model, spurious failures included. */
  lemma SoloCallIsConsume(y: System, i: nat, spurious: bool) returns (steps: seq<Step>, z: System)
    requires i < |y.threads| && y.threads[i].pc.Top?
    ensures Solo(y, i, steps, z) && |z.threads| == |y.threads|
    ensures var (l, ok) := Consume(y.limiter, y.clock, spurious);
            z.limiter == l && z.threads[i].pc == if ok then Broke(true) else Denied(y.clock)
  {
    var y1 := Apply(y, i, ReadClock);
    if y.limiter.burstSize > 1 {
      var y2 := Apply(y1, i, LoadCount);
      if CanBurst(y.limiter) {
        z := Apply(y2, i, ExchangeCount(spurious));
        SoloStep(y2, i, ExchangeCount(spurious), [], z);
        steps := [Step(i, ExchangeCount(spurious))] + [];
      } else {
        steps, z := SoloTimeBucket(y2, i, spurious);
      }
      SoloStep(y1, i, LoadCount, steps, z);
      steps := [Step(i, LoadCount)] + steps;
    } else {
      steps, z := SoloTimeBucket(y1, i, spurious);
    }
    SoloStep(y, i, ReadClock, steps, z);
    steps := [Step(i, ReadClock)] + steps;
  }
}
