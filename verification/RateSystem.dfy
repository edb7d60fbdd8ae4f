/**
 Threads sharing one rate limiter, interleaved at every atomic access.  Each thread runs the inner phase
 iterator: limitRate's retry loop around consumeIfWithinRate, then the completion test, then the body.
 */
module RateSystem {
  import opened PhaseIteration
  import opened RateLimiter

  datatype Pc =
    | Outside                        // not inside the inner phase iterator
    | Top                            // limitRate, about to read the clock
    | LoadBurst(now: int)            // about to load the burst count
    | CasBurst(now: int, count: nat) // about to compare-exchange the burst count
    | LoadEmptied(now: int)          // about to load the emptied time
    | CasEmptied(now: int, time: int) // about to compare-exchange the emptied time
    | Increment                      // compare-exchange won, burst count not yet incremented
    | Denied(now: int)               // consumeIfWithinRate returned false
    | Broke(paid: bool)              // out of limitRate's loop, about to test for completion
    | Running                        // in the body

  /** A thread with its counts since the last reset: tokens granted, bodies begun, tokens left unused. */
  datatype Thread = Thread(pc: Pc, checker: Checker, startedAt: int, iteration: nat, grants: nat, bodies: nat, unused: nat)

  /**
   The shared limiter, the clock, the threads, and the history since the last reset: its time, the burst
   count it found, and how often the emptied time has been advanced.
   */
  datatype System = System(limiter: Limiter, clock: int, threads: seq<Thread>, resetAt: int, countAtReset: nat, emptied: nat)

  datatype Event =
    | Tick(elapsed: nat)
    | ResetLimiter
    | Begin(checker: Checker)   // enter the inner iterator of a phase
    | ReadClock
    | LoadCount
    | ExchangeCount(spurious: bool)
    | LoadTime
    | ExchangeTime(spurious: bool)
    | IncrementCount
    | Retry                     // after a denial: sleep and try again, or give up when the phase is done
    | Proceed(stop: bool)       // the completion test: leave the phase or run the body
    | EndBody
    | Quit                      // leave by an exception, from the body or before the first test

  predicate AllOutside(y: System) {
    forall i :: 0 <= i < |y.threads| ==> y.threads[i].pc.Outside?
  }

  /** limitRate keeps trying while the phase is still going. */
  predicate StillGoing(t: Thread, now: int) {
    !DoesBlock(t.checker) || !IsDone(t.checker, t.startedAt, t.iteration, now)
  }

  predicate Enabled(y: System, i: nat, e: Event) {
    match e
    case Tick(_) => true
    case ResetLimiter => AllOutside(y)
    case _ =>
      i < |y.threads| &&
      var t := y.threads[i];
      match e
      case Begin(_) => t.pc.Outside?
      case ReadClock => t.pc.Top?
      case LoadCount => t.pc.LoadBurst?
      case ExchangeCount(_) => t.pc.CasBurst?
      case LoadTime => t.pc.LoadEmptied?
      case ExchangeTime(_) => t.pc.CasEmptied?
      case IncrementCount => t.pc.Increment?
      case Retry => t.pc.Denied?
      case Proceed(stop) =>
        t.pc.Broke? &&
        (!stop && DoesBlock(t.checker) ==> !IsDone(t.checker, t.startedAt, t.iteration, y.clock))
      case EndBody => t.pc.Running?
      case Quit => t.pc.Running? || t.pc.Top?
      case _ => false
  }

  function Put(y: System, i: nat, t: Thread): System
    requires i < |y.threads|
  {
    y.(threads := y.threads[i := t])
  }

  function Cleared(ts: seq<Thread>): (r: seq<Thread>)
    ensures |r| == |ts|
    ensures forall i :: 0 <= i < |r| ==> r[i] == ts[i].(grants := 0, bodies := 0, unused := 0)
  {
    seq(|ts|, i requires 0 <= i < |ts| => ts[i].(grants := 0, bodies := 0, unused := 0))
  }

  /** The limiter reset now, and the counts since the reset begun anew. */
  function Rewound(y: System): System {
    System(RateLimiter.Reset(y.limiter, y.clock), y.clock, Cleared(y.threads), y.clock, y.limiter.burstCount, 0)
  }

  function Apply(y: System, i: nat, e: Event): System
    requires Enabled(y, i, e)
  {
    match e
    case Tick(d) => y.(clock := y.clock + d)
    case ResetLimiter => Rewound(y)
    case _ => ApplyThread(y, i, e)
  }

  function ApplyThread(y: System, i: nat, e: Event): System
    requires Enabled(y, i, e) && !e.Tick? && !e.ResetLimiter?
  {
    var t, l := y.threads[i], y.limiter;
    match e
    case Begin(c) => Put(y, i, t.(pc := Top, checker := c, startedAt := y.clock, iteration := 0))
    case ReadClock => Put(y, i, t.(pc := if l.burstSize > 1 then LoadBurst(y.clock) else LoadEmptied(y.clock)))
    case LoadCount =>
      if l.burstSize > 1 && l.burstCount % l.burstSize != 0
      then Put(y, i, t.(pc := CasBurst(t.pc.now, l.burstCount)))
      else Put(y, i, t.(pc := LoadEmptied(t.pc.now)))
    case ExchangeCount(spurious) =>
      if !spurious && l.burstCount == t.pc.count
      then Put(y, i, t.(pc := Broke(true), grants := t.grants + 1)).(limiter := l.(burstCount := l.burstCount + 1))
      else Put(y, i, t.(pc := Denied(t.pc.now)))
    case LoadTime =>
      if t.pc.now < l.lastEmptied + l.rate then Put(y, i, t.(pc := Denied(t.pc.now)))
      else Put(y, i, t.(pc := CasEmptied(t.pc.now, l.lastEmptied)))
    case ExchangeTime(spurious) =>
      if !spurious && l.lastEmptied == t.pc.time
      then Put(y, i, t.(pc := Increment, grants := t.grants + 1))
             .(limiter := l.(lastEmptied := t.pc.time + l.rate), emptied := y.emptied + 1)
      else Put(y, i, t.(pc := Denied(t.pc.now)))
    case IncrementCount => Put(y, i, t.(pc := Broke(true))).(limiter := l.(burstCount := l.burstCount + 1))
    case Retry => Put(y, i, t.(pc := if StillGoing(t, t.pc.now) then Top else Broke(false)))
    case Proceed(stop) =>
      if stop then Put(y, i, t.(pc := Outside, unused := t.unused + if t.pc.paid then 1 else 0))
      else Put(y, i, t.(pc := Running, bodies := t.bodies + 1))
    case EndBody => Put(y, i, t.(pc := Top, iteration := t.iteration + 1))
    case Quit => Put(y, i, t.(pc := Outside))
  }

  datatype Step = Step(thread: nat, event: Event)

  ghost predicate Admissible(y: System, steps: seq<Step>)
    decreases |steps|
  {
    steps == [] ||
    (Enabled(y, steps[0].thread, steps[0].event) &&
     Admissible(Apply(y, steps[0].thread, steps[0].event), steps[1..]))
  }

  ghost function After(y: System, steps: seq<Step>): System
    requires Admissible(y, steps)
    decreases |steps|
  {
    if steps == [] then y else After(Apply(y, steps[0].thread, steps[0].event), steps[1..])
  }

  /** A limiter just reset, with nobody inside. */
  predicate JustReset(y: System) {
    && AllOutside(y) && y.limiter.rate >= 1
    && y.resetAt == y.clock && y.limiter.lastEmptied == y.clock - y.limiter.rate
    && y.countAtReset == y.limiter.burstCount && y.emptied == 0
    && forall i :: 0 <= i < |y.threads| ==>
         y.threads[i].grants == y.threads[i].bodies == y.threads[i].unused == 0
  }
}
