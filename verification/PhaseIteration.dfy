/** How long an actor iterates in a phase it blocks: Repeat, Duration and pending sleeps. */
module PhaseIteration {
  import opened Wrappers

  /** The completion test of one actor in one phase: Repeat and Duration as configured. */
  datatype Checker = Checker(minIterations: Option<nat>, minDuration: Option<nat>)

  predicate DoesBlock(c: Checker) {
    c.minIterations.Some? || c.minDuration.Some?
  }

  /** What a phase's configuration says about iterating; `nop` marks a phase that does nothing for the actor. */
  datatype Settings = Settings(
    duration: Option<int>, repeat: Option<int>, nop: bool, blockingNone: bool, sleeps: bool, rate: bool)

  /** IterationChecker's constructors: None where they throw. */
  function MakeChecker(s: Settings): Option<Checker> {
    if (s.duration.Some? && s.duration.value < 0) || (s.repeat.Some? && s.repeat.value < 0) then None
    else if s.sleeps && s.rate then None
    else if !s.nop && s.duration.None? && s.repeat.None? && !s.blockingNone then None
    else
      Some(Checker(if s.nop then Some(0) else if s.repeat.Some? then Some(s.repeat.value) else None,
                   if s.duration.Some? then Some(s.duration.value) else None))
  }

  /** What is accepted: nothing negative, no sleeps beside a rate, and no phase that silently blocks nothing. */
  lemma AcceptedExactly(s: Settings)
    ensures MakeChecker(s).Some? <==>
            && (s.duration.Some? ==> s.duration.value >= 0) && (s.repeat.Some? ==> s.repeat.value >= 0)
            && !(s.sleeps && s.rate)
            && (s.nop || s.duration.Some? || s.repeat.Some? || s.blockingNone)
  {
  }

  /**
   A phase that is accepted blocks exactly when it is a nop or gives Repeat or Duration; one that does not block has
   said so; and a nop without a Duration is done before its first body, whenever that is tested.
   */
  lemma AcceptedSettings(s: Settings)
    requires MakeChecker(s).Some?
    ensures DoesBlock(MakeChecker(s).value) <==> s.nop || s.repeat.Some? || s.duration.Some?
    ensures !DoesBlock(MakeChecker(s).value) ==> s.blockingNone
    ensures s.nop && s.duration.None? ==> forall startedAt, at :: IsDone(MakeChecker(s).value, startedAt, 0, at)
    ensures !s.nop && s.repeat.Some? ==> Repeat(MakeChecker(s).value) == s.repeat.value
    ensures !s.nop && s.duration.Some? ==> forall startedAt, i: nat, at ::
              IsDone(MakeChecker(s).value, startedAt, i, at) ==> at - startedAt >= s.duration.value
  {
  }

  predicate IsDone(c: Checker, startedAt: int, iteration: nat, at: int) {
    && (c.minIterations.Some? ==> iteration >= c.minIterations.value)
    && (c.minDuration.Some? ==> c.minDuration.value <= at - startedAt)
  }

  function Repeat(c: Checker): nat {
    if c.minIterations.Some? then c.minIterations.value else 0
  }

  /** When a phase that the actor blocks is over for it, once Repeat is reached; `now` is the present. */
  function PhaseEnd(c: Checker, startedAt: int, now: int): int {
    if c.minDuration.Some? then startedAt + c.minDuration.value else now
  }

  function Shortfall(target: nat, reached: nat): nat {
    if reached < target then target - reached else 0
  }

  /** Successive readings of a steady clock that never stops. */
  class SteadyClock {
    const reading: nat -> int
    var next: nat

    ghost predicate InOrder(i: nat, j: nat) {
      reading(i) <= reading(j)
    }

    ghost predicate Passes(t: int) {
      exists k: nat :: reading(k) > t
    }

    ghost predicate Steady() {
      && (forall i, j :: i <= j ==> InOrder(i, j))
      && (forall t :: Passes(t))
    }

    constructor (reading: nat -> int)
      ensures this.reading == reading && next == 0
    {
      this.reading := reading;
      next := 0;
    }

    method Now() returns (t: int)
      modifies this`next
      ensures t == reading(old(next)) && next == old(next) + 1
    {
      t := reading(next);
      next := next + 1;
    }
  }

  /**
   Orchestrator::sleepUntilOrPhaseEnd: `over(k)` says whether the phase is found to be over just before the
   k-th reading.  It returns only once the deadline has passed or the phase is over, and after an early
   return the phase is over.
   */
  method SleepUntilOrPhaseEnd(clock: SteadyClock, deadline: int, over: nat -> bool)
    requires clock.Steady()
    modifies clock`next
    ensures clock.next >= old(clock.next)
    ensures over(clock.next) || (clock.next > old(clock.next) && clock.reading(clock.next - 1) > deadline)
    ensures forall k :: old(clock.next) <= k < clock.next ==> !over(k) && (k < clock.next - 1 ==> clock.reading(k) <= deadline)
  {
    assert clock.Passes(deadline);
    ghost var horizon: nat :| clock.reading(horizon) > deadline;
    var start := clock.next;
    while !over(clock.next)
      invariant clock.next >= start
      invariant forall k :: start <= k < clock.next ==> !over(k) && clock.reading(k) <= deadline
      decreases horizon - clock.next
    {
      assert horizon <= clock.next ==> clock.InOrder(horizon, clock.next);
      var t := clock.Now();
      if deadline - t < 0 {
        return;
      }
    }
  }

  class IterationChecker {
    const spec: Checker
    var sleepUntil: int

    constructor (spec: Checker, now: int)
      ensures this.spec == spec && sleepUntil == now
    {
      this.spec := spec;
      sleepUntil := now;
    }

    /** ActorPhase::sleepNonBlocking, when a body asks for a pause. */
    method SleepNonBlocking(clock: SteadyClock, pause: Option<nat>)
      requires clock.Steady()
      modifies this, clock`next
      ensures clock.next == old(clock.next) + (if pause.Some? then 1 else 0)
      ensures if pause.None? then sleepUntil == old(sleepUntil)
              else sleepUntil == clock.reading(old(clock.next)) + pause.value
      ensures old(clock.next) > 0 && pause.Some? ==> sleepUntil >= clock.reading(old(clock.next) - 1) + pause.value
    {
      assert clock.next > 0 ==> clock.InOrder(clock.next - 1, clock.next);
      if pause.Some? {
        var now := clock.Now();
        sleepUntil := now + pause.value;
      }
    }

    /**
     Sleep off a pending pause.  The deadline is shortened, never lengthened; a pause that would outlast a
     phase the actor blocks is slept to the end of the phase and not a reading further, and leaves the phase done;
     any other pause is slept to its end unless the phase ends.
     */
    method SleepForActor(clock: SteadyClock, aborted: bool, startedAt: int, iteration: nat, over: nat -> bool)
      requires clock.Steady() && (spec.minDuration.None? || startedAt <= clock.reading(clock.next))
      modifies this, clock`next
      ensures sleepUntil <= old(sleepUntil) && clock.next >= old(clock.next)
      ensures aborted ==> clock.next == old(clock.next) && sleepUntil == old(sleepUntil)
      ensures !aborted ==> forall k :: old(clock.next) < k < clock.next - 1 ==> clock.reading(k) <= sleepUntil
      ensures !aborted && DoesBlock(spec) && IsDone(spec, startedAt, iteration, old(sleepUntil)) ==>
                forall k :: old(clock.next) < k < clock.next - 1 ==>
                  clock.reading(k) <= PhaseEnd(spec, startedAt, clock.reading(old(clock.next)))
      ensures !aborted ==> clock.next > old(clock.next)
      ensures !aborted && DoesBlock(spec) && IsDone(spec, startedAt, iteration, old(sleepUntil)) ==>
                over(clock.next) || IsDone(spec, startedAt, iteration, clock.reading(clock.next - 1))
      ensures !aborted && !(DoesBlock(spec) && IsDone(spec, startedAt, iteration, old(sleepUntil))) ==>
                sleepUntil == old(sleepUntil) && (over(clock.next) || clock.reading(clock.next - 1) >= sleepUntil)
    {
      if aborted {
        return;
      }
      var now := clock.Now();
      if sleepUntil <= now {
        return;
      }
      if DoesBlock(spec) && IsDone(spec, startedAt, iteration, sleepUntil) {
        sleepUntil := PhaseEnd(spec, startedAt, now);
      }
      SleepUntilOrPhaseEnd(clock, sleepUntil, over);
    }

    /**
     One comparison of the inner iterator with its end: sleep off the pause, then stop if aborted, if done in a
     phase the actor blocks, or if the phase has `expired` otherwise.  The abort flag is read twice; `over(k)`
     says whether the phase is found to be over just before the k-th reading.
     */
    method Test(clock: SteadyClock, aborted: bool, abortedSince: bool, expired: bool,
                startedAt: int, iteration: nat, over: nat -> bool)
      returns (t: int, stop: bool)
      requires clock.Steady() && (spec.minDuration.None? || startedAt <= clock.reading(clock.next))
      requires aborted ==> abortedSince
      modifies this, clock`next
      ensures sleepUntil <= old(sleepUntil)
      ensures abortedSince ==> stop
      ensures !abortedSince && DoesBlock(spec) ==>
                && clock.next > old(clock.next) + 1 && t == clock.reading(clock.next - 1)
                && stop == IsDone(spec, startedAt, iteration, t)
      ensures !abortedSince && DoesBlock(spec) && stop ==>
                forall k :: old(clock.next) < k < clock.next - 2 ==>
                  clock.reading(k) <= PhaseEnd(spec, startedAt, clock.reading(old(clock.next)))
      ensures !abortedSince && !DoesBlock(spec) ==> clock.next > old(clock.next) && stop == expired
      ensures !stop && (forall k :: !over(k)) ==> clock.reading(clock.next - 1) >= old(sleepUntil)
    {
      ghost var resumeAt := sleepUntil;
      SleepForActor(clock, aborted, startedAt, iteration, over);
      t, stop := startedAt, true;
      if abortedSince {
        return;
      }
      ghost var slept := clock.reading(clock.next - 1);
      assert clock.InOrder(clock.next - 1, clock.next);
      if DoesBlock(spec) {
        t := clock.Now();
        stop := IsDone(spec, startedAt, iteration, t);
        if IsDone(spec, startedAt, iteration, resumeAt) && IsDone(spec, startedAt, iteration, slept) {
          DoneStaysDone(spec, startedAt, iteration, slept, t);
        }
      } else {
        stop := expired;
      }
    }
  }

  /** The instants at which the inner iterator tested for completion: n bodies ran, and then the phase was done. */
  ghost predicate IterationTrace(c: Checker, startedAt: int, n: nat, tests: seq<int>) {
    && |tests| == n + 1
    && IsDone(c, startedAt, n, tests[n])
    && NotYet(c, startedAt, tests[..n])
  }

  ghost predicate NotYet(c: Checker, startedAt: int, tests: seq<int>) {
    forall k :: 0 <= k < |tests| ==> !IsDone(c, startedAt, k, tests[k])
  }

  /** Every body after a pause begins only once the pause is over. */
  ghost predicate PausesKept(n: nat, tests: seq<int>, pauses: nat -> Option<nat>)
    requires n <= |tests|
  {
    forall k :: 1 <= k < n && pauses(k - 1).Some? ==> tests[k] >= tests[k - 1] + pauses(k - 1).value
  }

  /** Reading i comes right after the test at time t, with one in between if a pause was asked for. */
  predicate FollowsTest(reading: nat -> int, i: nat, t: int, paused: bool) {
    var back := if paused then 2 else 1;
    i >= back && t == reading(i - back)
  }

  /** The n-th test begins at reading i: the first one at `first`, every other right after the test before. */
  ghost predicate BeginsAt(reading: nat -> int, first: nat, i: nat, n: nat, tests: seq<int>, pauses: nat -> Option<nat>)
    requires n <= |tests|
  {
    if n == 0 then i == first else FollowsTest(reading, i, tests[n - 1], pauses(n - 1).Some?)
  }

  /** A test that takes the readings from i up to `end`: all but the first and the last two are within the phase. */
  ghost predicate Prompt(c: Checker, startedAt: int, reading: nat -> int, i: nat, end: nat) {
    i < end && forall k :: i < k < end - 2 ==> reading(k) <= PhaseEnd(c, startedAt, reading(i))
  }

  /** The loop before its n-th test: no test was positive, and the next reading begins the n-th. */
  ghost predicate Going(c: Checker, startedAt: int, reading: nat -> int, first: nat, next: nat, sleepUntil: int,
                        n: nat, tests: seq<int>, pauses: nat -> Option<nat>) {
    && |tests| == n && NotYet(c, startedAt, tests) && PausesKept(n, tests, pauses)
    && BeginsAt(reading, first, next, n, tests, pauses)
    && (n > 0 && pauses(n - 1).Some? ==> sleepUntil >= tests[n - 1] + pauses(n - 1).value)
  }

  /** The loop after its last test, which began at reading `last`. */
  ghost predicate Stopped(c: Checker, startedAt: int, reading: nat -> int, first: nat, last: nat, next: nat,
                          n: nat, tests: seq<int>, pauses: nat -> Option<nat>) {
    && IterationTrace(c, startedAt, n, tests) && PausesKept(n, tests, pauses)
    && BeginsAt(reading, first, last, n, tests, pauses)
    && Prompt(c, startedAt, reading, last, next) && tests[n] == reading(next - 1)
  }

  lemma BeforeTests(c: Checker, startedAt: int, reading: nat -> int, first: nat, sleepUntil: int, pauses: nat -> Option<nat>)
    ensures Going(c, startedAt, reading, first, first, sleepUntil, 0, [], pauses)
  {
  }

  lemma TestAgain(c: Checker, startedAt: int, reading: nat -> int, first: nat, next: nat, sleepUntil: int,
                  n: nat, tests: seq<int>, pauses: nat -> Option<nat>, t: int, next': nat, sleepUntil': int)
    requires Going(c, startedAt, reading, first, next, sleepUntil, n, tests, pauses)
    requires !IsDone(c, startedAt, n, t) && t >= sleepUntil && FollowsTest(reading, next', t, pauses(n).Some?)
    requires pauses(n).Some? ==> sleepUntil' >= t + pauses(n).value
    ensures Going(c, startedAt, reading, first, next', sleepUntil', n + 1, tests + [t], pauses)
  {
  }

  lemma TestLast(c: Checker, startedAt: int, reading: nat -> int, first: nat, last: nat, sleepUntil: int,
                 n: nat, tests: seq<int>, pauses: nat -> Option<nat>, t: int, next: nat)
    requires Going(c, startedAt, reading, first, last, sleepUntil, n, tests, pauses)
    requires IsDone(c, startedAt, n, t) && Prompt(c, startedAt, reading, last, next) && t == reading(next - 1)
    ensures Stopped(c, startedAt, reading, first, last, next, n, tests + [t], pauses)
  {
    assert (tests + [t])[..n] == tests;
  }

  /**
   One turn of the inner loop: the test, and unless it is the last one a body that may ask for a pause.  A turn
   that is not the last counts towards Repeat, or towards the reading at which the Duration is over.
   */
  method Turn(checker: IterationChecker, clock: SteadyClock, startedAt: int, n: nat, pause: Option<nat>, ghost horizon: nat)
    returns (t: int, done: bool)
    requires clock.Steady() && DoesBlock(checker.spec)
    requires checker.spec.minDuration.None? || startedAt <= clock.reading(clock.next)
    requires checker.spec.minDuration.Some? ==> clock.reading(horizon) > startedAt + checker.spec.minDuration.value
    modifies checker, clock`next
    ensures clock.next > old(clock.next) && done == IsDone(checker.spec, startedAt, n, t)
    ensures done ==> t == clock.reading(clock.next - 1)
    ensures done ==> Prompt(checker.spec, startedAt, clock.reading, old(clock.next), clock.next)
    ensures !done ==> t >= old(checker.sleepUntil) && FollowsTest(clock.reading, clock.next, t, pause.Some?)
    ensures !done && pause.Some? ==> checker.sleepUntil >= t + pause.value
    ensures checker.spec.minDuration.None? || startedAt <= clock.reading(clock.next)
    ensures !done ==> Shortfall(Repeat(checker.spec), n + 1) + Shortfall(horizon, clock.next)
                      < Shortfall(Repeat(checker.spec), n) + Shortfall(horizon, old(clock.next))
  {
    t, done := checker.Test(clock, false, false, false, startedAt, n, k => false);
    assert horizon < clock.next ==> clock.InOrder(horizon, clock.next - 1);
    if !done {
      checker.SleepNonBlocking(clock, pause);
    }
    assert clock.InOrder(old(clock.next), clock.next);
  }

  method Iterate(checker: IterationChecker, clock: SteadyClock, startedAt: int, pauses: nat -> Option<nat>, ghost horizon: nat)
    returns (n: nat, tests: seq<int>, ghost last: nat)
    requires clock.Steady() && DoesBlock(checker.spec)
    requires checker.spec.minDuration.None? || startedAt <= clock.reading(clock.next)
    requires checker.spec.minDuration.Some? ==> clock.reading(horizon) > startedAt + checker.spec.minDuration.value
    modifies checker, clock`next
    ensures Stopped(checker.spec, startedAt, clock.reading, old(clock.next), last, clock.next, n, tests, pauses)
  {
    ghost var first := clock.next;
    n, tests, last := 0, [], clock.next;
    BeforeTests(checker.spec, startedAt, clock.reading, first, checker.sleepUntil, pauses);
    var done := false;
    while !done
      invariant if done then Stopped(checker.spec, startedAt, clock.reading, first, last, clock.next, n, tests, pauses)
                else Going(checker.spec, startedAt, clock.reading, first, clock.next, checker.sleepUntil, n, tests, pauses)
      invariant checker.spec.minDuration.None? || startedAt <= clock.reading(clock.next)
      decreases !done, Shortfall(Repeat(checker.spec), n) + Shortfall(horizon, clock.next)
    {
      ghost var sleepUntil := checker.sleepUntil;
      last := clock.next;
      var t: int;
      t, done := Turn(checker, clock, startedAt, n, pauses(n), horizon);
      if done {
        TestLast(checker.spec, startedAt, clock.reading, first, last, sleepUntil, n, tests, pauses, t, clock.next);
        tests := tests + [t];
      } else {
        TestAgain(checker.spec, startedAt, clock.reading, first, last, sleepUntil, n, tests, pauses, t, clock.next,
                  checker.sleepUntil);
        tests, n := tests + [t], n + 1;
      }
    }
  }

  /**
   The inner loop of an unaborted phase the actor blocks.  The phase stays open (the actor holds its
   token); `pauses(k)` is the pause the k-th body asks for.  The last test, begun at reading `last` right after the
   last body, is not put off: of the readings it takes, only the first and the last two can be past the end of the
   phase.
   */
  method RunBlockedPhase(checker: IterationChecker, clock: SteadyClock, pauses: nat -> Option<nat>)
    returns (startedAt: int, n: nat, tests: seq<int>, ghost last: nat)
    requires clock.Steady() && DoesBlock(checker.spec)
    modifies checker, clock`next
    ensures var first := old(clock.next) + if checker.spec.minDuration.Some? then 1 else 0;
            Stopped(checker.spec, startedAt, clock.reading, first, last, clock.next, n, tests, pauses)
    ensures checker.spec.minDuration.Some? ==> startedAt == clock.reading(old(clock.next))
  {
    startedAt := 0;
    ghost var deadline := 0;
    if checker.spec.minDuration.Some? {
      startedAt := clock.Now();
      assert clock.InOrder(clock.next - 1, clock.next);
      deadline := startedAt + checker.spec.minDuration.value;
    }
    assert clock.Passes(deadline);
    ghost var horizon: nat :| clock.reading(horizon) > deadline;
    n, tests, last := Iterate(checker, clock, startedAt, pauses, horizon);
  }

  /**
   The body runs as often as the least count at or after Repeat whose test came past Duration;
   exactly Repeat times without a Duration.
   */
  lemma IterationCount(c: Checker, startedAt: int, n: nat, tests: seq<int>)
    requires IterationTrace(c, startedAt, n, tests)
    ensures c.minDuration.None? ==> n == Repeat(c)
    ensures c.minDuration.Some? ==>
              && n >= Repeat(c) && tests[n] - startedAt >= c.minDuration.value
              && forall k :: Repeat(c) <= k < n ==> tests[k] - startedAt < c.minDuration.value
  {
    assert forall k :: 0 <= k < n ==> tests[..n][k] == tests[k];
    if n > 0 {
      assert !IsDone(c, startedAt, n - 1, tests[n - 1]);
    }
  }

  /** Being done is monotone in time. */
  lemma DoneStaysDone(c: Checker, startedAt: int, iteration: nat, t: int, u: int)
    requires IsDone(c, startedAt, iteration, t) && t <= u
    ensures IsDone(c, startedAt, iteration, u)
  {
  }
}
