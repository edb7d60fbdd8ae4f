/**
 The global token-bucket rate limiter for "X per Y" specifications, one whole call at a time: the two
 serial buckets, and the single counter they amount to when calls do not overlap.
 */
module RateLimiter {

  /** The limiter's parameters and its two atomics. */
  datatype Limiter = Limiter(burstSize: int, rate: int, lastEmptied: int, burstCount: nat)

  /** Tokens per period: the burst bucket is used only for burst sizes above one. */
  function Burst(l: Limiter): (b: int)
    ensures b >= 1
  {
    if l.burstSize > 1 then l.burstSize else 1
  }

  predicate CanBurst(l: Limiter) {
    l.burstSize > 1 && l.burstCount % l.burstSize != 0
  }

  /** consumeIfWithinRate; `spurious` says that the weak compare-exchange it reaches fails for no reason. */
  function Consume(l: Limiter, now: int, spurious: bool): (r: (Limiter, bool)) {
    if CanBurst(l) then
      if spurious then (l, false) else (l.(burstCount := l.burstCount + 1), true)
    else if now < l.lastEmptied + l.rate || spurious then (l, false)
    else (l.(lastEmptied := l.lastEmptied + l.rate, burstCount := l.burstCount + 1), true)
  }

  /** resetLastEmptied */
  function Reset(l: Limiter, now: int): Limiter {
    l.(lastEmptied := now - l.rate)
  }

  class GlobalRateLimiter {
    const burstSize: int
    const rate: int
    var lastEmptied: int
    var burstCount: nat
    var iters: nat

    function View(): Limiter
      reads this
    {
      Limiter(burstSize, rate, lastEmptied, burstCount)
    }

    constructor (operations: int, per: int)
      ensures View() == Limiter(operations, per, 0, 0) && iters == 0
    {
      burstSize, rate, lastEmptied, burstCount, iters := operations, per, 0, 0, 0;
    }

    method ConsumeIfWithinRate(now: int, spurious: bool) returns (success: bool)
      modifies this`lastEmptied, this`burstCount
      ensures (View(), success) == Consume(old(View()), now, spurious)
    {
      if burstSize > 1 {
        var curBurstCount := burstCount;
        if curBurstCount % burstSize != 0 {
          if !spurious {
            burstCount := curBurstCount + 1;
          }
          return !spurious;
        }
      }
      var newEmptiedTime := lastEmptied + rate;
      if now < newEmptiedTime {
        return false;
      }
      success := !spurious;
      if success {
        lastEmptied := newEmptiedTime;
        burstCount := burstCount + 1;
      }
    }

    method NotifyOfIteration()
      modifies this`iters
      ensures iters == old(iters) + 1
    {
      iters := iters + 1;
    }

    method ResetLastEmptied(now: int)
      modifies this`lastEmptied, this`iters
      ensures View() == Reset(old(View()), now) && iters == 0
    {
      lastEmptied := now - rate;
      iters := 0;
    }
  }

  // One counter

  /** Tokens left over in the burst bucket before the first period is charged. */
  function Leftover(l: Limiter): (r: int)
    ensures 0 <= r < Burst(l)
    ensures (l.burstCount + r) % Burst(l) == 0
  {
    var b := Burst(l);
    var r := (b - l.burstCount % b) % b;
    LeftoverRoundsUp(l.burstCount, b);
    r
  }

  lemma LeftoverRoundsUp(n: nat, b: int)
    requires b >= 1
    ensures (n + (b - n % b) % b) % b == 0
  {
    if n % b == 0 {
    } else {
      assert (b - n % b) % b == b - n % b;
      assert n + b - n % b == b * (n / b + 1);
      MultipleMod(b, n / b + 1);
    }
  }

  lemma Scaled(b: int, d: int)
    requires b >= 1
    ensures if d >= 1 then b * d >= b else if d == 0 then b * d == 0 else b * d <= -b
  {
    if d >= 1 {
      assert b * d == b + b * (d - 1);
    } else if d <= -1 {
      assert b * d == -b + b * (d + 1);
    }
  }

  lemma MultipleMod(b: int, k: int)
    requires b >= 1
    ensures (b * k) % b == 0
  {
    var q, r := (b * k) / b, (b * k) % b;
    assert b * (k - q) == r;
    Scaled(b, k - q);
  }

  /** The specification: having granted `granted` tokens since state l, the next one is due at `now`. */
  predicate Due(l: Limiter, granted: nat, now: int)
    requires l.rate >= 1
  {
    granted < Leftover(l) + Burst(l) * ((now - l.lastEmptied) / l.rate)
  }

  /** Whole calls in a row, at the given times, without spurious failures: who gets a token. */
  function Grants(l: Limiter, nows: seq<int>): (r: seq<bool>)
    ensures |r| == |nows|
    decreases |nows|
  {
    if nows == [] then []
    else
      var (l', ok) := Consume(l, nows[0], false);
      [ok] + Grants(l', nows[1..])
  }

  /** The same by the counter alone. */
  function DueGrants(l: Limiter, granted: nat, nows: seq<int>): (r: seq<bool>)
    requires l.rate >= 1
    ensures |r| == |nows|
    decreases |nows|
  {
    if nows == [] then []
    else
      var ok := Due(l, granted, nows[0]);
      [ok] + DueGrants(l, if ok then granted + 1 else granted, nows[1..])
  }

  /** Periods begun: the least k with b * k >= n. */
  function Periods(n: nat, b: int): nat
    requires b >= 1
  {
    (n + b - 1) / b
  }

  lemma PeriodsBounds(n: nat, b: int)
    requires b >= 1
    ensures n <= b * Periods(n, b) < n + b
  {
  }

  lemma PeriodsUnique(n: nat, b: int, k: int)
    requires b >= 1 && n <= b * k < n + b
    ensures k == Periods(n, b)
  {
    var d := k - Periods(n, b);
    PeriodsBounds(n, b);
    assert -b < b * d < b;
    Scaled(b, d);
  }

  /** One more token begins a new period exactly when the count stood at a multiple of b. */
  lemma PeriodsStep(n: nat, b: int)
    requires b >= 1
    ensures Periods(n + 1, b) == Periods(n, b) + if n % b == 0 then 1 else 0
    ensures n % b == 0 ==> n == b * Periods(n, b)
    ensures n % b != 0 ==> n < b * Periods(n, b)
  {
    var k := n / b;
    assert n == b * k + n % b;
    if n % b == 0 {
      PeriodsUnique(n, b, k);
      assert b * (k + 1) == b * k + b;
      PeriodsUnique(n + 1, b, k + 1);
    } else {
      assert b * (k + 1) == b * k + b;
      PeriodsUnique(n, b, k + 1);
      PeriodsUnique(n + 1, b, k + 1);
    }
  }

  /** `l` is what `l0` has become after `granted` tokens, the last of them by time `seen`. */
  predicate Tracks(l0: Limiter, granted: nat, l: Limiter, seen: int) {
    && l0.rate >= 1
    && l.burstSize == l0.burstSize && l.rate == l0.rate
    && l.burstCount == l0.burstCount + granted
    && l.lastEmptied ==
         l0.lastEmptied + l0.rate * (Periods(l.burstCount, Burst(l0)) - Periods(l0.burstCount, Burst(l0)))
    && l.lastEmptied <= seen
  }

  lemma DueByPeriods(l0: Limiter, granted: nat, now: int)
    requires l0.rate >= 1
    ensures Due(l0, granted, now) <==>
            l0.burstCount + granted <
              Burst(l0) * (Periods(l0.burstCount, Burst(l0)) + (now - l0.lastEmptied) / l0.rate)
  {
    var b := Burst(l0);
    var k := (l0.burstCount + Leftover(l0)) / b;
    assert b * k == l0.burstCount + Leftover(l0);
    PeriodsUnique(l0.burstCount, b, k);
    var f := (now - l0.lastEmptied) / l0.rate;
    assert b * (k + f) == b * k + b * f;
  }

  lemma FloorAtLeast(x: int, r: int, k: int)
    requires r >= 1
    ensures x / r >= k <==> x >= r * k
  {
    var q := x / r;
    assert x == r * q + x % r;
    if q >= k {
      assert r * q >= r * k;
    } else {
      assert r * (q + 1) <= r * k;
      assert r * (q + 1) == r * q + r;
    }
  }

  lemma ScaledLess(b: int, k: int, f: int)
    requires b >= 1
    ensures b * k < b * f <==> k < f
  {
    assert b * f - b * k == b * (f - k);
    Scaled(b, f - k);
  }

  /** One call of the two-bucket code does what the counter says. */
  lemma ConsumeIsDue(l0: Limiter, granted: nat, l: Limiter, seen: int, now: int)
    requires Tracks(l0, granted, l, seen) && seen <= now
    ensures var (l', ok) := Consume(l, now, false);
            && ok == Due(l0, granted, now)
            && Tracks(l0, if ok then granted + 1 else granted, l', now)
  {
    var b, q := Burst(l0), l.burstCount;
    var m := Periods(q, b) - Periods(l0.burstCount, b);
    var x := now - l0.lastEmptied;
    PeriodsStep(q, b);
    DueByPeriods(l0, granted, now);
    FloorAtLeast(x, l0.rate, m);
    FloorAtLeast(x, l0.rate, m + 1);
    assert l0.rate * (m + 1) == l0.rate * m + l0.rate;
    var c := Periods(l0.burstCount, b);
    var f := x / l0.rate;
    if q % b != 0 {
      assert c + m <= c + f;
      assert b * (c + m) <= b * (c + f) by { ScaledLess(b, c + f, c + m); }
    } else {
      ScaledLess(b, c + m, c + f);
    }
  }

  lemma {:induction false} GrantsTrack(l0: Limiter, granted: nat, l: Limiter, seen: int, nows: seq<int>)
    requires Tracks(l0, granted, l, seen)
    requires forall i :: 0 <= i < |nows| ==> seen <= nows[i]
    requires forall i, j :: 0 <= i < j < |nows| ==> nows[i] <= nows[j]
    ensures Grants(l, nows) == DueGrants(l0, granted, nows)
    decreases |nows|
  {
    if nows != [] {
      ConsumeIsDue(l0, granted, l, seen, nows[0]);
      var (l', ok) := Consume(l, nows[0], false);
      GrantsTrack(l0, if ok then granted + 1 else granted, l', nows[0], nows[1..]);
    }
  }

  /**
   Sequential refinement: for any start count and any non-decreasing call times, the two buckets grant
   exactly when the number granted so far is below the left-over tokens plus one burst per full period.
   */
  lemma TwoBucketsAreOneCounter(l: Limiter, nows: seq<int>)
    requires l.rate >= 1
    requires forall i :: 0 <= i < |nows| ==> l.lastEmptied <= nows[i]
    requires forall i, j :: 0 <= i < j < |nows| ==> nows[i] <= nows[j]
    ensures Grants(l, nows) == DueGrants(l, 0, nows)
  {
    GrantsTrack(l, 0, l, l.lastEmptied, nows);
  }

  /**
   Reset at t0, the counter grants the next token at `now` exactly while fewer are granted than one burst per
   period begun plus the tokens left over.
   */
  lemma DueAfterReset(l: Limiter, t0: int, granted: nat, now: int)
    requires l.rate >= 1
    ensures Due(Reset(l, t0), granted, now) <==>
            granted < Burst(l) * ((now - t0) / l.rate + 1) + (Burst(l) - l.burstCount % Burst(l)) % Burst(l)
  {
    FloorShift(now - t0, l.rate);
    var l' := Reset(l, t0);
    assert now - l'.lastEmptied == now - t0 + l.rate && Burst(l') == Burst(l);
    assert Leftover(l') == (Burst(l) - l.burstCount % Burst(l)) % Burst(l);
  }

  lemma FloorShift(x: int, r: int)
    requires r >= 1
    ensures (x + r) / r == x / r + 1
  {
    var k := x / r;
    assert r * (k + 1) == r * k + r && r * (k + 2) == r * (k + 1) + r;
    FloorAtLeast(x, r, k);
    FloorAtLeast(x, r, k + 1);
    FloorAtLeast(x + r, r, k + 1);
    FloorAtLeast(x + r, r, k + 2);
  }

  /** A zero period limits nothing: once the bucket time has passed, every call that is not lost succeeds. */
  lemma ZeroPeriodNeverLimits(l: Limiter, now: int)
    requires l.rate == 0 && l.lastEmptied <= now
    ensures Consume(l, now, false) == (l.(burstCount := l.burstCount + 1), true)
  {
  }

  /** So a limiter with a zero period grants every call of any run that begins no earlier. */
  lemma {:induction false} ZeroPeriodGrantsAll(l: Limiter, nows: seq<int>, i: nat)
    requires l.rate == 0 && i < |nows| && forall k :: 0 <= k < |nows| ==> l.lastEmptied <= nows[k]
    ensures Grants(l, nows)[i]
    decreases |nows|
  {
    ZeroPeriodNeverLimits(l, nows[0]);
    if i > 0 {
      ZeroPeriodGrantsAll(Consume(l, nows[0], false).0, nows[1..], i - 1);
    }
  }
}
