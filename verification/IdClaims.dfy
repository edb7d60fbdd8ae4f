/** Threads claiming ranges of document ids from one atomic counter. */
module IdClaims {
  import opened Arithmetic

  /** The ids lo .. hi-1. */
  datatype Claim = Claim(lo: int, hi: int)

  /** `inLoop[t]`: thread t is still in its claiming loop. */
  datatype State = State(counter: int, inLoop: seq<bool>, claims: seq<Claim>)

  function Min(a: int, b: int): int {
    if a < b then a else b
  }

  predicate Enabled(s: State, t: nat) {
    t < |s.inLoop| && s.inLoop[t]
  }

  /** One turn of the loop: fetch_add, then either a claim or the exit. */
  function Apply(batch: int, total: int, s: State, t: nat): State
    requires Enabled(s, t)
  {
    var low := s.counter;
    if low < total then State(low + batch, s.inLoop, s.claims + [Claim(low, Min(low + batch, total))])
    else State(low + batch, s.inLoop[t := false], s.claims)
  }

  ghost predicate Admissible(batch: int, total: int, s: State, turns: seq<nat>)
    decreases |turns|
  {
    turns == [] || (Enabled(s, turns[0]) && Admissible(batch, total, Apply(batch, total, s, turns[0]), turns[1..]))
  }

  ghost function After(batch: int, total: int, s: State, turns: seq<nat>): State
    requires Admissible(batch, total, s, turns)
    decreases |turns|
  {
    if turns == [] then s else After(batch, total, Apply(batch, total, s, turns[0]), turns[1..])
  }

  function Init(threads: nat): State {
    State(0, seq(threads, i => true), [])
  }

  function Covered(total: int, s: State): int {
    Min(s.counter, total)
  }

  /** The claims follow one another without gap or overlap, from 0 up to `upto`. */
  predicate Tile(claims: seq<Claim>, upto: int) {
    if claims == [] then upto == 0
    else
      var last := claims[|claims| - 1];
      last.lo < last.hi == upto && Tile(claims[..|claims| - 1], last.lo)
  }

  /** The claims made so far tile the ids below the counter, in the order in which they were made. */
  ghost predicate Inv(total: int, s: State) {
    && Tile(s.claims, Covered(total, s))
    && (forall t :: 0 <= t < |s.inLoop| && !s.inLoop[t] ==> s.counter >= total)
  }

  lemma StepKeepsInv(batch: int, total: int, s: State, t: nat)
    requires batch >= 1 && Inv(total, s) && Enabled(s, t)
    ensures Inv(total, Apply(batch, total, s, t))
  {
    var claims := Apply(batch, total, s, t).claims;
    assert s.counter < total ==> claims[..|claims| - 1] == s.claims;
  }

  lemma {:induction false} RunKeepsInv(batch: int, total: int, s: State, turns: seq<nat>)
    requires batch >= 1 && Inv(total, s) && Admissible(batch, total, s, turns)
    ensures Inv(total, After(batch, total, s, turns))
    decreases |turns|
  {
    if turns != [] {
      StepKeepsInv(batch, total, s, turns[0]);
      RunKeepsInv(batch, total, Apply(batch, total, s, turns[0]), turns[1..]);
    }
  }

  /** The k-th claim of any run. */
  function Batch(batch: int, total: int, k: nat): Claim {
    Claim(k * batch, Min((k + 1) * batch, total))
  }

  /** The claims are the batches in order; the counter is at the next one until the ids run out. */
  ghost predicate Batched(batch: int, total: int, s: State) {
    && (forall k :: 0 <= k < |s.claims| ==> s.claims[k] == Batch(batch, total, k))
    && (s.counter < total ==> s.counter == |s.claims| * batch)
    && (s.counter >= total ==> total <= |s.claims| * batch)
    && (s.claims != [] ==> (|s.claims| - 1) * batch < total)
    && (forall t :: 0 <= t < |s.inLoop| && !s.inLoop[t] ==> s.counter >= total)
  }

  lemma StepKeepsBatches(batch: int, total: int, s: State, t: nat)
    requires batch >= 1 && Batched(batch, total, s) && Enabled(s, t)
    ensures Batched(batch, total, Apply(batch, total, s, t))
  {
    var m := |s.claims|;
    assert (m + 1) * batch == m * batch + batch;
    assert (m + 1 - 1) * batch == m * batch;
  }

  lemma {:induction false} RunKeepsBatches(batch: int, total: int, s: State, turns: seq<nat>)
    requires batch >= 1 && Batched(batch, total, s) && Admissible(batch, total, s, turns)
    ensures Batched(batch, total, After(batch, total, s, turns))
    decreases |turns|
  {
    if turns != [] {
      StepKeepsBatches(batch, total, s, turns[0]);
      RunKeepsBatches(batch, total, Apply(batch, total, s, turns[0]), turns[1..]);
    }
  }

  /**
   In every run the k-th claim is the k-th batch: `batch` ids from k * batch on, fewer only at the very end.  Once a
   thread has left the loop, as many batches are claimed as it takes to cover all ids.
   */
  lemma ClaimsAreBatches(batch: int, total: int, threads: nat, turns: seq<nat>)
    requires batch >= 1 && total >= 0 && Admissible(batch, total, Init(threads), turns)
    ensures var s := After(batch, total, Init(threads), turns);
            && (forall k :: 0 <= k < |s.claims| ==>
                  s.claims[k].lo == k * batch && s.claims[k].hi == Min(k * batch + batch, total))
            && ((exists t :: 0 <= t < |s.inLoop| && !s.inLoop[t]) ==> |s.claims| == (total + batch - 1) / batch)
  {
    RunKeepsBatches(batch, total, Init(threads), turns);
    var s := After(batch, total, Init(threads), turns);
    forall k | 0 <= k < |s.claims|
      ensures s.claims[k].lo == k * batch && s.claims[k].hi == Min(k * batch + batch, total)
    {
      assert s.claims[k] == Batch(batch, total, k);
      assert (k + 1) * batch == k * batch + batch;
    }
    if t :| 0 <= t < |s.inLoop| && !s.inLoop[t] {
      CeilingIs(|s.claims|, batch, total);
    }
  }

  lemma CeilingIs(m: nat, batch: int, total: int)
    requires batch >= 1 && total >= 0 && total <= m * batch && (m > 0 ==> (m - 1) * batch < total)
    ensures m == (total + batch - 1) / batch
  {
    assert (m - 1) * batch == m * batch - batch;
    QuotientUnique(total + batch - 1, batch, m, total + batch - 1 - m * batch);
  }

  lemma {:induction false} TilesInRange(claims: seq<Claim>, upto: int, i: nat)
    requires Tile(claims, upto) && i < |claims|
    ensures 0 <= claims[i].lo < claims[i].hi <= upto
    decreases |claims|
  {
    var last := |claims| - 1;
    if i < last {
      TilesInRange(claims[..last], claims[last].lo, i);
    } else if last > 0 {
      TilesInRange(claims[..last], claims[last].lo, 0);
    }
  }

  lemma {:induction false} TilesOrdered(claims: seq<Claim>, upto: int, i: nat, j: nat)
    requires Tile(claims, upto) && i < j < |claims|
    ensures claims[i].hi <= claims[j].lo
    decreases |claims|
  {
    var last := |claims| - 1;
    if j < last {
      TilesOrdered(claims[..last], claims[last].lo, i, j);
    } else {
      TilesInRange(claims[..last], claims[last].lo, i);
    }
  }

  lemma {:induction false} FindTile(claims: seq<Claim>, upto: int, id: int) returns (k: nat)
    requires Tile(claims, upto) && 0 <= id < upto
    ensures k < |claims| && claims[k].lo <= id < claims[k].hi
    decreases |claims|
  {
    var last := |claims| - 1;
    if id >= claims[last].lo {
      k := last;
    } else {
      k := FindTile(claims[..last], claims[last].lo, id);
    }
  }

  predicate Claimed(s: State, id: int) {
    exists k :: 0 <= k < |s.claims| && s.claims[k].lo <= id < s.claims[k].hi
  }

  lemma ClaimedExactly(total: int, s: State, id: int)
    requires Inv(total, s)
    ensures Claimed(s, id) <==> 0 <= id < Covered(total, s)
  {
    if 0 <= id < Covered(total, s) {
      var k := FindTile(s.claims, Covered(total, s), id);
    }
    if k :| 0 <= k < |s.claims| && s.claims[k].lo <= id < s.claims[k].hi {
      TilesInRange(s.claims, Covered(total, s), k);
    }
  }

  /** In every state of every run, claimed ranges are non-empty and pairwise disjoint. */
  lemma ClaimsDisjoint(batch: int, total: int, threads: nat, turns: seq<nat>, i: nat, j: nat)
    requires batch >= 1 && total >= 0 && Admissible(batch, total, Init(threads), turns)
    requires i < j < |After(batch, total, Init(threads), turns).claims|
    ensures var claims := After(batch, total, Init(threads), turns).claims;
            claims[i].lo < claims[i].hi <= claims[j].lo < claims[j].hi
  {
    RunKeepsInv(batch, total, Init(threads), turns);
    var s := After(batch, total, Init(threads), turns);
    TilesInRange(s.claims, Covered(total, s), i);
    TilesInRange(s.claims, Covered(total, s), j);
    TilesOrdered(s.claims, Covered(total, s), i, j);
  }

  /** Once a thread has left the loop, the claimed ids are exactly 0 .. total-1. */
  lemma AllIdsClaimed(batch: int, total: int, threads: nat, turns: seq<nat>, t: nat, id: int)
    requires batch >= 1 && total >= 0 && Admissible(batch, total, Init(threads), turns)
    requires t < |After(batch, total, Init(threads), turns).inLoop| && !After(batch, total, Init(threads), turns).inLoop[t]
    ensures Claimed(After(batch, total, Init(threads), turns), id) <==> 0 <= id < total
  {
    RunKeepsInv(batch, total, Init(threads), turns);
    ClaimedExactly(total, After(batch, total, Init(threads), turns), id);
  }
}
