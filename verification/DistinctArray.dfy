/** The distinct branch of the array generator: collecting n distinct values from a stream that may repeat. */
module DistinctArray {

  datatype Outcome<T> = Values(values: seq<T>) | GaveUp

  /** How many duplicates in a row are tolerated. */
  const THRESHOLD := 100

  /** The largest value of the repeat counter's machine type. */
  const INT8_MAX := 127

  /** The distinct values among the first k of the stream, in order of first occurrence. */
  function FirstSeen<T(==)>(stream: nat -> T, k: nat): (r: seq<T>)
  {
    if k == 0 then []
    else
      var before := FirstSeen(stream, k - 1);
      if stream(k - 1) in before then before else before + [stream(k - 1)]
  }

  /** The value at position i has occurred before. */
  ghost predicate Repeated<T>(stream: nat -> T, i: nat) {
    stream(i) in FirstSeen(stream, i)
  }

  /** The THRESHOLD + 1 values from position k on are all duplicates. */
  ghost predicate Stuck<T(!new)>(stream: nat -> T, k: nat) {
    forall i: nat :: k <= i <= k + THRESHOLD ==> Repeated(stream, i)
  }

  /** No stuck window ends among the first k values. */
  ghost predicate NeverStuck<T(!new)>(stream: nat -> T, k: nat) {
    forall j: nat :: j + THRESHOLD + 1 <= k ==> !Stuck(stream, j)
  }

  /** The first n distinct values are found without getting stuck on the way. */
  ghost predicate Finds<T(!new)>(stream: nat -> T, n: nat, k: nat) {
    |FirstSeen(stream, k)| == n && NeverStuck(stream, k)
  }

  /** The generator gets stuck before it has n distinct values. */
  ghost predicate GetsStuck<T(!new)>(stream: nat -> T, n: nat, j: nat) {
    |FirstSeen(stream, j)| < n && Stuck(stream, j)
  }

  lemma {:induction false} FirstSeenGrows<T>(stream: nat -> T, j: nat, k: nat)
    requires j <= k
    ensures FirstSeen(stream, j) <= FirstSeen(stream, k)
    decreases k - j
  {
    if j < k {
      FirstSeenGrows(stream, j, k - 1);
    }
  }

  /** No value is listed twice, and every value of the stream so far is listed. */
  lemma {:induction false} FirstSeenDistinct<T>(stream: nat -> T, k: nat)
    ensures forall a, b :: 0 <= a < b < |FirstSeen(stream, k)| ==> FirstSeen(stream, k)[a] != FirstSeen(stream, k)[b]
    ensures forall i: nat :: i < k ==> stream(i) in FirstSeen(stream, k)
  {
    if k > 0 {
      FirstSeenDistinct(stream, k - 1);
    }
  }

  /** Nothing is added during a run of duplicates. */
  lemma {:induction false} RepeatsAddNothing<T(!new)>(stream: nat -> T, j: nat, m: nat)
    requires Stuck(stream, j) && j <= m <= j + THRESHOLD + 1
    ensures FirstSeen(stream, m) == FirstSeen(stream, j)
    decreases m - j
  {
    if j < m {
      RepeatsAddNothing(stream, j, m - 1);
      assert Repeated(stream, m - 1);
    }
  }

  /**
   ArrayGenerator::evaluate with `distinct`: the loop always ends.  It gives up exactly when more than THRESHOLD
   duplicates in a row come before the n-th distinct value, and returns the first n distinct values, in order,
   otherwise.
   */
  method Generate<T(==, !new)>(stream: nat -> T, n: nat) returns (r: Outcome<T>)
    ensures r.Values? ==> exists k: nat :: Finds(stream, n, k) && r.values == FirstSeen(stream, k)
    ensures r.GaveUp? <==> exists j: nat :: GetsStuck(stream, n, j)
  {
    var distinct: seq<T> := [];
    var repeats: nat := 0;
    var k: nat := 0;
    ghost var last: nat := 0;  // just after the latest new value
    while |distinct| < n
      invariant |distinct| <= n && k == last + repeats && repeats <= THRESHOLD
      invariant Collected(stream, distinct, k, last)
      decreases n - |distinct|, THRESHOLD - repeats
    {
      var x := stream(k);
      if x !in distinct {
        AddNew(stream, distinct, k, last);
        distinct := distinct + [x];
        repeats, last := 0, k + 1;
      } else {
        repeats := repeats + 1;
        assert repeats <= INT8_MAX;
        AddRepeat(stream, distinct, k, last);
        if repeats > THRESHOLD {
          assert GetsStuck(stream, n, last);
          return GaveUp;
        }
      }
      k := k + 1;
    }
    assert Finds(stream, n, k);
    forall j: nat
      ensures !GetsStuck(stream, n, j)
    {
      OutcomesExclude(stream, n, k, j);
    }
    return Values(distinct);
  }

  /** The loop's state after k values, the latest new one just before position `last`. */
  ghost predicate Collected<T(!new)>(stream: nat -> T, distinct: seq<T>, k: nat, last: nat) {
    && distinct == FirstSeen(stream, k) == FirstSeen(stream, last)
    && last <= k <= last + THRESHOLD && (last > 0 ==> !Repeated(stream, last - 1))
    && (forall i: nat :: last <= i < k ==> Repeated(stream, i))
    && NeverStuck(stream, k)
  }

  lemma AddNew<T(!new)>(stream: nat -> T, distinct: seq<T>, k: nat, last: nat)
    requires Collected(stream, distinct, k, last) && stream(k) !in distinct
    ensures Collected(stream, distinct + [stream(k)], k + 1, k + 1)
  {
    NotStuckAfterNew(stream, k, k + 1);
  }

  lemma AddRepeat<T(!new)>(stream: nat -> T, distinct: seq<T>, k: nat, last: nat)
    requires Collected(stream, distinct, k, last) && stream(k) in distinct
    ensures if k < last + THRESHOLD then Collected(stream, distinct, k + 1, last) else Stuck(stream, last)
  {
    assert Repeated(stream, k);
    if k < last + THRESHOLD {
      NotStuckAfterNew(stream, k, last);
    }
  }

  /** A window that reaches back to the latest new value is not stuck. */
  lemma NotStuckAfterNew<T(!new)>(stream: nat -> T, k: nat, last: nat)
    requires NeverStuck(stream, k) && last <= k + 1 <= last + THRESHOLD
    requires last > 0 ==> !Repeated(stream, last - 1)
    ensures NeverStuck(stream, k + 1)
  {
  }

  /** Both outcomes cannot be right: a stream that gets stuck before n values never yields them. */
  lemma OutcomesExclude<T(!new)>(stream: nat -> T, n: nat, k: nat, j: nat)
    ensures !(Finds(stream, n, k) && GetsStuck(stream, n, j))
  {
    if Finds(stream, n, k) && GetsStuck(stream, n, j) {
      if k <= j {
        FirstSeenGrows(stream, k, j);
      } else if k <= j + THRESHOLD + 1 {
        RepeatsAddNothing(stream, j, k);
      }
    }
  }

  /** Giving up takes 101 duplicates in a row, which still fits the counter's 8 bits. */
  lemma StuckMeans<T(!new)>(stream: nat -> T, k: nat)
    ensures Stuck(stream, k) <==> forall i: nat :: k <= i < k + 101 ==> Repeated(stream, i)
    ensures 101 <= INT8_MAX == 127
  {
  }
}
