/** The frequency map: strings with remaining counts, drawn one at a time until all counts are used up. */
module FrequencyMap {
  import opened Wrappers

  /** A bucket; the count is an unsigned 64-bit integer. */
  datatype Bucket = Bucket(name: string, count: nat)

  const WORD := 0x1_0000_0000_0000_0000

  /** Decrement with the wrap-around of the machine type. */
  function Decrement(count: nat): nat {
    if count == 0 then WORD - 1 else count - 1
  }

  function Copies(name: string, count: nat): (m: multiset<string>)
    ensures |m| == count
  {
    multiset{}[name := count]
  }

  /** All the strings still in the map, with multiplicity. */
  function Contents(list: seq<Bucket>): multiset<string> {
    if list == [] then multiset{}
    else Contents(list[..|list| - 1]) + Copies(list[|list| - 1].name, list[|list| - 1].count)
  }

  function TotalCount(list: seq<Bucket>): nat {
    if list == [] then 0 else TotalCount(list[..|list| - 1]) + list[|list| - 1].count
  }

  predicate Positive(list: seq<Bucket>) {
    forall i :: 0 <= i < |list| ==> list[i].count > 0
  }

  /** The list after taking from bucket i. */
  function Taken(list: seq<Bucket>, i: nat): seq<Bucket>
    requires i < |list|
  {
    var left := Decrement(list[i].count);
    if left == 0 then list[..i] + list[i + 1..] else list[i := list[i].(count := left)]
  }

  class Map {
    var list: seq<Bucket>

    constructor ()
      ensures list == []
    {
      list := [];
    }

    method PushBack(name: string, count: nat)
      modifies this
      ensures list == old(list) + [Bucket(name, count)]
    {
      list := list + [Bucket(name, count)];
    }

    /** An index past the end throws and changes nothing. */
    method Take(index: nat) returns (r: Option<string>)
      modifies this
      ensures r.None? <==> index >= |old(list)|
      ensures r.None? ==> list == old(list)
      ensures r.Some? ==> r.value == old(list)[index].name && list == Taken(old(list), index)
    {
      if index >= |list| {
        return None;
      }
      var bucket := list[index];
      var left := Decrement(bucket.count);
      list := list[index := bucket.(count := left)];
      if left == 0 {
        list := list[..index] + list[index + 1..];
      }
      return Some(bucket.name);
    }

    /** The sum of the counts, in the machine type. */
    method Total() returns (total: nat)
      ensures total == TotalCount(list) % WORD
    {
      total := 0;
      for i := 0 to |list|
        invariant total == TotalCount(list[..i]) % WORD
      {
        assert list[..i + 1][..i] == list[..i];
        total := (total + list[i].count) % WORD;
      }
      assert list[..|list|] == list;
    }

    /** evaluateWithRng: `choice` is what the random distribution over the bucket indices yields. */
    method Draw(choice: nat) returns (r: Option<string>)
      requires list != [] ==> choice < |list|
      modifies this
      ensures r == Drawn(old(list), choice).0 && list == Drawn(old(list), choice).1
    {
      if |list| == 1 {
        r := Take(0);
      } else {
        r := Take(choice);
      }
    }
  }

  /** One draw: the string drawn, if any, and what is left. */
  function Drawn(list: seq<Bucket>, choice: nat): (Option<string>, seq<Bucket>)
    requires list != [] ==> choice < |list|
  {
    if list == [] then (None, list) else (Some(list[choice].name), Taken(list, choice))
  }

  /** Choices in range: the random distribution yields a bucket index as long as there is a bucket. */
  predicate Legal(list: seq<Bucket>, choices: seq<nat>)
    decreases |choices|
  {
    choices == []
    || ((list != [] ==> choices[0] < |list|) && Legal(Drawn(list, choices[0]).1, choices[1..]))
  }

  /** What each draw of a run yields; the lock makes draws of all threads on a shared map one sequence. */
  function Outcomes(list: seq<Bucket>, choices: seq<nat>): (outcomes: seq<Option<string>>)
    requires Legal(list, choices)
    ensures |outcomes| == |choices|
    decreases |choices|
  {
    if choices == [] then []
    else
      var (drawn, left) := Drawn(list, choices[0]);
      [drawn] + Outcomes(left, choices[1..])
  }

  /** What is left after a run. */
  function Left(list: seq<Bucket>, choices: seq<nat>): seq<Bucket>
    requires Legal(list, choices)
    decreases |choices|
  {
    if choices == [] then list else Left(Drawn(list, choices[0]).1, choices[1..])
  }

  function Single(outcome: Option<string>): multiset<string> {
    if outcome.Some? then multiset{outcome.value} else multiset{}
  }

  /** The strings handed out, with multiplicity. */
  function Drawings(outcomes: seq<Option<string>>): multiset<string> {
    if outcomes == [] then multiset{}
    else Single(outcomes[0]) + Drawings(outcomes[1..])
  }

  lemma {:induction false} ContentsConcat(a: seq<Bucket>, b: seq<Bucket>)
    ensures Contents(a + b) == Contents(a) + Contents(b)
    ensures TotalCount(a + b) == TotalCount(a) + TotalCount(b)
  {
    if b == [] {
      assert a + b == a;
    } else {
      var front, last := b[..|b| - 1], b[|b| - 1];
      ContentsConcat(a, front);
      assert (a + b)[..|a + b| - 1] == a + front;
      Regroup(Contents(a), Contents(front), Copies(last.name, last.count));
    }
  }

  lemma ContentsOne(x: Bucket)
    ensures Contents([x]) == Copies(x.name, x.count) && TotalCount([x]) == x.count
  {
    assert [x][..0] == [];
  }

  lemma ContentsAround(a: seq<Bucket>, x: Bucket, b: seq<Bucket>)
    ensures Contents(a + ([x] + b)) == Copies(x.name, x.count) + Contents(a + b)
    ensures TotalCount(a + ([x] + b)) == TotalCount(a + b) + x.count
  {
    ContentsConcat(a, [x] + b);
    ContentsConcat([x], b);
    ContentsConcat(a, b);
    ContentsOne(x);
  }

  lemma TakenAround(a: seq<Bucket>, x: Bucket, b: seq<Bucket>)
    requires x.count > 0
    ensures Taken(a + ([x] + b), |a|)
            == if x.count == 1 then a + b else a + ([x.(count := x.count - 1)] + b)
  {
    var list := a + ([x] + b);
    assert list[..|a|] == a && list[|a| + 1..] == b && list[|a|] == x;
  }

  lemma OneCopyLess(name: string, count: nat)
    requires count > 0
    ensures Copies(name, count) == multiset{name} + Copies(name, count - 1)
    ensures Copies(name, 0) == multiset{}
  {
  }

  lemma Regroup(a: multiset<string>, b: multiset<string>, c: multiset<string>)
    ensures (a + b) + c == a + (b + c)
  {
  }

  lemma TakenPositive(list: seq<Bucket>, i: nat)
    requires i < |list| && Positive(list)
    ensures Positive(Taken(list, i))
  {
  }

  lemma ContentsWithout(a: seq<Bucket>, x: Bucket, b: seq<Bucket>, left: seq<Bucket>)
    requires x.count > 0
    requires left == if x.count == 1 then a + b else a + ([x.(count := x.count - 1)] + b)
    ensures Contents(left) == Copies(x.name, x.count - 1) + Contents(a + b)
    ensures TotalCount(left) == x.count - 1 + TotalCount(a + b)
  {
    OneCopyLess(x.name, x.count);
    if x.count > 1 {
      ContentsAround(a, x.(count := x.count - 1), b);
    }
  }

  lemma SplitAt(list: seq<Bucket>, i: nat)
    requires i < |list|
    ensures list == list[..i] + ([list[i]] + list[i + 1..])
  {
  }

  lemma TakeAround(a: seq<Bucket>, x: Bucket, b: seq<Bucket>, list: seq<Bucket>, left: seq<Bucket>)
    requires x.count > 0 && list == a + ([x] + b) && left == Taken(list, |a|)
    ensures multiset{x.name} + Contents(left) == Contents(list)
    ensures TotalCount(left) == TotalCount(list) - 1
  {
    TakenAround(a, x, b);
    ContentsAround(a, x, b);
    ContentsWithout(a, x, b, left);
    OneCopyLess(x.name, x.count);
    Regroup(multiset{x.name}, Copies(x.name, x.count - 1), Contents(a + b));
  }

  /** Taking from a bucket with a positive count takes exactly one copy of its string out. */
  lemma TakeConserves(list: seq<Bucket>, i: nat)
    requires i < |list| && list[i].count > 0
    ensures multiset{list[i].name} + Contents(Taken(list, i)) == Contents(list)
    ensures TotalCount(Taken(list, i)) == TotalCount(list) - 1
  {
    SplitAt(list, i);
    TakeAround(list[..i], list[i], list[i + 1..], list, Taken(list, i));
  }

  lemma {:induction false} NoneLeft(list: seq<Bucket>)
    requires Positive(list)
    ensures TotalCount(list) == 0 <==> list == []
  {
    if list != [] {
      NoneLeft(list[..|list| - 1]);
    }
  }

  lemma DrawingsCons(first: Option<string>, rest: seq<Option<string>>)
    ensures Drawings([first] + rest) == Single(first) + Drawings(rest)
  {
    assert ([first] + rest)[1..] == rest;
  }

  /** One draw succeeds exactly when something is left, and then leaves one less. */
  lemma DrawCounts(list: seq<Bucket>, choice: nat)
    requires Positive(list) && (list != [] ==> choice < |list|)
    ensures Positive(Drawn(list, choice).1)
    ensures Drawn(list, choice).0.Some? <==> TotalCount(list) > 0
    ensures TotalCount(Drawn(list, choice).1) == if TotalCount(list) > 0 then TotalCount(list) - 1 else 0
  {
    NoneLeft(list);
    if list != [] {
      TakeConserves(list, choice);
      TakenPositive(list, choice);
    }
  }

  lemma DrawConserves(list: seq<Bucket>, choice: nat)
    requires Positive(list) && (list != [] ==> choice < |list|)
    ensures Single(Drawn(list, choice).0) + Contents(Drawn(list, choice).1) == Contents(list)
  {
    if list != [] {
      TakeConserves(list, choice);
    }
  }

  /** With positive counts and any choices: the strings drawn and those left are always the initial multiset. */
  lemma {:induction false} DrawsConserve(list: seq<Bucket>, choices: seq<nat>)
    requires Positive(list) && Legal(list, choices)
    ensures Drawings(Outcomes(list, choices)) + Contents(Left(list, choices)) == Contents(list)
    decreases |choices|
  {
    if choices != [] {
      var (drawn, left) := Drawn(list, choices[0]);
      DrawConserves(list, choices[0]);
      DrawCounts(list, choices[0]);
      DrawsConserve(left, choices[1..]);
      var later := Outcomes(left, choices[1..]);
      DrawingsCons(drawn, later);
      Regroup(Single(drawn), Drawings(later), Contents(Left(left, choices[1..])));
    }
  }

  /** Exactly the first TotalCount draws succeed, and every later one throws. */
  lemma {:induction false} DrawsSucceedExactly(list: seq<Bucket>, choices: seq<nat>, k: nat)
    requires Positive(list) && Legal(list, choices) && k < |choices|
    ensures Outcomes(list, choices)[k].Some? <==> k < TotalCount(list)
    decreases |choices|
  {
    DrawCounts(list, choices[0]);
    if k > 0 {
      DrawsSucceedExactly(Drawn(list, choices[0]).1, choices[1..], k - 1);
    }
  }

  /** Once all draws that can succeed have been made, the strings drawn are exactly the initial multiset. */
  lemma AllDrawn(list: seq<Bucket>, choices: seq<nat>)
    requires Positive(list) && Legal(list, choices) && |choices| >= TotalCount(list)
    ensures Left(list, choices) == []
    ensures Drawings(Outcomes(list, choices)) == Contents(list)
  {
    LeftCount(list, choices);
    NoneLeft(Left(list, choices));
    DrawsConserve(list, choices);
  }

  lemma {:induction false} LeftCount(list: seq<Bucket>, choices: seq<nat>)
    requires Positive(list) && Legal(list, choices)
    ensures Positive(Left(list, choices))
    ensures TotalCount(Left(list, choices))
            == if |choices| < TotalCount(list) then TotalCount(list) - |choices| else 0
    decreases |choices|
  {
    if choices != [] {
      DrawCounts(list, choices[0]);
      LeftCount(Drawn(list, choices[0]).1, choices[1..]);
    }
  }

  lemma {:induction false} ContentsSize(list: seq<Bucket>)
    ensures |Contents(list)| == TotalCount(list)
  {
    if list != [] {
      ContentsSize(list[..|list| - 1]);
    }
  }

  lemma WrapAround(a: seq<Bucket>, x: Bucket, b: seq<Bucket>, list: seq<Bucket>, left: seq<Bucket>)
    requires x.count == 0 && list == a + ([x] + b) && left == Taken(list, |a|)
    ensures TotalCount(left) == TotalCount(list) + WORD - 1
  {
    var y := x.(count := WORD - 1);
    assert left == a + ([y] + b);
    ContentsAround(a, x, b);
    ContentsAround(a, y, b);
  }

  /** The condition on the counts is exact: a bucket with count zero wraps around instead of running out. */
  lemma ConservesExactly(list: seq<Bucket>, i: nat)
    requires i < |list|
    ensures multiset{list[i].name} + Contents(Taken(list, i)) == Contents(list) <==> list[i].count > 0
  {
    if list[i].count > 0 {
      TakeConserves(list, i);
    } else {
      SplitAt(list, i);
      WrapAround(list[..i], list[i], list[i + 1..], list, Taken(list, i));
      ContentsSize(list);
      ContentsSize(Taken(list, i));
    }
  }

  ghost predicate Conserved(list: seq<Bucket>, choices: seq<nat>) {
    Legal(list, choices) ==> Drawings(Outcomes(list, choices)) + Contents(Left(list, choices)) == Contents(list)
  }

  lemma OneDraw(list: seq<Bucket>, i: nat)
    requires i < |list|
    ensures Legal(list, [i]) && Outcomes(list, [i]) == [Some(list[i].name)] && Left(list, [i]) == Taken(list, i)
    ensures Drawings([Some(list[i].name)]) == multiset{list[i].name}
  {
    assert [i][1..] == [];
    assert [Some(list[i].name)][1..] == [];
  }

  /** Every run of draws conserves the strings if and only if all counts are positive to begin with. */
  lemma RunsConserveExactly(list: seq<Bucket>)
    ensures (forall choices :: Conserved(list, choices)) <==> Positive(list)
  {
    if Positive(list) {
      forall choices
        ensures Conserved(list, choices)
      {
        if Legal(list, choices) {
          DrawsConserve(list, choices);
        }
      }
    } else {
      var i :| 0 <= i < |list| && list[i].count == 0;
      OneDraw(list, i);
      ConservesExactly(list, i);
      assert !Conserved(list, [i]);
    }
  }

  lemma {:induction false} ContentsFound(list: seq<Bucket>, name: string) returns (i: nat)
    requires name in Contents(list)
    ensures i < |list| && list[i].name == name && list[i].count > 0
  {
    var last := |list| - 1;
    if list[last].name == name && list[last].count > 0 {
      i := last;
    } else {
      i := ContentsFound(list[..last], name);
    }
  }

  /** No string is out of reach: the next draw can yield every string that is left, and yields only such strings. */
  lemma EveryStringCanBeDrawn(list: seq<Bucket>, name: string)
    requires Positive(list)
    ensures name in Contents(list) <==> exists choice :: 0 <= choice < |list| && Drawn(list, choice).0 == Some(name)
  {
    if name in Contents(list) {
      var i := ContentsFound(list, name);
      assert Drawn(list, i).0 == Some(name);
    }
    if choice :| 0 <= choice < |list| && Drawn(list, choice).0 == Some(name) {
      DrawConserves(list, choice);
      assert name in Single(Drawn(list, choice).0);
    }
  }

  /** What becomes of a bucket with count zero: it is as good as inexhaustible. */
  lemma ZeroCountWraps(name: string)
    ensures Taken([Bucket(name, 0)], 0) == [Bucket(name, 0xFFFF_FFFF_FFFF_FFFF)]
  {
  }
}
