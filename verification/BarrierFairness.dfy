/** Termination: every fair run of the phase barrier whose blocking bodies end finishes all actors. */
module BarrierFairness {
  import opened OrchestratorMonitor
  import opened Barrier
  import opened BarrierInvariant
  import opened BarrierTheorems
  import opened BarrierProgress

  /** An infinite run, by its states and its steps; once all actors have finished nothing more happens. */
  datatype Run = Run(at: nat -> State, step: nat -> Step)

  ghost predicate Follows(w: Workload, r: Run, i: nat) {
    if AllFinished(r.at(i)) then r.at(i + 1) == r.at(i)
    else
      && Enabled(w, r.at(i), r.step(i).actor, r.step(i).event)
      && r.at(i + 1) == Apply(w, r.at(i), r.step(i).actor, r.step(i).event)
  }

  ghost predicate Proper(w: Workload, r: Run) {
    r.at(0) == Init(w) && forall i: nat :: Follows(w, r, i)
  }

  ghost predicate LiveAt(w: Workload, r: Run, i: nat, a: nat) {
    a < |r.at(i).actors| && Live(r.at(i).actors[a].pc)
  }

  ghost predicate MovesFrom(r: Run, i: nat, a: nat) {
    exists j: nat :: i <= j && r.step(j).actor == a
  }

  /** The operating system lets every thread that is neither asleep nor finished run again. */
  ghost predicate Fair(w: Workload, r: Run) {
    forall i: nat, a: nat :: LiveAt(w, r, i, a) ==> MovesFrom(r, i, a)
  }

  predicate Iterates(w: Workload, a: nat, pc: Pc) {
    InLoop(pc) && Blocks(w, a, pc.phase)
  }

  /** Actor a iterates in a phase that it blocks. */
  ghost predicate IteratesAt(w: Workload, r: Run, i: nat, a: nat) {
    a < |r.at(i).actors| && Iterates(w, a, r.at(i).actors[a].pc)
  }

  ghost predicate StopsIterating(w: Workload, r: Run, i: nat, a: nat) {
    exists j: nat :: i <= j && !IteratesAt(w, r, j, a)
  }

  /** No actor iterates forever in a phase that it blocks. */
  ghost predicate BodiesEnd(w: Workload, r: Run) {
    forall i: nat, a: nat :: IteratesAt(w, r, i, a) ==> StopsIterating(w, r, i, a)
  }

  ghost predicate Assumed(w: Workload, r: Run) {
    Proper(w, r) && Fair(w, r) && BodiesEnd(w, r)
  }

  ghost predicate Ends(w: Workload, r: Run) {
    exists n: nat :: AllFinished(r.at(n))
  }

  lemma {:induction false} AlwaysInv(w: Workload, r: Run, i: nat)
    requires Proper(w, r)
    ensures Inv(w, r.at(i))
  {
    if i == 0 {
      InitInv(w);
    } else {
      AlwaysInv(w, r, i - 1);
      assert Follows(w, r, i - 1);
      if !AllFinished(r.at(i - 1)) {
        StepKeepsInv(w, r.at(i - 1), r.step(i - 1).actor, r.step(i - 1).event);
      }
    }
  }

  // One step

  /** Before an abort: waiting for everybody to come, or for the token holders to leave. */
  function Slow(m: Monitor): Stage {
    if m.state == PhaseEnded then Gathering else Closing
  }

  /** An actor whose own next step brings the stage on. */
  predicate Helpful(w: Workload, m: Monitor, a: nat, pc: Pc) {
    Live(pc) && Distance(w, Slow(m), a, pc) > 0 && !(m.state == PhaseStarted && InLoop(pc))
  }

  /** Only the moved actor has moved, and the stage is what it was. */
  predicate Local(s: State, a: nat, s': State)
    requires a < |s.actors|
  {
    && s'.m.state == s.m.state && s'.m.current == s.m.current && s'.m.max == s.m.max && !s'.m.errors
    && |s'.actors| == |s.actors| && s'.actors == s.actors[a := s'.actors[a]]
  }

  /** Every step before an abort aborts, leaves, crosses a boundary, or stays local and does not lose ground. */
  lemma StepHoldsGround(w: Workload, s: State, a: nat, e: Event)
    requires !s.m.errors && Enabled(w, s, a, e) && ActorOk(w, s.m, s.failed, a, s.actors[a])
    ensures var s' := Apply(w, s, a, e);
            || s'.m.errors
            || (!s'.m.errors && Exiter(s', a))
            || (!s'.m.errors && BoundariesLeft(s'.m) < BoundariesLeft(s.m))
            || (Local(s, a, s') &&
                var d, d' := Distance(w, Slow(s.m), a, s.actors[a].pc), Distance(w, Slow(s.m), a, s'.actors[a].pc);
                d' <= d && (Helpful(w, s.m, a, s.actors[a].pc) ==> d' < d))
  {
  }

  lemma FairMove(w: Workload, r: Run, i: nat, a: nat) returns (j: nat)
    requires Fair(w, r) && LiveAt(w, r, i, a)
    ensures i <= j && r.step(j).actor == a
  {
    assert MovesFrom(r, i, a);
    j :| i <= j && r.step(j).actor == a;
  }

  /** Before an abort nobody has finished, so the schedule goes on. */
  lemma GoesOn(w: Workload, r: Run, i: nat)
    requires Proper(w, r) && |w.phaseMaps| > 0 && !r.at(i).m.errors
    ensures Inv(w, r.at(i)) && |r.at(i).actors| == |w.phaseMaps|
    ensures Enabled(w, r.at(i), r.step(i).actor, r.step(i).event)
    ensures r.at(i + 1) == Apply(w, r.at(i), r.step(i).actor, r.step(i).event)
  {
    AlwaysInv(w, r, i);
    var s := r.at(i);
    assert ActorOk(w, s.m, s.failed, 0, s.actors[0]);
    assert !AllFinished(s);
    assert Follows(w, r, i);
  }

  // After an abort

  lemma {:induction false} EndsAborted(w: Workload, r: Run, i: nat)
    requires Proper(w, r) && r.at(i).m.errors
    ensures Ends(w, r)
    decreases TotalDistance(w, Draining, r.at(i).actors)
  {
    var s := r.at(i);
    AlwaysInv(w, r, i);
    assert Follows(w, r, i);
    if !AllFinished(s) {
      DrainStep(w, s, r.step(i).actor, r.step(i).event);
      EndsAborted(w, r, i + 1);
    }
  }

  lemma ExiterStays(w: Workload, s: State, a: nat, e: Event, b: nat)
    requires !s.m.errors && Enabled(w, s, a, e) && Exiter(s, b)
    ensures if a == b then Apply(w, s, a, e).m.errors else Exiter(Apply(w, s, a, e), b)
  {
    if a != b {
      OthersOnlyNotified(w, s, a, e, b);
    }
  }

  lemma ExitGoesOn(w: Workload, r: Run, i: nat, b: nat)
    requires Proper(w, r) && |w.phaseMaps| > 0 && !r.at(i).m.errors && Exiter(r.at(i), b)
    ensures if r.step(i).actor == b then r.at(i + 1).m.errors else Exiter(r.at(i + 1), b)
  {
    GoesOn(w, r, i);
    ExiterStays(w, r.at(i), r.step(i).actor, r.step(i).event, b);
  }

  /** An actor on its way out gets to its abort, unless another one is first. */
  lemma {:induction false} EndsByExit(w: Workload, r: Run, i: nat, b: nat, j: nat)
    requires Proper(w, r) && |w.phaseMaps| > 0 && !r.at(i).m.errors
    requires Exiter(r.at(i), b) && i <= j && r.step(j).actor == b
    ensures Ends(w, r)
    decreases j - i
  {
    ExitGoesOn(w, r, i, b);
    if r.at(i + 1).m.errors {
      EndsAborted(w, r, i + 1);
    } else {
      EndsByExit(w, r, i + 1, b, j);
    }
  }

  // Before an abort

  ghost predicate SomeExiter(s: State) {
    exists b :: Exiter(s, b)
  }

  ghost function Ground(w: Workload, s: State): nat {
    TotalDistance(w, Slow(s.m), s.actors)
  }

  /** A run before an abort has come on: aborted, somebody leaving, a boundary crossed, or ground gained. */
  ghost predicate CameOn(w: Workload, s: State, s': State) {
    || s'.m.errors
    || SomeExiter(s')
    || BoundariesLeft(s'.m) < BoundariesLeft(s.m)
    || (BoundariesLeft(s'.m) == BoundariesLeft(s.m) && Ground(w, s') < Ground(w, s))
  }

  /** The moved actor was not helpful and has gained nothing; nobody else has moved. */
  ghost predicate StoodStill(w: Workload, s: State, a: nat, s': State) {
    && a < |s.actors| && Local(s, a, s') && Ground(w, s') == Ground(w, s) && !Helpful(w, s.m, a, s.actors[a].pc)
    && Distance(w, Slow(s.m), a, s'.actors[a].pc) == Distance(w, Slow(s.m), a, s.actors[a].pc)
  }

  lemma StepGains(w: Workload, s: State, a: nat, e: Event)
    requires Inv(w, s) && !s.m.errors && Enabled(w, s, a, e)
    ensures CameOn(w, s, Apply(w, s, a, e)) || StoodStill(w, s, a, Apply(w, s, a, e))
  {
    assert ActorOk(w, s.m, s.failed, a, s.actors[a]);
    StepHoldsGround(w, s, a, e);
    var s' := Apply(w, s, a, e);
    assert |s'.actors| == |s.actors|;
    TotalUpdate(w, Slow(s.m), s.actors, a, s'.actors[a]);
    assert Exiter(s', a) ==> SomeExiter(s');
  }

  lemma GainsAt(w: Workload, r: Run, i: nat)
    requires Proper(w, r) && |w.phaseMaps| > 0 && !r.at(i).m.errors
    ensures || CameOn(w, r.at(i), r.at(i + 1))
            || StoodStill(w, r.at(i), r.step(i).actor, r.at(i + 1))
  {
    GoesOn(w, r, i);
    StepGains(w, r.at(i), r.step(i).actor, r.step(i).event);
  }

  lemma StillHelpful(w: Workload, s: State, b: nat, s': State, a: nat)
    ensures StoodStill(w, s, b, s') && a < |s.actors| && Helpful(w, s.m, a, s.actors[a].pc) ==>
              b != a && a < |s'.actors| && !s'.m.errors && Helpful(w, s'.m, a, s'.actors[a].pc)
  {
  }

  lemma StillIterates(w: Workload, s: State, b: nat, s': State, a: nat)
    ensures StoodStill(w, s, b, s') && a < |s.actors| && s.m.state == PhaseStarted && Iterates(w, a, s.actors[a].pc) ==>
              a < |s'.actors| && !s'.m.errors && s'.m.state == PhaseStarted && Iterates(w, a, s'.actors[a].pc)
  {
  }

  lemma GainFromNext(w: Workload, s: State, a: nat, s': State, t: State)
    ensures StoodStill(w, s, a, s') && CameOn(w, s', t) ==> CameOn(w, s, t)
  {
  }

  /** A helpful actor stays helpful until it moves, so its next move at the latest brings the run on. */
  lemma {:induction false} GainByMove(w: Workload, r: Run, i: nat, a: nat, j: nat) returns (n: nat)
    requires Proper(w, r) && |w.phaseMaps| > 0 && !r.at(i).m.errors
    requires a < |r.at(i).actors| && Helpful(w, r.at(i).m, a, r.at(i).actors[a].pc)
    requires i <= j && r.step(j).actor == a
    ensures CameOn(w, r.at(i), r.at(n))
    decreases j - i
  {
    var s, s' := r.at(i), r.at(i + 1);
    GainsAt(w, r, i);
    if CameOn(w, s, s') {
      return i + 1;
    }
    StillHelpful(w, s, r.step(i).actor, s', a);
    n := GainByMove(w, r, i + 1, a, j);
    GainFromNext(w, s, r.step(i).actor, s', r.at(n));
  }

  /** An actor that holds the phase open by iterating keeps doing so until the run comes on. */
  lemma {:induction false} GainByLeaving(w: Workload, r: Run, i: nat, a: nat, j: nat) returns (n: nat)
    requires Proper(w, r) && |w.phaseMaps| > 0 && !r.at(i).m.errors
    requires r.at(i).m.state == PhaseStarted && IteratesAt(w, r, i, a)
    requires i <= j && !IteratesAt(w, r, j, a)
    ensures CameOn(w, r.at(i), r.at(n))
    decreases j - i
  {
    var s, s' := r.at(i), r.at(i + 1);
    GainsAt(w, r, i);
    if CameOn(w, s, s') {
      return i + 1;
    }
    StillIterates(w, s, r.step(i).actor, s', a);
    n := GainByLeaving(w, r, i + 1, a, j);
    GainFromNext(w, s, r.step(i).actor, s', r.at(n));
  }

  /** Somebody's next move, or the end of somebody's iterations, brings the run on. */
  lemma NextGain(w: Workload, r: Run, i: nat) returns (n: nat)
    requires Assumed(w, r) && |w.phaseMaps| > 0
    requires !r.at(i).m.errors && !SomeExiter(r.at(i))
    ensures CameOn(w, r.at(i), r.at(n))
  {
    GoesOn(w, r, i);
    var s := r.at(i);
    var a: nat;
    if s.m.state == PhaseStarted {
      a := HolderIsLive(w, s);
    } else {
      a := StragglerIsLive(w, s);
    }
    assert ActorOk(w, s.m, s.failed, a, s.actors[a]) && !Exiter(s, a);
    if s.m.state == PhaseStarted && InLoop(s.actors[a].pc) {
      assert IteratesAt(w, r, i, a) && StopsIterating(w, r, i, a);
      var j: nat :| i <= j && !IteratesAt(w, r, j, a);
      n := GainByLeaving(w, r, i, a, j);
    } else {
      var j := FairMove(w, r, i, a);
      n := GainByMove(w, r, i, a, j);
    }
  }

  lemma {:induction false} EndsRunning(w: Workload, r: Run, i: nat)
    requires Assumed(w, r) && |w.phaseMaps| > 0
    requires !r.at(i).m.errors && !SomeExiter(r.at(i))
    ensures Ends(w, r)
    decreases BoundariesLeft(r.at(i).m), Ground(w, r.at(i))
  {
    var j := NextGain(w, r, i);
    var t := r.at(j);
    AlwaysInv(w, r, i);
    AlwaysInv(w, r, j);
    if t.m.errors {
      EndsAborted(w, r, j);
    } else if b :| Exiter(t, b) {
      var n := FairMove(w, r, j, b);
      EndsByExit(w, r, j, b, n);
    } else {
      EndsRunning(w, r, j);
    }
  }

  // Failures

  /** Without exceptions and with every phase configured, nobody fails. */
  lemma StepDoesNotFail(w: Workload, s: State, a: nat, e: Event)
    requires Inv(w, s) && !s.failed && AllConfigured(w) && Enabled(w, s, a, e) && !e.Throw?
    ensures !Apply(w, s, a, e).failed
  {
    assert ActorOk(w, s.m, s.failed, a, s.actors[a]);
  }

  lemma {:induction false} NeverFails(w: Workload, r: Run, i: nat)
    requires Proper(w, r) && AllConfigured(w) && forall k: nat :: !r.step(k).event.Throw?
    ensures !r.at(i).failed
  {
    if i > 0 {
      NeverFails(w, r, i - 1);
      AlwaysInv(w, r, i - 1);
      assert Follows(w, r, i - 1);
      if !AllFinished(r.at(i - 1)) {
        StepDoesNotFail(w, r.at(i - 1), r.step(i - 1).actor, r.step(i - 1).event);
      }
    }
  }

  /**
   Every fair run in which no actor iterates forever in a phase it blocks finishes all actors, whatever
   spurious wake-ups and exceptions occur; and without exceptions and with every phase configured, every actor
   has then entered every phase in order.
   */
  lemma FairRunsEnd(w: Workload, r: Run) returns (n: nat)
    requires Proper(w, r) && Fair(w, r) && BodiesEnd(w, r)
    ensures AllFinished(r.at(n))
    ensures AllConfigured(w) && (forall k: nat :: !r.step(k).event.Throw?) ==>
              forall a :: 0 <= a < |r.at(n).actors| ==> r.at(n).actors[a].entered == Upto(w.max + 1)
  {
    AlwaysInv(w, r, 0);
    if |w.phaseMaps| > 0 {
      EndsRunning(w, r, 0);
    } else {
      assert AllFinished(r.at(0));
    }
    n :| AllFinished(r.at(n));
    AlwaysInv(w, r, n);
    if AllConfigured(w) && forall k: nat :: !r.step(k).event.Throw? {
      NeverFails(w, r, n);
      var t := r.at(n);
      forall a | 0 <= a < |t.actors|
        ensures t.actors[a].entered == Upto(w.max + 1)
      {
        assert ActorOk(w, t.m, t.failed, a, t.actors[a]);
      }
    }
  }
}
