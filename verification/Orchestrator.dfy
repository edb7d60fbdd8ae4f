/**
 The phase monitor shared by all actors: a token count, a phase counter, a two-valued phase state and an
 abort flag.  The value-level functions below are the lock-held sections of the monitor; the class runs
 them on fields.  A condition-variable wait splits a call into the section that enters the monitor and
 the section that re-tests the wait condition after a wake-up.
 */
module OrchestratorMonitor {

  datatype PhaseState = PhaseEnded | PhaseStarted

  /** One round of hook callbacks: all pre-phase-start hooks, or all post-phase-stop hooks. */
  datatype HookRound = StartHooks(phase: nat) | StopHooks(phase: nat)

  datatype Monitor = Monitor(
    requireTokens: int,
    currentTokens: int,
    max: nat,
    current: nat,
    errors: bool,
    state: PhaseState,
    hookLog: seq<HookRound>)

  /** Whether a caller returns from the section it ran or goes to sleep on the condition variable. */
  datatype Outcome = Returns | Sleeps

  function Fresh(): Monitor {
    Monitor(0, 0, 0, 0, false, PhaseEnded, [])
  }

  predicate MorePhases(m: Monitor) {
    m.current <= m.max && !m.errors
  }

  predicate StartFires(m: Monitor, addTokens: int) {
    m.currentTokens + addTokens >= m.requireTokens
  }

  function StartEnter(m: Monitor, addTokens: int): Monitor {
    var deposited := m.(currentTokens := m.currentTokens + addTokens);
    if StartFires(m, addTokens)
    then deposited.(hookLog := m.hookLog + [StartHooks(m.current)], state := PhaseStarted)
    else deposited
  }

  /** The condition of the wait loop in awaitPhaseStart. */
  predicate AwaitsStart(m: Monitor) {
    m.state != PhaseStarted && !m.errors
  }

  predicate EndFires(m: Monitor, removeTokens: int) {
    m.currentTokens - removeTokens <= 0
  }

  function EndEnter(m: Monitor, removeTokens: int): Monitor {
    var withdrawn := m.(currentTokens := m.currentTokens - removeTokens);
    if EndFires(m, removeTokens)
    then withdrawn.(hookLog := m.hookLog + [StopHooks(m.current)], current := m.current + 1, state := PhaseEnded)
    else withdrawn
  }

  /** The condition of the wait loop in awaitPhaseEnd. */
  predicate AwaitsEnd(m: Monitor) {
    m.state != PhaseEnded && !m.errors
  }

  function Aborted(m: Monitor): Monitor {
    m.(errors := true)
  }

  class Orchestrator {
    var requireTokens: int
    var currentTokens: int
    var max: nat
    var current: nat
    var errors: bool
    var state: PhaseState
    var hookLog: seq<HookRound>

    function View(): Monitor
      reads this
    {
      Monitor(requireTokens, currentTokens, max, current, errors, state, hookLog)
    }

    constructor ()
      ensures View() == Fresh()
    {
      requireTokens, currentTokens, max, current := 0, 0, 0, 0;
      errors, state, hookLog := false, PhaseEnded, [];
    }

    method AddRequiredTokens(tokens: int)
      modifies this
      ensures View() == old(View()).(requireTokens := old(requireTokens) + tokens)
    {
      requireTokens := requireTokens + tokens;
    }

    method PhasesAtLeastTo(minPhase: nat)
      modifies this
      ensures View() == old(View()).(max := if old(max) < minPhase then minPhase else old(max))
    {
      if max < minPhase { max := minPhase; }
    }

    /** The section of awaitPhaseStart up to its return or its first wait. */
    method AwaitPhaseStart(block: bool, addTokens: int) returns (phase: nat, outcome: Outcome)
      requires state == PhaseEnded || errors
      modifies this
      ensures View() == StartEnter(old(View()), addTokens)
      ensures phase == old(current)
      ensures outcome == Sleeps <==> block && !StartFires(old(View()), addTokens) && AwaitsStart(View())
    {
      currentTokens := currentTokens + addTokens;
      phase := current;
      outcome := Returns;
      if currentTokens >= requireTokens {
        hookLog := hookLog + [StartHooks(phase)];
        state := PhaseStarted;
      } else if block && state != PhaseStarted && !errors {
        outcome := Sleeps;
      }
    }

    /** One turn of the wait loop of awaitPhaseStart, after a wake-up. */
    method RetestStart() returns (outcome: Outcome)
      ensures outcome == Sleeps <==> AwaitsStart(View())
    {
      outcome := if state != PhaseStarted && !errors then Sleeps else Returns;
    }

    /** The section of awaitPhaseEnd up to its return or its first wait. */
    method AwaitPhaseEnd(block: bool, removeTokens: int) returns (more: bool, outcome: Outcome)
      requires state == PhaseStarted || errors
      modifies this
      ensures View() == EndEnter(old(View()), removeTokens)
      ensures more == MorePhases(View())
      ensures outcome == Sleeps <==> block && !EndFires(old(View()), removeTokens) && AwaitsEnd(View())
    {
      currentTokens := currentTokens - removeTokens;
      outcome := Returns;
      if currentTokens <= 0 {
        hookLog := hookLog + [StopHooks(current)];
        current := current + 1;
        state := PhaseEnded;
      } else if block && state != PhaseEnded && !errors {
        outcome := Sleeps;
      }
      more := current <= max && !errors;
    }

    /** One turn of the wait loop of awaitPhaseEnd, after a wake-up. */
    method RetestEnd() returns (more: bool, outcome: Outcome)
      ensures outcome == Sleeps <==> AwaitsEnd(View())
      ensures more == MorePhases(View())
    {
      outcome := if state != PhaseEnded && !errors then Sleeps else Returns;
      more := current <= max && !errors;
    }

    method Abort()
      modifies this
      ensures View() == Aborted(old(View()))
    {
      errors := true;
    }
  }
}
