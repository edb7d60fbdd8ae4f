/** The once-only dataset cache: threads asking for files, one loader per file, waiters on a condition variable. */
module DatasetCache {

  datatype Dataset = Dataset(done: bool, data: seq<string>)

  datatype Pc =
    | Enter                         // about to take the lock
    | Waiting(asleep: bool)         // in the predicate wait
    | Loading                       // won the race: running the loader, then about to set the done flag
    | Notifying                     // done flag set, about to notify all waiters
    | Returned(data: seq<string>)   // with the data as they were on return

  datatype Thread = Thread(path: string, pc: Pc)

  /** `owner` records who won the race for a path, `loads` how often a path's loader was started. */
  datatype State = State(datasets: map<string, Dataset>, threads: seq<Thread>, owner: map<string, nat>, loads: map<string, nat>)

  datatype Event = Acquire | LoadLine | SetDone | NotifyAll | Wake | Spurious

  /** `files` gives the complete content the loader of each path produces. */
  type Files = string -> seq<string>

  function Init(paths: seq<string>): State {
    State(map[], seq(|paths|, i requires 0 <= i < |paths| => Thread(paths[i], Enter)), map[], map[])
  }

  predicate Enabled(files: Files, s: State, t: nat, e: Event) {
    t < |s.threads| &&
    var path, pc := s.threads[t].path, s.threads[t].pc;
    match e
    case Acquire => pc.Enter?
    case LoadLine => pc.Loading? && path in s.datasets && |s.datasets[path].data| < |files(path)|
    case SetDone => pc.Loading? && path in s.datasets && |s.datasets[path].data| >= |files(path)|
    case NotifyAll => pc.Notifying? && path in s.datasets
    case Wake => pc.Waiting? && !pc.asleep && path in s.datasets
    case Spurious => pc.Waiting? && pc.asleep
  }

  function Awake(x: Thread): Thread {
    if x.pc.Waiting? then x.(pc := Waiting(false)) else x
  }

  function AwakeAll(ts: seq<Thread>): (r: seq<Thread>)
    ensures |r| == |ts| && forall i :: 0 <= i < |ts| ==> r[i] == Awake(ts[i])
  {
    seq(|ts|, i requires 0 <= i < |ts| => Awake(ts[i]))
  }

  function Move(s: State, t: nat, pc: Pc): State
    requires t < |s.threads|
  {
    s.(threads := s.threads[t := s.threads[t].(pc := pc)])
  }

  function Count(m: map<string, nat>, path: string): nat {
    if path in m then m[path] else 0
  }

  function Apply(files: Files, s: State, t: nat, e: Event): State
    requires Enabled(files, s, t, e)
  {
    var path := s.threads[t].path;
    match e
    case Acquire =>
      if path !in s.datasets then
        Move(s, t, Loading).(datasets := s.datasets[path := Dataset(false, [])],
                             owner := s.owner[path := t],
                             loads := s.loads[path := Count(s.loads, path) + 1])
      else if s.datasets[path].done then Move(s, t, Returned(s.datasets[path].data))
      else Move(s, t, Waiting(true))
    case LoadLine =>
      var d := s.datasets[path];
      s.(datasets := s.datasets[path := d.(data := d.data + [files(path)[|d.data|]])])
    case SetDone => Move(s, t, Notifying).(datasets := s.datasets[path := s.datasets[path].(done := true)])
    case NotifyAll =>
      s.(threads := AwakeAll(s.threads)[t := s.threads[t].(pc := Returned(s.datasets[path].data))])
    case Wake => Move(s, t, if s.datasets[path].done then Returned(s.datasets[path].data) else Waiting(true))
    case Spurious => Move(s, t, Waiting(false))
  }

  datatype Step = Step(thread: nat, event: Event)

  ghost predicate Admissible(files: Files, s: State, steps: seq<Step>)
    decreases |steps|
  {
    steps == [] ||
    (Enabled(files, s, steps[0].thread, steps[0].event) &&
     Admissible(files, Apply(files, s, steps[0].thread, steps[0].event), steps[1..]))
  }

  ghost function After(files: Files, s: State, steps: seq<Step>): State
    requires Admissible(files, s, steps)
    decreases |steps|
  {
    if steps == [] then s else After(files, Apply(files, s, steps[0].thread, steps[0].event), steps[1..])
  }

  // The invariant

  /** A known path: loaded by its owner, partly until done, completely from then on. */
  predicate PathOk(files: Files, s: State, path: string)
    requires path in s.datasets
  {
    && path in s.owner && s.owner[path] < |s.threads| && Count(s.loads, path) == 1
    && s.datasets[path].data <= files(path)
    && var winner := s.threads[s.owner[path]];
       winner.path == path &&
       if s.datasets[path].done then s.datasets[path].data == files(path) && !winner.pc.Loading? else winner.pc.Loading?
  }

  predicate ThreadOk(files: Files, s: State, t: nat)
    requires t < |s.threads|
  {
    var path, pc := s.threads[t].path, s.threads[t].pc;
    match pc
    case Enter => true
    case Waiting(asleep) =>
      && path in s.datasets && path in s.owner && s.owner[path] < |s.threads| && s.owner[path] != t
      && (asleep && s.datasets[path].done ==> s.threads[s.owner[path]].pc.Notifying?)
    case Loading => path in s.datasets && path in s.owner && s.owner[path] == t && !s.datasets[path].done
    case Notifying => path in s.datasets && path in s.owner && s.owner[path] == t && s.datasets[path].done
    case Returned(data) => path in s.datasets && s.datasets[path].done && data == files(path)
  }

  ghost predicate Inv(files: Files, s: State) {
    && (forall path :: path in s.datasets ==> PathOk(files, s, path))
    && (forall path :: path in s.loads ==> path in s.datasets)
    && (forall t :: 0 <= t < |s.threads| ==> ThreadOk(files, s, t))
  }

  /** A step keeps what is known about a path the moving thread is not concerned with, and about its own. */
  lemma PathKept(files: Files, s: State, t: nat, e: Event, p: string)
    requires Enabled(files, s, t, e) && ThreadOk(files, s, t) && p in Apply(files, s, t, e).datasets
    requires p in s.datasets ==> PathOk(files, s, p)
    requires p !in s.datasets ==> p !in s.loads
    ensures PathOk(files, Apply(files, s, t, e), p)
  {
  }

  lemma ThreadKept(files: Files, s: State, t: nat, e: Event, i: nat)
    requires Enabled(files, s, t, e) && ThreadOk(files, s, t) && i < |s.threads| && ThreadOk(files, s, i)
    requires s.threads[t].path in s.datasets ==> PathOk(files, s, s.threads[t].path)
    requires s.threads[i].path in s.datasets ==> PathOk(files, s, s.threads[i].path)
    ensures |Apply(files, s, t, e).threads| == |s.threads| && ThreadOk(files, Apply(files, s, t, e), i)
  {
    if i == t {
      MoverKept(files, s, t, e);
    }
  }

  lemma MoverKept(files: Files, s: State, t: nat, e: Event)
    requires Enabled(files, s, t, e) && ThreadOk(files, s, t)
    requires s.threads[t].path in s.datasets ==> PathOk(files, s, s.threads[t].path)
    ensures |Apply(files, s, t, e).threads| == |s.threads| && ThreadOk(files, Apply(files, s, t, e), t)
  {
  }

  lemma StepKeepsInv(files: Files, s: State, t: nat, e: Event)
    requires Inv(files, s) && Enabled(files, s, t, e)
    ensures Inv(files, Apply(files, s, t, e))
  {
    var s' := Apply(files, s, t, e);
    assert ThreadOk(files, s, t);
    forall p | p in s'.datasets
      ensures PathOk(files, s', p)
    {
      PathKept(files, s, t, e, p);
    }
    forall i | 0 <= i < |s'.threads|
      ensures ThreadOk(files, s', i)
    {
      ThreadKept(files, s, t, e, i);
    }
  }

  lemma {:induction false} RunKeepsInv(files: Files, s: State, steps: seq<Step>)
    requires Inv(files, s) && Admissible(files, s, steps)
    ensures Inv(files, After(files, s, steps))
    decreases |steps|
  {
    if steps != [] {
      StepKeepsInv(files, s, steps[0].thread, steps[0].event);
      RunKeepsInv(files, Apply(files, s, steps[0].thread, steps[0].event), steps[1..]);
    }
  }

  ghost predicate Reachable(files: Files, paths: seq<string>, s: State) {
    exists steps :: Admissible(files, Init(paths), steps) && After(files, Init(paths), steps) == s
  }

  lemma ReachableInv(files: Files, paths: seq<string>, s: State)
    requires Reachable(files, paths, s)
    ensures Inv(files, s)
  {
    var steps :| Admissible(files, Init(paths), steps) && After(files, Init(paths), steps) == s;
    RunKeepsInv(files, Init(paths), steps);
  }

  /** Each path's loader is started at most once, and exactly once for every path anybody got data of. */
  lemma LoadedOnce(files: Files, paths: seq<string>, s: State, path: string)
    requires Reachable(files, paths, s)
    ensures Count(s.loads, path) == if path in s.datasets then 1 else 0
  {
    ReachableInv(files, paths, s);
    assert path in s.datasets ==> PathOk(files, s, path);
  }

  /** A caller returns only after loading is done, with the complete data, and they stay complete. */
  lemma ReturnsCompleteData(files: Files, paths: seq<string>, s: State, t: nat)
    requires Reachable(files, paths, s) && t < |s.threads| && s.threads[t].pc.Returned?
    ensures s.threads[t].pc.data == files(s.threads[t].path)
    ensures s.threads[t].path in s.datasets && s.datasets[s.threads[t].path] == Dataset(true, files(s.threads[t].path))
  {
    ReachableInv(files, paths, s);
    assert ThreadOk(files, s, t);
    assert PathOk(files, s, s.threads[t].path);
  }

  /** No waiter is left behind: while it sleeps, the winner of its path is still loading or about to notify. */
  lemma WaiterIsNotLeftBehind(files: Files, paths: seq<string>, s: State, t: nat)
    requires Reachable(files, paths, s) && t < |s.threads| && s.threads[t].pc == Waiting(true)
    ensures s.threads[t].path in s.owner && s.owner[s.threads[t].path] < |s.threads|
    ensures var winner := s.threads[s.owner[s.threads[t].path]];
            winner.path == s.threads[t].path && (winner.pc.Loading? || winner.pc.Notifying?)
  {
    ReachableInv(files, paths, s);
    assert ThreadOk(files, s, t);
    assert PathOk(files, s, s.threads[t].path);
  }

  /** Until everybody has returned, somebody has a step that is no spurious wake-up. */
  lemma DeadlockFree(files: Files, paths: seq<string>, s: State, t: nat)
    requires Reachable(files, paths, s) && t < |s.threads| && !s.threads[t].pc.Returned?
    ensures exists i, e :: Enabled(files, s, i, e) && e != Spurious
  {
    ReachableInv(files, paths, s);
    var i := t;
    if s.threads[t].pc == Waiting(true) {
      WaiterIsNotLeftBehind(files, paths, s, t);
      i := s.owner[s.threads[t].path];
    }
    assert ThreadOk(files, s, t) && ThreadOk(files, s, i);
    var e := match s.threads[i].pc
      case Enter => Acquire
      case Waiting(_) => Wake
      case Loading => if |s.datasets[s.threads[i].path].data| < |files(s.threads[i].path)| then LoadLine else SetDone
      case _ => NotifyAll;
    assert Enabled(files, s, i, e);
  }
}
