// Shutdown terminates: once a call has won the exchange on running_, every step of
// the pool but a spurious compare-exchange failure brings it closer to returning,
// whatever the interleaving.
module ThreadPoolTermination {
  import opened Sequences
  import opened ThreadPoolSteps
  import opened ThreadPoolInvariant

  // ------------------------------------------------------------------ measure

  // What the pool has left to do: tasks to push, tasks to pop, workers to start,
  // to count and to see off.
  ghost function Work(s: Pool): nat {
    3 * Planned(s.manager) + (if s.manager.Count? then 1 else 0) + Active(s) + 2 * |s.pushing| + |s.queue|
  }

  // How far a worker is from the next thing that lowers Work. With tasks queued it
  // heads for its next pop; with none, for the way out.
  function Distance(pc: WorkerPc, empty: bool, live: nat, core: nat): nat {
    match pc
    case PopFor => if empty then 3 else 0
    case Popped(_) => 14
    case Running(_) => 13
    case Ran => 12
    case Uncounted => 11
    case LoadRunning => if empty then 2 else 10
    case TestEmpty => if empty then 1 else 9
    case LoadLive => 8
    case TestIdle => 7
    case ReloadLive => 6
    case Cas(curr) => if curr > core && live != curr then 5 else 4
    case Retired => 3
    case Published => 1
    case Leaving => 0
    case Done(_) => 0
  }

  ghost function Distances(ws: seq<WorkerPc>, empty: bool, live: nat, core: nat): nat {
    if ws == [] then 0
    else Distances(ws[..|ws| - 1], empty, live, core) + Distance(ws[|ws| - 1], empty, live, core)
  }

  lemma {:induction false} DistancesUpdate(ws: seq<WorkerPc>, w: nat, pc: WorkerPc, empty: bool, live: nat, core: nat)
    requires w < |ws|
    ensures Distances(ws[w := pc], empty, live, core)
         == Distances(ws, empty, live, core) - Distance(ws[w], empty, live, core) + Distance(pc, empty, live, core)
    decreases |ws|
  {
    var n := |ws| - 1;
    if w == n {
      assert ws[w := pc][..n] == ws[..n];
    } else {
      assert ws[w := pc][..n] == ws[..n][w := pc];
      DistancesUpdate(ws[..n], w, pc, empty, live, core);
    }
  }

  function ManagerDistance(m: ManagerPc): nat {
    match m
    case ReadPending => 7
    case ReadLive(_) => 6
    case ReadBusy(_, _) => 5
    case Create(_) => 4
    case Swap => 3
    case Reap(ids) => 2 + |ids|
    case LoopTest => 1
    case SleepTest => 1
    case _ => 0
  }

  function CloserDistance(c: CloserPc, handles: nat): nat {
    match c
    case Flipped => 4 + handles
    case AcceptingOff => 3 + handles
    case QueueClosed => 2 + handles
    case JoinWorkers(i) => 1 + (if i < handles then handles - i else 0)
    case _ => 0
  }

  ghost function Way(s: Pool): nat {
    Distances(s.workers, s.queue == [], s.live, s.core) + ManagerDistance(s.manager) + |s.exited|
      + CloserDistance(s.closer, |s.handles|)
  }

  // Lexicographic: less work, or the same work and less of the way.
  ghost predicate Closer(s': Pool, s: Pool) {
    Work(s') < Work(s) || (Work(s') == Work(s) && Way(s') < Way(s))
  }

  // -------------------------------------------------------------------- steps

  lemma WorkerCloser(s: Pool, w: Worker, choice: bool)
    requires !s.running && w < |s.workers| && !s.workers[w].Done?
    requires !Spurious(s, WorkerMoves(w, choice))
    ensures Closer(WorkerStep(s, w, choice), s)
  {
    var s' := WorkerStep(s, w, choice);
    CountUpdate(s.workers, w, s'.workers[w], IsActive);
    DistancesUpdate(s.workers, w, s'.workers[w], s.queue == [], s.live, s.core);
  }

  lemma {:induction false} WithoutShrinks<T>(xs: seq<T>, x: T)
    ensures |Without(xs, x)| <= |xs|
    decreases |xs|
  {
    if xs != [] && xs[0] != x { WithoutShrinks(xs[1..], x); }
  }

  lemma SpawnCloser(s: Pool)
    requires s.manager.Create? && s.manager.left > 0
    ensures Closer(ManagerStep(s), s)
  {
    CountAppend(s.workers, PopFor, IsActive);
  }

  lemma ManagerCloser(s: Pool)
    requires !s.running && !InConstructor(s) && ManagerReady(s)
    ensures Closer(ManagerStep(s), s)
  {
    if Spawning(s) {
      SpawnCloser(s);
    } else {
      assert ManagerStep(s).workers == s.workers;
      if Reaping(s) { WithoutShrinks(s.handles, s.manager.ids[0]); }
    }
  }

  lemma CloserCloser(s: Pool)
    requires !s.closer.Idle? && CloserReady(s)
    ensures Closer(CloserStep(s), s)
  {
  }

  lemma PushCloser(s: Pool, t: Task)
    requires PushReady(s, t)
    ensures Closer(PushStep(s, t), s)
  {
  }

  // Every step after the winning exchange makes progress.
  lemma StepCloser(s: Pool, e: Event)
    requires ControlInv(s) && !s.running && Enabled(s, e) && !e.TestAccepting? && !Spurious(s, e)
    ensures Closer(Apply(s, e), s)
  {
    match e
    case WorkerMoves(w, choice) => WorkerCloser(s, w, choice);
    case ManagerMoves => ManagerCloser(s);
    case CloserMoves => CloserCloser(s);
    case Push(t) => PushCloser(s, t);
  }

  // ---------------------------------------------------------------- endless runs

  // An endless run: each step is enabled and no spurious failure, until the winning
  // shutdown has returned, and submit calls are not all that ever happens.
  ghost predicate RunsOn(states: nat -> Pool, events: nat -> Event) {
    && (forall i: nat :: !states(i).closer.Returned? ==>
          Enabled(states(i), events(i)) && !Spurious(states(i), events(i))
          && states(i + 1) == Apply(states(i), events(i)))
    && forall i: nat :: OtherStepFrom(events, i)
  }

  ghost predicate OtherStepFrom(events: nat -> Event, i: nat) {
    exists j: nat :: j >= i && !events(j).TestAccepting?
  }

  // From state i on, a submit call that comes is refused.
  ghost predicate RefusedFrom(states: nat -> Pool, events: nat -> Event, i: nat) {
    forall j: nat :: j >= i && events(j).TestAccepting? ==> !states(j).accepting
  }

  // A refused submit call brings shutdown no closer, and takes it no further away.
  lemma RefusalNeutral(s: Pool, t: Task)
    requires !s.accepting
    ensures Work(TestAcceptingStep(s, t)) == Work(s) && Way(TestAcceptingStep(s, t)) == Way(s)
  {
  }

  // Past refused submit calls comes another step, with the measure as it was, unless
  // the shutdown has returned already.
  lemma {:induction false} PastRefusals(states: nat -> Pool, events: nat -> Event, i: nat, j: nat) returns (k: nat)
    requires RunsOn(states, events) && RefusedFrom(states, events, i)
    requires Inv(states(i)) && !states(i).running && i <= j && !events(j).TestAccepting?
    ensures i <= k && Inv(states(k)) && !states(k).running && RefusedFrom(states, events, k)
    ensures Work(states(k)) == Work(states(i)) && Way(states(k)) == Way(states(i))
    ensures states(k).closer.Returned? || !events(k).TestAccepting?
    decreases j - i
  {
    if states(i).closer.Returned? || !events(i).TestAccepting? {
      k := i;
    } else {
      InvStep(states(i), events(i));
      RefusalNeutral(states(i), events(i).t);
      k := PastRefusals(states, events, i + 1, j);
    }
  }

  // Shutdown returns, in every such run in which submit calls that come are refused;
  // that none gets stuck before is ThreadPoolTheorems.ShutdownNeverStuck.
  lemma {:induction false} ShutdownReturns(states: nat -> Pool, events: nat -> Event, i: nat) returns (n: nat)
    requires RunsOn(states, events) && Inv(states(i)) && !states(i).running
    requires RefusedFrom(states, events, i)
    ensures n >= i && states(n).closer.Returned?
    decreases Work(states(i)), Way(states(i))
  {
    assert OtherStepFrom(events, i);
    var j: nat :| j >= i && !events(j).TestAccepting?;
    var k := PastRefusals(states, events, i, j);
    if states(k).closer.Returned? {
      n := k;
    } else {
      InvStep(states(k), events(k));
      StepCloser(states(k), events(k));
      assert !states(k + 1).running;
      n := ShutdownReturns(states, events, k + 1);
    }
  }

  lemma {:induction false} InvUntil(states: nat -> Pool, events: nat -> Event, i: nat, m: nat) returns (k: nat)
    requires RunsOn(states, events) && Inv(states(i)) && !states(i).running && i <= m
    ensures i <= k <= m && Inv(states(k)) && !states(k).running
    ensures k == m || states(k).closer.Returned?
    decreases m - i
  {
    if i == m || states(i).closer.Returned? {
      k := i;
    } else {
      InvStep(states(i), events(i));
      k := InvUntil(states, events, i + 1, m);
    }
  }

  // Submit calls that are still accepted can come in between, too: it is enough that
  // the closer gets to turn them away at some time.
  lemma ShutdownReturnsAmidSubmits(states: nat -> Pool, events: nat -> Event, i: nat, m: nat) returns (n: nat)
    requires RunsOn(states, events) && Inv(states(i)) && !states(i).running
    requires i <= m && forall j: nat :: j >= m ==> !states(j).accepting
    ensures n >= i && states(n).closer.Returned?
  {
    var k := InvUntil(states, events, i, m);
    if states(k).closer.Returned? {
      n := k;
    } else {
      n := ShutdownReturns(states, events, k);
    }
  }
}
