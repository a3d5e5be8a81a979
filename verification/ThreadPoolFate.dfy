// Which queued tasks a shutdown runs and which it loses, told from the state at
// hand: exactly when every return of shutdown has run the task, and exactly when
// none has.
module ThreadPoolFate {
  import opened Sequences
  import opened ThreadPoolSteps
  import opened ThreadPoolInvariant
  import opened ThreadPoolTheorems
  import opened ThreadPoolTermination
  import opened ThreadPoolPaths

  // ------------------------------------------------------------ the conditions

  // On its way to the queue: it cannot leave before finding the queue empty.
  predicate Looping(pc: WorkerPc) { pc.PopFor? || IsUnfinished(pc) }

  // On its way there, or about to give up retiring.
  predicate ForQueue(pc: WorkerPc, core: nat) { Looping(pc) || (pc.Cas? && pc.curr <= core) }

  predicate IsLeaving(pc: WorkerPc) { pc.Leaving? }

  // Active, and not on its way out.
  predicate IsStaying(pc: WorkerPc) { IsActive(pc) && !pc.Leaving? }

  ghost function Leavers(s: Pool): nat { CountIf(s.workers, IsLeaving) }
  ghost function Stayers(s: Pool): nat { CountIf(s.workers, IsStaying) }

  // The manager is bound to start a worker, whatever happens before it does.
  ghost predicate MoreComing(s: Pool) {
    match s.manager
    case ReadPending => |s.queue| > Active(s) && Active(s) < s.max
    case ReadLive(pending) => pending > Active(s) && Active(s) < s.max
    case ReadBusy(pending, live) => pending > live && live < s.max
    case Create(left) => left > 0
    case Count(left) => left > 0
    case _ => false
  }

  // The manager may still start one.
  predicate MayStart(s: Pool) {
    match s.manager
    case ReadPending => true
    case ReadLive(pending) => pending > 0
    case ReadBusy(pending, live) => pending > live && live < s.max
    case Create(left) => left > 0
    case Count(left) => left > 0
    case _ => false
  }

  // Somebody is bound to look at the queue again: a worker on its way there; or a
  // worker that may only retire, while fewer than core are leaving, since the last
  // core cannot retire and with a task queued nobody turns to leave; or a worker
  // the manager is bound to start.
  ghost predicate QueueServed(s: Pool) {
    || (exists w :: 0 <= w < |s.workers| && ForQueue(s.workers[w], s.core))
    || (Stayers(s) > 0 && Leavers(s) < s.core)
    || MoreComing(s)
  }

  // Nobody will look at the queue again.
  ghost predicate QueueDeserted(s: Pool) {
    !s.running && !InConstructor(s) && Stayers(s) == 0 && !MayStart(s)
  }

  lemma {:induction false} ActiveSplits(ws: seq<WorkerPc>)
    ensures CountIf(ws, IsActive) == CountIf(ws, IsLeaving) + CountIf(ws, IsStaying)
    decreases |ws|
  {
    if ws != [] { ActiveSplits(ws[..|ws| - 1]); }
  }

  // While the pool runs its queue is served.
  lemma RunningServes(s: Pool)
    requires Inv(s) && s.running && !InConstructor(s)
    ensures QueueServed(s)
  {
    ActiveSplits(s.workers);
    CountZero(s.workers, IsLeaving);
  }

  // --------------------------------------------------------- bound to be run

  ghost predicate Bound(s: Pool, t: Task) { t in s.popped || (t in s.queue && QueueServed(s)) }

  // The three counts after one worker moves.
  lemma CountsMove(s: Pool, w: Worker, pc: WorkerPc)
    requires w < |s.workers|
    ensures var ws, old' := s.workers[w := pc], s.workers[w];
      && CountIf(ws, IsLeaving) == Leavers(s) - (if old'.Leaving? then 1 else 0) + (if pc.Leaving? then 1 else 0)
      && CountIf(ws, IsStaying) == Stayers(s) - (if IsStaying(old') then 1 else 0) + (if IsStaying(pc) then 1 else 0)
      && CountIf(ws, IsActive) == CountIf(ws, IsLeaving) + CountIf(ws, IsStaying)
      && Active(s) == Leavers(s) + Stayers(s)
  {
    CountUpdate(s.workers, w, pc, IsLeaving);
    CountUpdate(s.workers, w, pc, IsStaying);
    ActiveSplits(s.workers);
    ActiveSplits(s.workers[w := pc]);
  }

  lemma ForQueueStays(s: Pool, w: Worker, choice: bool, v: Worker)
    requires w < |s.workers| && v < |s.workers| && ForQueue(s.workers[v], s.core)
    requires s.workers[v].PopFor? && v == w ==> s.queue != []
    ensures ForQueue(WorkerStep(s, w, choice).workers[v], s.core)
  {
  }

  // Nobody is on the way to the queue.
  lemma ServedByCount(s: Pool, w: Worker, choice: bool)
    requires Inv(s) && w < |s.workers| && s.queue != [] && !ForQueue(s.workers[w], s.core)
    requires (Stayers(s) > 0 && Leavers(s) < s.core) || MoreComing(s)
    ensures QueueServed(WorkerStep(s, w, choice))
  {
    CountsMove(s, w, WorkerStep(s, w, choice).workers[w]);
  }

  lemma ServedWorkerStep(s: Pool, w: Worker, choice: bool)
    requires Inv(s) && w < |s.workers| && QueueServed(s) && s.queue != []
    ensures QueueServed(WorkerStep(s, w, choice))
  {
    var s' := WorkerStep(s, w, choice);
    if v :| 0 <= v < |s.workers| && ForQueue(s.workers[v], s.core) {
      ForQueueStays(s, w, choice, v);
    } else {
      assert !ForQueue(s.workers[w], s.core);
      ServedByCount(s, w, choice);
    }
  }

  lemma ServedManagerStep(s: Pool)
    requires Inv(s) && QueueServed(s)
    ensures QueueServed(ManagerStep(s))
  {
    var s' := ManagerStep(s);
    if v :| 0 <= v < |s.workers| && ForQueue(s.workers[v], s.core) {
      assert ForQueue(s'.workers[v], s'.core);
    } else if Spawning(s) {
      assert ForQueue(s'.workers[|s.workers|], s'.core);
    } else {
      assert s'.workers == s.workers;
      ActiveSplits(s.workers);
    }
  }

  lemma ServedElsewhere(s: Pool, s': Pool)
    requires QueueServed(s) && s'.workers == s.workers && s'.manager == s.manager
    requires s'.core == s.core && s'.max == s.max && |s.queue| <= |s'.queue|
    ensures QueueServed(s')
  {
  }

  lemma BoundStep(s: Pool, e: Event, t: Task)
    requires Inv(s) && Bound(s, t) && Enabled(s, e)
    ensures Bound(Apply(s, e), t)
  {
    if t !in s.popped {
      match e
      case WorkerMoves(w, choice) => ServedWorkerStep(s, w, choice);
      case ManagerMoves => ServedManagerStep(s);
      case CloserMoves => ServedElsewhere(s, CloserStep(s));
      case TestAccepting(u) => ServedElsewhere(s, TestAcceptingStep(s, u));
      case Push(u) => ServedElsewhere(s, PushStep(s, u));
    }
  }

  lemma {:induction false} BoundPath(states: seq<Pool>, events: seq<Event>, k: nat, t: Task)
    requires IsPath(states, events) && k <= |events| && Inv(states[0]) && Bound(states[0], t)
    ensures Bound(states[k], t)
  {
    if k > 0 {
      BoundPath(states, events, k - 1, t);
      PathInv(states, events, k - 1);
      BoundStep(states[k - 1], events[k - 1], t);
    }
  }

  // A task queued while somebody is bound for the queue has been executed exactly
  // once in every state in which the winning shutdown has returned.
  lemma ServedRuns(s: Pool, z: Pool, t: Task)
    requires Inv(s) && t in s.queue && QueueServed(s) && Leads(s, z) && z.closer.Returned?
    ensures multiset(z.executed)[t] == 1
  {
    var states, events :| IsPath(states, events) && states[0] == s && states[|events|] == z;
    BoundPath(states, events, |events|, t);
    LeadsInv(s, z);
    ReturnedState(z);
    NobodyServes(z);
    MultiplicityOne(z.executed, t);
  }

  lemma NobodyServes(z: Pool)
    requires Inv(z) && z.closer.Returned?
    ensures !QueueServed(z)
  {
    ReturnedState(z);
    CountZero(z.workers, IsStaying);
  }

  // ---------------------------------------------------------- bound to be lost

  lemma DesertedWorkerStep(s: Pool, w: Worker, choice: bool)
    requires QueueDeserted(s) && w < |s.workers|
    ensures QueueDeserted(WorkerStep(s, w, choice)) && s.queue <= WorkerStep(s, w, choice).queue
  {
    CountZero(s.workers, IsStaying);
    CountsMove(s, w, WorkerStep(s, w, choice).workers[w]);
  }

  // With nobody busy the manager's arithmetic calls for a worker only when tasks
  // outnumber the workers it saw.
  lemma DesertedManagerStep(s: Pool)
    requires Inv(s) && QueueDeserted(s)
    ensures QueueDeserted(ManagerStep(s)) && ManagerStep(s).queue == s.queue
  {
    CountMonotone(s.workers, IsBusy, IsStaying);
    assert s.busy == 0;
    assert !Spawning(s);
  }

  lemma DesertedStep(s: Pool, e: Event)
    requires Inv(s) && QueueDeserted(s) && Enabled(s, e)
    ensures QueueDeserted(Apply(s, e)) && s.queue <= Apply(s, e).queue
  {
    match e
    case WorkerMoves(w, choice) => DesertedWorkerStep(s, w, choice);
    case ManagerMoves => DesertedManagerStep(s);
    case _ =>
  }

  lemma {:induction false} DesertedPath(states: seq<Pool>, events: seq<Event>, k: nat)
    requires IsPath(states, events) && k <= |events| && Inv(states[0]) && QueueDeserted(states[0])
    ensures QueueDeserted(states[k]) && states[0].queue <= states[k].queue
  {
    if k > 0 {
      DesertedPath(states, events, k - 1);
      PathInv(states, events, k - 1);
      DesertedStep(states[k - 1], events[k - 1]);
    }
  }

  // A task queued in a deserted pool stays queued and is never executed.
  lemma DesertedTaskLost(s: Pool, z: Pool, t: Task)
    requires Inv(s) && t in s.queue && QueueDeserted(s) && Leads(s, z)
    ensures t in z.queue && t !in z.executed
  {
    var states, events :| IsPath(states, events) && states[0] == s && states[|events|] == z;
    DesertedPath(states, events, |events|);
    LeadsInv(s, z);
    var i :| 0 <= i < |s.queue| && s.queue[i] == t;
    assert z.queue[i] == t;
    NotYetPopped(z, t);
  }

  lemma NotYetPopped(s: Pool, t: Task)
    requires TaskInv(s) && t in s.queue
    ensures t !in s.popped && t !in s.executed
  {
    var i :| 0 <= i < |s.queue| && s.queue[i] == t;
    assert s.accepted[|s.popped| + i] == t;
    forall j | 0 <= j < |s.popped| ensures s.popped[j] != t {
      assert s.accepted[j] == s.popped[j];
    }
  }

  // ------------------------------------------------ a path to the queue's end

  // The state is not served, and what it says of the workers' places.
  lemma UnservedState(s: Pool, t: Task)
    requires Inv(s) && !InConstructor(s) && t in s.queue && !QueueServed(s)
    ensures !s.running && s.busy == 0 && Active(s) == Leavers(s) + Stayers(s)
    ensures Stayers(s) > 0 ==> Active(s) > s.core
    ensures forall w :: 0 <= w < |s.workers| ==> !ForQueue(s.workers[w], s.core)
  {
    if s.running { RunningServes(s); }
    ActiveSplits(s.workers);
    CountZero(s.workers, IsBusy);
    forall w | 0 <= w < |s.workers| ensures !IsBusy(s.workers[w]) { assert !ForQueue(s.workers[w], s.core); }
  }

  // The manager takes its next step without being drawn into starting a worker.
  predicate ManagerPending(m: ManagerPc) {
    m.ReadPending? || m.ReadLive? || m.ReadBusy? || m.Create? || m.Count?
  }

  lemma ManagerPasses(s: Pool, t: Task)
    requires Inv(s) && !InConstructor(s) && t in s.queue && !QueueServed(s) && ManagerPending(s.manager)
    ensures Enabled(s, ManagerMoves) && !InConstructor(ManagerStep(s))
    ensures !QueueServed(ManagerStep(s)) && ManagerStep(s).queue == s.queue
  {
    UnservedState(s, t);
    assert ManagerStep(s).workers == s.workers;
  }

  // A staying worker moves on towards its retirement.
  lemma WorkerPasses(s: Pool, w: Worker, t: Task)
    requires Inv(s) && !InConstructor(s) && t in s.queue && !QueueServed(s) && !ManagerPending(s.manager)
    requires w < |s.workers| && IsStaying(s.workers[w])
    ensures var choice := !s.workers[w].TestIdle?; var s' := WorkerStep(s, w, choice);
      !Spurious(s, WorkerMoves(w, choice)) && !QueueServed(s') && s'.queue == s.queue
  {
    UnservedState(s, t);
    CountZero(s.workers, IsStaying);
    var choice := !s.workers[w].TestIdle?;
    var s' := WorkerStep(s, w, choice);
    assert s.live == Active(s);
    CountsMove(s, w, s'.workers[w]);
    forall v | 0 <= v < |s'.workers| ensures !ForQueue(s'.workers[v], s'.core) {
      if v != w { assert s'.workers[v] == s.workers[v]; }
    }
  }

  // From an unserved state every staying worker can retire, and the manager's round
  // can end without a new one: the queue is deserted with the task in it.
  lemma {:induction false} Desert(x: Pool, s: Pool, t: Task) returns (z: Pool)
    requires Leads(x, s) && Inv(s) && !InConstructor(s) && t in s.queue && !QueueServed(s)
    ensures Leads(x, z) && Inv(z) && QueueDeserted(z) && t in z.queue
    decreases Work(s), Way(s)
  {
    UnservedState(s, t);
    if ManagerPending(s.manager) {
      ManagerPasses(s, t);
      InvStep(s, ManagerMoves);
      StepCloser(s, ManagerMoves);
      Step(x, s, ManagerMoves, ManagerStep(s));
      z := Desert(x, ManagerStep(s), t);
    } else if w: nat :| w < |s.workers| && IsStaying(s.workers[w]) {
      WorkerPasses(s, w, t);
      var e := WorkerMoves(w, !s.workers[w].TestIdle?);
      InvStep(s, e);
      StepCloser(s, e);
      Step(x, s, e, Apply(s, e));
      z := Desert(x, Apply(s, e), t);
    } else {
      CountZero(s.workers, IsStaying);
      z := s;
    }
  }

  // ---------------------------------------------------- a path to the queue

  // With a worker staying, some step leads on without losing them all: a worker
  // that is not about to retire, or, when every one is, some other active worker.
  lemma {:induction false} AnotherOne<T>(xs: seq<T>, p: T -> bool, w: nat) returns (v: nat)
    requires w < |xs| && CountIf(xs, p) >= 2
    ensures v < |xs| && v != w && p(xs[v])
    decreases |xs|
  {
    var n := |xs| - 1;
    if w == n {
      CountZero(xs[..n], p);
      v :| 0 <= v < n && p(xs[..n][v]);
    } else if p(xs[n]) {
      v := n;
    } else {
      v := AnotherOne(xs[..n], p, w);
    }
  }

  predicate AboutToRetire(s: Pool, w: Worker)
    requires w < |s.workers|
  {
    s.workers[w] == Cas(s.live)
  }

  // A worker that is not about to retire moves and still stays.
  lemma StayerMoves(s: Pool, w: Worker)
    requires !s.running && s.queue != [] && w < |s.workers|
    requires IsStaying(s.workers[w]) && !AboutToRetire(s, w) && !ForQueue(s.workers[w], s.core)
    ensures !Spurious(s, WorkerMoves(w, true)) && IsStaying(NextPc(s, s.workers[w], true))
    ensures !s.workers[w].PopFor?
  {
  }

  // Retiring takes more than one active worker.
  lemma AnotherActive(s: Pool, v: Worker) returns (w: Worker)
    requires Inv(s) && v < |s.workers| && s.workers[v] == Cas(s.live) && s.live > s.core
    ensures w < |s.workers| && w != v && IsActive(s.workers[w])
  {
    CountZero(s.workers, IsActive);
    w := AnotherOne(s.workers, IsActive, v);
  }

  lemma StillStaying(s: Pool, w: Worker, v: Worker)
    requires w < |s.workers| && v < |s.workers| && IsStaying(WorkerStep(s, w, true).workers[v])
    ensures CountIf(WorkerStep(s, w, true).workers, IsStaying) > 0
  {
    CountZero(WorkerStep(s, w, true).workers, IsStaying);
  }

  lemma NextRescuer(s: Pool, t: Task) returns (w: Worker)
    requires Inv(s) && !InConstructor(s) && t in s.queue && !QueueServed(s) && Stayers(s) > 0
    ensures w < |s.workers| && !s.workers[w].Done? && !s.workers[w].PopFor?
    ensures !Spurious(s, WorkerMoves(w, true)) && CountIf(WorkerStep(s, w, true).workers, IsStaying) > 0
  {
    UnservedState(s, t);
    CountZero(s.workers, IsStaying);
    hide Inv, QueueServed, CountIf;
    if v: nat :| v < |s.workers| && IsStaying(s.workers[v]) && !AboutToRetire(s, v) {
      w := v;
      StayerMoves(s, w);
      StillStaying(s, w, w);
    } else {
      var v: nat :| v < |s.workers| && IsStaying(s.workers[v]);
      assert !ForQueue(s.workers[v], s.core);
      w := AnotherActive(s, v);
      assert !ForQueue(s.workers[w], s.core);
      assert IsStaying(s.workers[w]) ==> AboutToRetire(s, w);
      StillStaying(s, w, v);
    }
  }

  lemma MovesKeepQueue(s: Pool, w: Worker)
    requires w < |s.workers| && !s.workers[w].PopFor?
    ensures WorkerStep(s, w, true).queue == s.queue && WorkerStep(s, w, true).manager == s.manager
    ensures WorkerStep(s, w, true).running == s.running && WorkerStep(s, w, true).max == s.max
  {
  }

  // From a state that is not deserted somebody can be bound for the queue.
  lemma {:induction false} Rescue(x: Pool, s: Pool, t: Task) returns (y: Pool)
    requires Leads(x, s) && Inv(s) && !InConstructor(s) && t in s.queue && !QueueDeserted(s)
    ensures Leads(x, y) && Inv(y) && !InConstructor(y) && QueueServed(y) && t in y.queue
    decreases Work(s), Way(s)
  {
    if QueueServed(s) {
      y := s;
    } else {
      var w := NextToMove(s, t);
      var e := WorkerMoves(w, true);
      MovesKeepQueue(s, w);
      InvStep(s, e);
      StepCloser(s, e);
      Step(x, s, e, Apply(s, e));
      y := Rescue(x, Apply(s, e), t);
    }
  }

  // The worker to move: towards the queue while one stays; otherwise one that is
  // leaving, so that the manager will see fewer.
  lemma NextToMove(s: Pool, t: Task) returns (w: Worker)
    requires Inv(s) && !InConstructor(s) && t in s.queue && !QueueServed(s) && !QueueDeserted(s)
    ensures w < |s.workers| && !s.workers[w].Done? && !s.workers[w].PopFor? && !s.running
    ensures !Spurious(s, WorkerMoves(w, true)) && !QueueDeserted(WorkerStep(s, w, true))
  {
    UnservedState(s, t);
    if Stayers(s) > 0 {
      w := NextRescuer(s, t);
    } else {
      CountZero(s.workers, IsLeaving);
      w :| 0 <= w < |s.workers| && IsLeaving(s.workers[w]);
    }
  }

  // ---------------------------------------------------------- the exact fate

  // Of a queued task, from the state at hand. Every return of shutdown has run it
  // exactly when the queue is served; some return has, exactly when the queue is
  // not deserted. In between, and only there, scheduling decides.
  lemma FateOfQueued(s: Pool, t: Task)
    requires Inv(s) && !InConstructor(s) && t in s.queue
    ensures (forall z :: Leads(s, z) && z.closer.Returned? ==> multiset(z.executed)[t] == 1) <==> QueueServed(s)
    ensures (exists z :: Leads(s, z) && z.closer.Returned? && multiset(z.executed)[t] == 1) <==> !QueueDeserted(s)
  {
    Start(s);
    if QueueServed(s) {
      forall z | Leads(s, z) && z.closer.Returned? ensures multiset(z.executed)[t] == 1 { ServedRuns(s, z, t); }
    } else {
      var d := Desert(s, s, t);
      var z := ReturnAfter(s, d);
      DesertedTaskLost(d, z, t);
      assert multiset(z.executed)[t] == 0;
    }
    if QueueDeserted(s) {
      forall z | Leads(s, z) ensures multiset(z.executed)[t] == 0 { DesertedTaskLost(s, z, t); }
    } else {
      var y := Rescue(s, s, t);
      var z := ReturnAfter(s, y);
      ServedRuns(y, z, t);
    }
  }

  // Shutdown can be called, if it was not, and return.
  lemma ReturnAfter(x: Pool, y: Pool) returns (z: Pool)
    requires Leads(x, y) && Inv(y) && !InConstructor(y)
    ensures Leads(x, z) && Leads(y, z) && z.closer.Returned?
  {
    Start(y);
    if y.running {
      var y' := CloserStep(y);
      InvStep(y, CloserMoves);
      Step(y, y, CloserMoves, y');
      z := CanReturn(y, y');
    } else {
      z := CanReturn(y, y);
    }
    LeadsOn(x, y, z);
  }

  // Over a run: a task accepted at any moment has run exactly once at the return if
  // the queue is served at that moment, and so always while the pool runs.
  lemma ServedTaskRuns(states: seq<Pool>, events: seq<Event>, k: nat, t: Task)
    requires IsRun(states, events) && k < |states| && t in states[k].accepted
    requires QueueServed(states[k])
    requires states[|events|].closer.Returned?
    ensures multiset(states[|events|].executed)[t] == 1
  {
    var s, z := states[k], states[|events|];
    RunInv(states, events, k);
    RunLeads(states, events, k, |events|);
    assert t in s.popped + s.queue;
    if t in s.queue {
      ServedRuns(s, z, t);
    } else {
      RunInv(states, events, |events|);
      ReturnedState(z);
      PoppedStays(states, events, k, |events|, t);
      MultiplicityOne(z.executed, t);
    }
  }

  lemma {:induction false} PoppedStays(states: seq<Pool>, events: seq<Event>, k: nat, j: nat, t: Task)
    requires IsRun(states, events) && k <= j < |states| && t in states[k].popped
    ensures t in states[j].popped
    decreases j
  {
    if k < j {
      PoppedStays(states, events, k, j - 1, t);
      PoppedStep(states[j - 1], events[j - 1], t);
    }
  }

  lemma PoppedStep(s: Pool, e: Event, t: Task)
    requires Enabled(s, e) && t in s.popped
    ensures t in Apply(s, e).popped
  {
  }
}
