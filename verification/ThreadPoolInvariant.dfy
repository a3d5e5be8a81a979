// The inductive invariant of the thread pool, in five parts, each shown to hold
// initially and to be kept by every step.
module ThreadPoolInvariant {
  import opened Sequences
  import opened ThreadPoolSteps

  // ---------------------------------------------------------------- control

  // A worker counted in live_threads_, or about to be: neither retired nor gone.
  predicate IsActive(pc: WorkerPc) { !pc.Retired? && !pc.Published? && !pc.Done? }

  // A worker that found the closed pool empty.
  predicate HasLeft(pc: WorkerPc) { pc.Leaving? || pc == Done(false) }

  // 1 while a worker is started but not yet added to live_threads_.
  function Uncounted1(m: ManagerPc): nat { if m.CtorCount? || m.Count? then 1 else 0 }

  ghost predicate ControlInv(s: Pool) {
    && 1 <= s.core <= s.max < SIZE_MOD
    && (s.running <==> s.closer.Idle?)
    && (InConstructor(s) ==> s.running)
    && (s.accepting <==> s.closer.Idle? || s.closer.Flipped?)
    && (s.queueShut <==> s.closer.QueueClosed? || s.closer.JoinWorkers? || s.closer.Returned?)
    && (s.manager.Stopped? ==> !s.running)
    && (s.closer.JoinWorkers? || s.closer.Returned? ==> s.manager.Stopped?)
    && (s.mark.Some? ==> !s.running)
    && forall w :: 0 <= w < |s.workers| ==>
         && (s.workers[w].TestEmpty? ==> !s.running)
         && (HasLeft(s.workers[w]) ==> s.mark.Some?)
  }

  lemma ControlWorkerStep(s: Pool, w: Worker, choice: bool)
    requires ControlInv(s) && w < |s.workers| && !s.workers[w].Done?
    ensures ControlInv(WorkerStep(s, w, choice))
  {
    var s' := WorkerStep(s, w, choice);
    forall v | 0 <= v < |s'.workers|
      ensures (s'.workers[v].TestEmpty? ==> !s'.running) && (HasLeft(s'.workers[v]) ==> s'.mark.Some?)
    {
      if v != w {
        assert s'.workers[v] == s.workers[v];
      }
    }
  }

  lemma ControlManagerStep(s: Pool)
    requires ControlInv(s) && ManagerReady(s)
    ensures ControlInv(ManagerStep(s))
  {
  }

  lemma ControlCloserStep(s: Pool)
    requires ControlInv(s) && CloserReady(s)
    ensures ControlInv(CloserStep(s))
  {
  }

  lemma ControlStep(s: Pool, e: Event)
    requires ControlInv(s) && Enabled(s, e)
    ensures ControlInv(Apply(s, e))
  {
    match e
    case WorkerMoves(w, choice) => ControlWorkerStep(s, w, choice);
    case ManagerMoves => ControlManagerStep(s);
    case CloserMoves => ControlCloserStep(s);
    case _ =>
  }

  // ------------------------------------------------- counting live workers

  ghost function Active(s: Pool): nat { CountIf(s.workers, IsActive) }

  // The value a size_t register holds for x.
  function Wrap(x: int): nat
    requires -1 <= x
  {
    if x == -1 then SIZE_MOD - 1 else x
  }

  ghost predicate SizeInv(s: Pool) {
    && Active(s) <= s.max
    && s.live == Wrap(Active(s) - Uncounted1(s.manager))
    && (s.manager.Count? ==> s.mark.Some? || 1 <= Active(s))
    && (match s.manager
        case CtorSpawn(i) => i <= s.core && Active(s) == i
        case CtorCount(i) => i < s.core && Active(s) == i + 1
        case ReadBusy(_, l) => Active(s) <= l <= s.max
        case Create(k) => Active(s) + k <= s.max
        case Count(k) => Active(s) + k <= s.max
        case _ => true)
    && (!InConstructor(s) && s.mark.None? ==> s.core <= Active(s) - Uncounted1(s.manager))
  }

  lemma SizeWorkerStep(s: Pool, w: Worker, choice: bool)
    requires ControlInv(s) && SizeInv(s) && w < |s.workers| && !s.workers[w].Done?
    ensures SizeInv(WorkerStep(s, w, choice))
  {
    var s' := WorkerStep(s, w, choice);
    CountUpdate(s.workers, w, s'.workers[w], IsActive);
    CountZero(s.workers, IsActive);
  }

  lemma SizeManagerStep(s: Pool)
    requires ControlInv(s) && SizeInv(s) && ManagerReady(s)
    ensures SizeInv(ManagerStep(s))
  {
    if Spawning(s) {
      CountAppend(s.workers, PopFor, IsActive);
    } else {
      assert Active(ManagerStep(s)) == Active(s);
    }
  }

  lemma SizeStep(s: Pool, e: Event)
    requires ControlInv(s) && SizeInv(s) && Enabled(s, e)
    ensures SizeInv(Apply(s, e))
  {
    match e
    case WorkerMoves(w, choice) => SizeWorkerStep(s, w, choice);
    case ManagerMoves => SizeManagerStep(s);
    case _ =>
  }

  // ------------------------------------------------------------------ tasks

  predicate Holds(pc: WorkerPc, t: Task) { pc == Popped(t) || pc == Running(t) }

  ghost predicate HeldBySome(s: Pool, t: Task) {
    exists w :: 0 <= w < |s.workers| && Holds(s.workers[w], t)
  }

  // Every accepted task is in exactly one place: queued, held by one worker,
  // or executed, and queue order is acceptance order.
  ghost predicate TaskInv(s: Pool) {
    && s.accepted == s.popped + s.queue
    && NoDup(s.accepted)
    && (forall t :: t in s.pushing ==> t !in s.accepted)
    && NoDup(s.executed)
    && (forall t :: t in s.executed ==> t in s.popped)
    && (forall w, t :: 0 <= w < |s.workers| && Holds(s.workers[w], t) ==>
          t in s.popped && t !in s.executed)
    && (forall v, w, t :: 0 <= v < w < |s.workers| && Holds(s.workers[v], t) ==> !Holds(s.workers[w], t))
    && (forall t :: t in s.popped ==> t in s.executed || HeldBySome(s, t))
    && (s.mark.Some? ==> s.mark.value <= |s.popped|)
  }

  // A worker's step that leaves the tasks where they are.
  lemma TaskQuietStep(s: Pool, s': Pool, w: Worker)
    requires TaskInv(s) && w < |s.workers|
    requires |s'.workers| == |s.workers| && s'.workers == s.workers[w := s'.workers[w]]
    requires forall t :: Holds(s.workers[w], t) <==> Holds(s'.workers[w], t)
    requires s'.accepted == s.accepted && s'.popped == s.popped && s'.queue == s.queue
    requires s'.executed == s.executed && s'.pushing == s.pushing
    requires s'.mark.Some? ==> s'.mark.value <= |s'.popped|
    ensures TaskInv(s')
  {
    forall t | t in s'.popped ensures t in s'.executed || HeldBySome(s', t) {
      if t !in s.executed {
        var v :| 0 <= v < |s.workers| && Holds(s.workers[v], t);
        assert Holds(s'.workers[v], t);
      }
    }
  }

  lemma TaskPopStep(s: Pool, w: Worker)
    requires TaskInv(s) && w < |s.workers| && s.workers[w].PopFor? && s.queue != []
    ensures TaskInv(WorkerStep(s, w, true))
  {
    var s' := WorkerStep(s, w, true);
    var x := s.queue[0];
    assert s.accepted[|s.popped|] == x;
    assert x !in s.popped by {
      forall i | 0 <= i < |s.popped| ensures s.popped[i] != x {
        assert s.accepted[i] == s.popped[i];
      }
    }
    forall t | t in s'.popped ensures t in s'.executed || HeldBySome(s', t) {
      if t == x {
        assert Holds(s'.workers[w], t);
      } else if t !in s.executed {
        var v :| 0 <= v < |s.workers| && Holds(s.workers[v], t);
        assert Holds(s'.workers[v], t);
      }
    }
  }

  lemma TaskRunStep(s: Pool, w: Worker)
    requires TaskInv(s) && w < |s.workers| && s.workers[w].Running?
    ensures TaskInv(WorkerStep(s, w, true))
  {
    var s' := WorkerStep(s, w, true);
    var x := s.workers[w].task;
    assert Holds(s.workers[w], x);
    NoDupAppend(s.executed, x);
    forall t | t in s'.popped ensures t in s'.executed || HeldBySome(s', t) {
      if t == x {
        assert s'.executed[|s.executed|] == x;
      } else if t !in s.executed {
        var v :| 0 <= v < |s.workers| && Holds(s.workers[v], t);
        assert Holds(s'.workers[v], t);
      }
    }
  }

  // A step outside the workers that leaves the tasks where they are.
  lemma TaskSameStep(s: Pool, s': Pool)
    requires TaskInv(s)
    requires s'.workers == s.workers || s'.workers == s.workers + [PopFor]
    requires s'.accepted == s.accepted && s'.popped == s.popped
    requires s'.queue == s.queue && s'.executed == s.executed && s'.mark == s.mark
    requires forall t :: t in s'.pushing ==> t !in s.accepted
    ensures TaskInv(s')
  {
    forall t | t in s'.popped ensures t in s'.executed || HeldBySome(s', t) {
      if t !in s.executed {
        var v :| 0 <= v < |s.workers| && Holds(s.workers[v], t);
        assert Holds(s'.workers[v], t);
      }
    }
  }

  lemma TaskPushStep(s: Pool, t: Task)
    requires TaskInv(s) && PushReady(s, t) && !s.queueShut
    ensures TaskInv(PushStep(s, t))
  {
    var s' := PushStep(s, t);
    assert s'.accepted == s'.popped + s'.queue;
    forall u | u in s'.popped ensures u in s'.executed || HeldBySome(s', u) {
      if u !in s.executed {
        var v :| 0 <= v < |s.workers| && Holds(s.workers[v], u);
        assert Holds(s'.workers[v], u);
      }
    }
  }

  lemma TaskWorkerStep(s: Pool, w: Worker, choice: bool)
    requires TaskInv(s) && w < |s.workers|
    ensures TaskInv(WorkerStep(s, w, choice))
  {
    if s.workers[w].PopFor? && s.queue != [] {
      TaskPopStep(s, w);
    } else if s.workers[w].Running? {
      TaskRunStep(s, w);
    } else {
      TaskQuietStep(s, WorkerStep(s, w, choice), w);
    }
  }

  lemma TaskStep(s: Pool, e: Event)
    requires TaskInv(s) && Enabled(s, e)
    ensures TaskInv(Apply(s, e))
  {
    match e
    case WorkerMoves(w, choice) => TaskWorkerStep(s, w, choice);
    case ManagerMoves => TaskSameStep(s, ManagerStep(s));
    case CloserMoves => TaskSameStep(s, CloserStep(s));
    case TestAccepting(t) => TaskSameStep(s, TestAcceptingStep(s, t));
    case Push(t) =>
      if s.queueShut { TaskSameStep(s, PushStep(s, t)); } else { TaskPushStep(s, t); }
  }

  // --------------------------------------------------------------- counters

  predicate IsBusy(pc: WorkerPc) { pc.Running? || pc.Ran? }

  predicate IsUnfinished(pc: WorkerPc) { pc.Popped? || pc.Running? || pc.Ran? || pc.Uncounted? }

  ghost predicate CounterInv(s: Pool) {
    && s.busy == CountIf(s.workers, IsBusy)
    && |s.popped| == s.completed + CountIf(s.workers, IsUnfinished)
  }

  lemma BusyAreActive(s: Pool)
    ensures CountIf(s.workers, IsBusy) <= Active(s)
  {
    CountMonotone(s.workers, IsBusy, IsActive);
  }

  // The register does not wrap: a worker counted busy is active.
  lemma NoBusyOverflow(s: Pool, w: Worker, pc: WorkerPc)
    requires SizeInv(s) && s.max < SIZE_MOD
    requires w < |s.workers| && s.workers[w].Popped? && pc.Running?
    ensures CountIf(s.workers[w := pc], IsBusy) < SIZE_MOD
  {
    CountUpdate(s.workers, w, pc, IsActive);
    CountMonotone(s.workers[w := pc], IsBusy, IsActive);
  }

  lemma BusyWorkerStep(s: Pool, w: Worker, choice: bool)
    requires SizeInv(s) && s.busy == CountIf(s.workers, IsBusy) && s.max < SIZE_MOD
    requires w < |s.workers| && !s.workers[w].Done?
    ensures var s' := WorkerStep(s, w, choice); s'.busy == CountIf(s'.workers, IsBusy)
  {
    var pc := NextPc(s, s.workers[w], choice);
    CountUpdate(s.workers, w, pc, IsBusy);
    if s.workers[w].Popped? {
      NoBusyOverflow(s, w, pc);
    } else if s.workers[w].Ran? {
      CountZero(s.workers, IsBusy);
    }
  }

  lemma CounterWorkerStep(s: Pool, w: Worker, choice: bool)
    requires SizeInv(s) && CounterInv(s) && s.max < SIZE_MOD
    requires w < |s.workers| && !s.workers[w].Done?
    ensures CounterInv(WorkerStep(s, w, choice))
  {
    BusyWorkerStep(s, w, choice);
    CountUpdate(s.workers, w, NextPc(s, s.workers[w], choice), IsUnfinished);
  }

  lemma CounterManagerStep(s: Pool)
    requires CounterInv(s)
    ensures CounterInv(ManagerStep(s))
  {
    CountAppend(s.workers, PopFor, IsBusy);
    CountAppend(s.workers, PopFor, IsUnfinished);
  }

  lemma CounterStep(s: Pool, e: Event)
    requires s.max < SIZE_MOD && SizeInv(s) && CounterInv(s) && Enabled(s, e)
    ensures CounterInv(Apply(s, e))
  {
    match e
    case WorkerMoves(w, choice) => CounterWorkerStep(s, w, choice);
    case ManagerMoves => CounterManagerStep(s);
    case _ =>
  }

  // ---------------------------------------------------------------- handles

  // Handles nobody has joined yet.
  function Unjoined(s: Pool): seq<Worker> {
    if s.closer.JoinWorkers? && s.closer.next <= |s.handles| then s.handles[s.closer.next..] else s.handles
  }

  function ReapIds(m: ManagerPc): seq<Worker> { if m.Reap? then m.ids else [] }

  // Ids published by retired workers and not yet reaped.
  function Graveyard(s: Pool): seq<Worker> { ReapIds(s.manager) + s.exited }

  // Every thread is either unjoined, with a handle, or joined after it was done.
  ghost predicate JoinInv(s: Pool) {
    && NoDup(Unjoined(s) + s.joined)
    && (forall w: Worker :: w in Unjoined(s) + s.joined <==> w < |s.workers|)
    && (forall w :: w in s.joined ==> w < |s.workers| && s.workers[w].Done?)
    && (s.closer.JoinWorkers? ==> s.closer.next <= |s.handles|)
    && (s.closer.Returned? ==> s.handles == [])
  }

  // Ids to reap belong to retired threads whose handles are still there.
  ghost predicate GraveInv(s: Pool) {
    && NoDup(Graveyard(s))
    && (forall w :: w in Graveyard(s) ==>
          w < |s.workers| && (s.workers[w].Published? || s.workers[w] == Done(true)))
    && (!s.closer.JoinWorkers? && !s.closer.Returned? ==> forall w :: w in Graveyard(s) ==> w in s.handles)
  }

  ghost predicate HandleInv(s: Pool) { JoinInv(s) && GraveInv(s) }

  lemma HandleWorkerStep(s: Pool, w: Worker, choice: bool)
    requires HandleInv(s) && w < |s.workers| && !s.workers[w].Done?
    ensures HandleInv(WorkerStep(s, w, choice))
  {
    var s' := WorkerStep(s, w, choice);
    if s.workers[w].Retired? {
      assert w in Unjoined(s) + s.joined;
      NoDupAppend(Graveyard(s), w);
      assert Graveyard(s') == Graveyard(s) + [w];
    } else {
      assert Graveyard(s') == Graveyard(s);
    }
  }

  lemma HandleSpawnStep(s: Pool)
    requires ControlInv(s) && HandleInv(s) && Spawning(s)
    ensures HandleInv(ManagerStep(s))
  {
    var s' := ManagerStep(s);
    var n := |s.workers|;
    assert Unjoined(s) == s.handles && Unjoined(s') == s.handles + [n];
    SpawnDistinct(s.handles, s.joined, n);
    forall w: Worker ensures w in Unjoined(s') + s'.joined <==> w < |s'.workers| {
      assert w in Unjoined(s') + s'.joined <==> w in Unjoined(s) + s.joined || w == n;
    }
    assert Graveyard(s') == Graveyard(s);
  }

  lemma SpawnDistinct(xs: seq<Worker>, ys: seq<Worker>, n: Worker)
    requires NoDup(xs + ys) && n !in xs + ys
    ensures NoDup(xs + [n] + ys)
  {
    var zs := xs + [n] + ys;
    forall i, j | 0 <= i < j < |zs| ensures zs[i] != zs[j] {
      var i' := if i <= |xs| then i else i - 1;
      var j' := if j <= |xs| then j else j - 1;
      if i != |xs| && j != |xs| {
        assert zs[i] == (xs + ys)[i'] && zs[j] == (xs + ys)[j'];
      }
    }
  }

  // Moving one element from the first part to the end keeps them distinct.
  lemma JoinDistinct(xs: seq<Worker>, xs': seq<Worker>, ys: seq<Worker>, x: Worker)
    requires NoDup(xs + ys) && x in xs
    requires NoDup(xs') && forall y :: y in xs' <==> y in xs && y != x
    ensures NoDup(xs' + (ys + [x]))
    ensures forall y :: y in xs' + (ys + [x]) <==> y in xs + ys
  {
    var zs := xs' + (ys + [x]);
    PartsDistinct(xs, ys);
    forall i, j | 0 <= i < j < |zs| ensures zs[i] != zs[j] {
      if i < |xs'| {
        assert zs[i] in xs';
        if j >= |xs'| { assert zs[j] in ys || zs[j] == x; }
      } else if j == |zs| - 1 {
        assert zs[i] in ys;
      } else {
        assert zs[i] == ys[i - |xs'|] && zs[j] == ys[j - |xs'|];
      }
    }
  }

  lemma PartsDistinct(xs: seq<Worker>, ys: seq<Worker>)
    requires NoDup(xs + ys)
    ensures NoDup(xs) && NoDup(ys)
    ensures forall y :: y in xs ==> y !in ys
  {
    var zs := xs + ys;
    forall i, j | 0 <= i < j < |xs| ensures xs[i] != xs[j] {
      assert zs[i] == xs[i] && zs[j] == xs[j];
    }
    forall i, j | 0 <= i < j < |ys| ensures ys[i] != ys[j] {
      assert zs[|xs| + i] == ys[i] && zs[|xs| + j] == ys[j];
    }
    forall i, j | 0 <= i < |xs| && 0 <= j < |ys| ensures xs[i] != ys[j] {
      assert zs[i] == xs[i] && zs[|xs| + j] == ys[j];
    }
  }

  // Whatever id the manager is about to reap, find_if finds its handle, and the
  // thread behind it has published that id: nothing but its return is left.
  lemma ReapFindsHandle(s: Pool)
    requires ControlInv(s) && HandleInv(s) && s.manager.Reap? && s.manager.ids != []
    ensures var id := s.manager.ids[0];
      && id in s.handles && id < |s.workers|
      && (s.workers[id].Published? || s.workers[id] == Done(true))
  {
    assert Graveyard(s)[0] == s.manager.ids[0];
  }

  lemma ReapJoins(s: Pool)
    requires JoinInv(s) && Reaping(s) && ManagerReady(s) && !s.closer.JoinWorkers? && !s.closer.Returned?
    ensures JoinInv(ManagerStep(s))
    ensures forall w :: w in s.handles && w != s.manager.ids[0] ==> w in ManagerStep(s).handles
  {
    var id, s' := s.manager.ids[0], ManagerStep(s);
    PartsDistinct(s.handles, s.joined);
    WithoutMembers(s.handles, id);
    JoinDistinct(s.handles, s'.handles, s.joined, id);
  }

  // The ids left after the first are reaped have theirs still to come.
  lemma TailOf(xs: seq<Worker>)
    requires NoDup(xs) && xs != []
    ensures NoDup(xs[1..]) && forall w :: w in xs[1..] ==> w in xs && w != xs[0]
  {
  }

  lemma ReapGraves(s: Pool)
    requires GraveInv(s) && Reaping(s) && !s.closer.JoinWorkers? && !s.closer.Returned?
    requires forall w :: w in s.handles && w != s.manager.ids[0] ==> w in ManagerStep(s).handles
    ensures GraveInv(ManagerStep(s))
  {
    TailOf(Graveyard(s));
    assert Graveyard(s)[0] == s.manager.ids[0] && Graveyard(s)[1..] == Graveyard(ManagerStep(s));
  }

  lemma HandleReapStep(s: Pool)
    requires ControlInv(s) && HandleInv(s) && Reaping(s) && ManagerReady(s)
    ensures HandleInv(ManagerStep(s))
  {
    hide JoinInv, GraveInv, ManagerStep;
    ReapJoins(s);
    ReapGraves(s);
  }

  lemma HandleManagerStep(s: Pool)
    requires ControlInv(s) && HandleInv(s) && ManagerReady(s)
    ensures HandleInv(ManagerStep(s))
  {
    if Spawning(s) {
      HandleSpawnStep(s);
    } else if Reaping(s) {
      HandleReapStep(s);
    } else {
      if s.manager.Reap? && s.manager.ids != [] { ReapFindsHandle(s); }
      assert Graveyard(ManagerStep(s)) == Graveyard(s);
    }
  }

  // One more handle joined, in order.
  // The first unjoined thread is over and joined.
  lemma FirstJoined(s: Pool, s': Pool, x: Worker)
    requires JoinInv(s) && Unjoined(s) == [x] + Unjoined(s') && s'.joined == s.joined + [x]
    requires s'.workers == s.workers && x < |s.workers| && s.workers[x].Done?
    requires s'.closer.JoinWorkers? && s'.closer.next <= |s'.handles|
    ensures JoinInv(s')
  {
    var xs := Unjoined(s);
    assert xs[0] == x && xs[1..] == Unjoined(s');
    PartsDistinct(xs, s.joined);
    hide Unjoined;
    JoinDistinct(xs, Unjoined(s'), s.joined, x);
  }

  lemma JoinNext(s: Pool)
    requires JoinInv(s) && CloserReady(s) && s.closer.JoinWorkers? && s.closer.next < |s.handles|
    ensures JoinInv(CloserStep(s))
  {
    var i, s' := s.closer.next, CloserStep(s);
    assert Unjoined(s) == [s.handles[i]] + Unjoined(s');
    hide JoinInv;
    FirstJoined(s, s', s.handles[i]);
  }

  lemma CloserJoins(s: Pool)
    requires JoinInv(s) && CloserReady(s)
    ensures JoinInv(CloserStep(s))
  {
    if s.closer.JoinWorkers? && s.closer.next < |s.handles| {
      JoinNext(s);
    } else {
      assert Unjoined(CloserStep(s)) == Unjoined(s);
    }
  }

  lemma CloserGraves(s: Pool)
    requires GraveInv(s) && CloserReady(s)
    ensures GraveInv(CloserStep(s))
  {
    assert Graveyard(CloserStep(s)) == Graveyard(s);
  }

  lemma HandleCloserStep(s: Pool)
    requires HandleInv(s) && CloserReady(s)
    ensures HandleInv(CloserStep(s))
  {
    hide JoinInv, GraveInv, CloserStep;
    CloserJoins(s);
    CloserGraves(s);
  }

  lemma HandleStep(s: Pool, e: Event)
    requires ControlInv(s) && HandleInv(s) && Enabled(s, e)
    ensures HandleInv(Apply(s, e))
  {
    match e
    case WorkerMoves(w, choice) => HandleWorkerStep(s, w, choice);
    case ManagerMoves => HandleManagerStep(s);
    case CloserMoves => HandleCloserStep(s);
    case _ =>
  }

  // ------------------------------------------------------- all five together

  ghost predicate Inv(s: Pool) {
    ControlInv(s) && SizeInv(s) && TaskInv(s) && CounterInv(s) && HandleInv(s)
  }

  lemma InitInv(s: Pool)
    requires IsInit(s)
    ensures Inv(s)
  {
    assert s.workers == [] && s.handles == [] && s.joined == [] && s.exited == [];
    assert ControlInv(s);
    assert SizeInv(s);
    assert TaskInv(s);
    assert CounterInv(s);
    forall w: Worker ensures w in Unjoined(s) + s.joined <==> w < |s.workers| {
      assert Unjoined(s) + s.joined == [];
    }
  }

  lemma InvStep(s: Pool, e: Event)
    requires Inv(s) && Enabled(s, e)
    ensures Inv(Apply(s, e))
  {
    ControlStep(s, e);
    SizeStep(s, e);
    TaskStep(s, e);
    CounterStep(s, e);
    HandleStep(s, e);
  }

  lemma {:induction false} RunInv(states: seq<Pool>, events: seq<Event>, i: nat)
    requires IsRun(states, events) && i < |states|
    ensures Inv(states[i])
  {
    if i == 0 {
      InitInv(states[0]);
    } else {
      RunInv(states, events, i - 1);
      InvStep(states[i - 1], events[i - 1]);
    }
  }
}
