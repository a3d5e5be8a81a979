// Concrete runs showing that tempting claims about the pool are false: that every
// accepted task is executed, that busy_threads_ <= live_threads_, that
// live_threads_ never wraps, and that a late task's fate is settled at once.
module ThreadPoolWitness {
  import opened Sequences
  import opened ThreadPoolSteps
  import opened ThreadPoolInvariant
  import opened ThreadPoolPaths
  import opened ThreadPoolFate

  // A constructed pool of one core worker, at most max workers, unbounded queue.
  function OneWorker(max: nat): Pool {
    Pool(1, max, 0, true, true, 1, 0, 0, [], false, [PopFor], [0], [],
         LoopTest, Idle, {}, [], [], [], {}, [], None)
  }

  lemma Construct(max: nat)
    requires 1 <= max < SIZE_MOD
    ensures Reachable(OneWorker(max))
  {
    var s := OneWorker(max);
    var s0 := s.(live := 0, workers := [], handles := [], manager := CtorSpawn(0));
    var s1 := s.(live := 0, manager := CtorCount(0));
    var s2 := s.(manager := CtorSpawn(1));
    Start(s0);
    Take(s0, ManagerMoves, s1);
    Take(s1, ManagerMoves, s2);
    Take(s2, ManagerMoves, s);
  }

  lemma Submit(s: Pool, t: Task)
    requires Reachable(s) && s.manager.LoopTest? && s.accepting && !s.queueShut && s.capacity == 0
    requires s.pushing == {} && t !in s.accepted && t !in s.rejected
    ensures Reachable(s.(queue := s.queue + [t], accepted := s.accepted + [t]))
  {
    Take(s, TestAccepting(t), s.(pushing := {t}));
    Take(s.(pushing := {t}), Push(t), s.(queue := s.queue + [t], accepted := s.accepted + [t]));
  }

  // The only worker of a pool that no longer runs finds the queue empty.
  lemma LeaveEmptyPool(s: Pool)
    requires Reachable(s) && s.workers == [PopFor] && s.queue == [] && !s.running && s.mark.None?
    ensures Reachable(s.(workers := [Leaving], mark := Some(|s.accepted|)))
  {
    Take(s, WorkerMoves(0, true), s.(workers := [LoadRunning]));
    Take(s.(workers := [LoadRunning]), WorkerMoves(0, true), s.(workers := [TestEmpty]));
    Take(s.(workers := [TestEmpty]), WorkerMoves(0, true),
         s.(workers := [Leaving], mark := Some(|s.accepted|)));
  }

  // The pool after its only worker left between the clearing of running_ and the
  // push of a submit call that had already passed the accepting_tasks_ test.
  function LateAccepted(t: Task): Pool {
    OneWorker(1).(running := false, closer := Flipped, workers := [Leaving],
                  mark := Some(0), queue := [t], accepted := [t])
  }

  lemma LateAccept(t: Task)
    ensures Reachable(LateAccepted(t))
  {
    var s := OneWorker(1);
    var s1 := s.(pushing := {t});
    var s2 := s1.(running := false, closer := Flipped);
    var s3 := s2.(workers := [Leaving], mark := Some(0));
    Construct(1);
    Take(s, TestAccepting(t), s1);
    Take(s1, CloserMoves, s2);
    LeaveEmptyPool(s2);
    Take(s3, Push(t), LateAccepted(t));
  }

  // The rest of the shutdown, once the only worker and the manager have stopped.
  lemma FinishShutdown(s: Pool)
    requires Reachable(s) && s.workers == [Done(false)] && s.handles == [0] && s.joined == []
    requires s.manager.Stopped? && s.closer.Flipped?
    ensures Reachable(s.(accepting := false, queueShut := true, handles := [], joined := [0],
                         closer := Returned))
  {
    var s1 := s.(accepting := false, closer := AcceptingOff);
    var s2 := s1.(queueShut := true, closer := QueueClosed);
    var s3 := s2.(closer := JoinWorkers(0));
    var s4 := s2.(closer := JoinWorkers(1), joined := [0]);
    Take(s, CloserMoves, s1);
    Take(s1, CloserMoves, s2);
    Take(s2, CloserMoves, s3);
    Take(s3, CloserMoves, s4);
    Take(s4, CloserMoves, s4.(handles := [], closer := Returned));
  }

  // So a task accepted after running_ was cleared can be lost: shutdown returns
  // with it still queued.
  lemma ShutdownCanLoseLateTask(t: Task)
    ensures exists s :: Reachable(s) && s.closer.Returned? && t in s.accepted && t !in s.executed
  {
    LateAccept(t);
    var s := LateAccepted(t);
    var s1 := s.(workers := [Done(false)], live := 0);
    var s2 := s1.(manager := Stopped);
    Take(s, WorkerMoves(0, true), s1);
    Take(s1, ManagerMoves, s2);
    FinishShutdown(s2);
    var s3 := s2.(accepting := false, queueShut := true, handles := [], joined := [0], closer := Returned);
    assert s3.closer.Returned? && t in s3.accepted && t !in s3.executed;
  }

  // Worker w takes the first queued task and is about to run it.
  lemma TakeTask(s: Pool, w: Worker)
    requires Reachable(s) && w < |s.workers| && s.workers[w].PopFor? && s.queue != []
    ensures Reachable(s.(workers := s.workers[w := Running(s.queue[0])], busy := Inc(s.busy),
                         queue := s.queue[1..], popped := s.popped + [s.queue[0]]))
  {
    var s1 := s.(workers := s.workers[w := Popped(s.queue[0])],
                 queue := s.queue[1..], popped := s.popped + [s.queue[0]]);
    Take(s, WorkerMoves(w, true), s1);
    Take(s1, WorkerMoves(w, true), s1.(workers := s.workers[w := Running(s.queue[0])], busy := Inc(s.busy)));
  }

  // The manager reads one pending task and one worker, which is busy.
  lemma ReadLoad(s: Pool)
    requires Reachable(s) && s.manager.LoopTest? && s.running && |s.queue| == 1 && s.live == 1
    ensures Reachable(s.(manager := ReadBusy(1, 1)))
  {
    Take(s, ManagerMoves, s.(manager := SleepTest));
    Take(s.(manager := SleepTest), ManagerMoves, s.(manager := ReadPending));
    Take(s.(manager := ReadPending), ManagerMoves, s.(manager := ReadLive(1)));
    Take(s.(manager := ReadLive(1)), ManagerMoves, s.(manager := ReadBusy(1, 1)));
  }

  lemma DecideToGrow(s: Pool)
    requires Reachable(s) && s.manager.LoopTest? && s.running
    requires |s.queue| == 1 && s.live == 1 && s.busy == 1 && s.max == 2
    ensures Reachable(s.(manager := Create(1)))
  {
    ReadLoad(s);
    Take(s.(manager := ReadBusy(1, 1)), ManagerMoves, s.(manager := Create(1)));
  }

  // One worker runs task 0 and task 1 waits.
  function Loaded(): Pool {
    OneWorker(2).(busy := 1, workers := [Running(0)], popped := [0], queue := [1], accepted := [0, 1])
  }

  lemma Load()
    ensures Reachable(Loaded())
  {
    var s := OneWorker(2);
    Construct(2);
    Submit(s, 0);
    var s1 := s.(queue := [0], accepted := [0]);
    assert Reachable(s1) by { assert [] + [0] == [0]; }
    TakeTask(s1, 0);
    var s2 := s.(busy := 1, workers := [Running(0)], popped := [0], accepted := [0]);
    assert Reachable(s2) by { assert [0][1..] == []; assert [PopFor][0 := Running(0)] == [Running(0)]; }
    Submit(s2, 1);
    assert [0] + [1] == [0, 1] && [] + [1] == [1];
  }

  // The second worker took task 1 before create_worker counted it.
  function Overtaken(): Pool {
    Loaded().(workers := [Running(0), Running(1)], handles := [0, 1], manager := Count(0),
              busy := 2, popped := [0, 1], queue := [])
  }

  lemma Overtake()
    ensures Reachable(Overtaken())
  {
    Load();
    DecideToGrow(Loaded());
    var s := Loaded().(manager := Create(1));
    var s1 := s.(workers := [Running(0), PopFor], handles := [0, 1], manager := Count(0));
    Take(s, ManagerMoves, s1);
    TakeTask(s1, 1);
    assert [1][1..] == [] && [0] + [1] == [0, 1] && [Running(0), PopFor][1 := Running(1)] == [Running(0), Running(1)];
  }

  // So busy_threads_ can exceed live_threads_: the new worker takes a task
  // before create_worker counts it.
  lemma BusyCanExceedLive()
    ensures exists s :: Reachable(s) && s.running && s.busy > s.live
  {
    Overtake();
    assert Overtaken().busy > Overtaken().live;
  }

  // Worker w finishes its task and goes back to pop_for.
  lemma FinishTask(s: Pool, w: Worker, back: seq<WorkerPc>)
    requires Reachable(s) && w < |s.workers| && s.workers[w].Running? && s.busy > 0
    requires back == s.workers[w := PopFor]
    ensures Reachable(s.(workers := back, busy := s.busy - 1, completed := s.completed + 1,
                         executed := s.executed + [s.workers[w].task]))
  {
    var s1 := s.(workers := s.workers[w := Ran], executed := s.executed + [s.workers[w].task]);
    var s2 := s1.(workers := s.workers[w := Uncounted], busy := s.busy - 1);
    Take(s, WorkerMoves(w, true), s1);
    Take(s1, WorkerMoves(w, true), s2);
    Take(s2, WorkerMoves(w, true), s2.(workers := back, completed := s.completed + 1));
  }

  // Both workers are idle again, and the second is still not counted.
  function Uncounted2(): Pool {
    Overtaken().(workers := [PopFor, PopFor], busy := 0, completed := 2, executed := [0, 1])
  }

  lemma FinishBoth()
    ensures Reachable(Uncounted2())
  {
    var s := Overtaken();
    Overtake();
    FinishTask(s, 0, [PopFor, Running(1)]);
    var s1 := s.(workers := [PopFor, Running(1)], busy := 1, completed := 1, executed := [0]);
    assert Reachable(s1);
    FinishTask(s1, 1, [PopFor, PopFor]);
    assert [0] + [1] == [0, 1];
  }

  // An idle worker of a closed pool finds the queue empty.
  lemma FindEmpty(s: Pool, w: Worker, left: seq<WorkerPc>, mark: Option<nat>)
    requires Reachable(s) && !s.running && s.queue == [] && w < |s.workers| && s.workers[w].PopFor?
    requires left == s.workers[w := Leaving] && mark == (if s.mark.None? then Some(|s.accepted|) else s.mark)
    ensures Reachable(s.(workers := left, mark := mark))
  {
    var s1, s2 := s.(workers := s.workers[w := LoadRunning]), s.(workers := s.workers[w := TestEmpty]);
    Take(s, WorkerMoves(w, true), s1);
    Take(s1, WorkerMoves(w, true), s2);
    Take(s2, WorkerMoves(w, true), s.(workers := left, mark := mark));
  }

  // Both workers have gone before the manager counts the second.
  lemma GoneUncounted(s: Pool, last: Pool)
    requires s == Uncounted2().(running := false, closer := Flipped) && Reachable(s)
    requires last == s.(workers := [Done(false), Done(false)], mark := Some(2), live := SIZE_MOD - 1)
    ensures Reachable(last)
  {
    var s1 := s.(workers := [Leaving, PopFor], mark := Some(2));
    var s2 := s.(workers := [Leaving, Leaving], mark := Some(2));
    var s3 := s.(workers := [Done(false), Leaving], mark := Some(2), live := 0);
    FindEmpty(s, 0, s1.workers, Some(2));
    FindEmpty(s1, 1, s2.workers, Some(2));
    Take(s2, WorkerMoves(0, true), s3);
    Take(s3, WorkerMoves(1, true), last);
  }

  // So live_threads_ can wrap: both workers leave, and are subtracted, before the
  // manager adds the second.
  lemma LiveCanWrap()
    ensures exists s :: Reachable(s) && s.live == SIZE_MOD - 1 && Active(s) == 0
  {
    FinishBoth();
    var s := Uncounted2().(running := false, closer := Flipped);
    Take(Uncounted2(), CloserMoves, s);
    var last := s.(workers := [Done(false), Done(false)], mark := Some(2), live := SIZE_MOD - 1);
    GoneUncounted(s, last);
    CountZero(last.workers, IsActive);
  }

  // ------------------------------------------------------ an undecided fate

  // The first worker is leaving the closed pool, the second has timed out in
  // pop_for, and a late task t is queued.
  function Undecided(t: Task): Pool {
    Uncounted2().(running := false, closer := Flipped, manager := Create(0), live := 2,
                  workers := [Leaving, LoadRunning], mark := Some(2), queue := [t], accepted := [0, 1, t])
  }

  lemma ReachUndecided(t: Task)
    requires t > 1
    ensures Reachable(Undecided(t))
  {
    var s := Uncounted2();
    FinishBoth();
    var s1 := s.(manager := Create(0), live := 2);
    Take(s, ManagerMoves, s1);
    var s2 := s1.(pushing := {t});
    Take(s1, TestAccepting(t), s2);
    var s3 := s2.(running := false, closer := Flipped);
    Take(s2, CloserMoves, s3);
    LatePush(s3, t);
  }

  lemma LatePush(s: Pool, t: Task)
    requires t > 1 && Reachable(s)
    requires s == Uncounted2().(manager := Create(0), live := 2, pushing := {t}, running := false, closer := Flipped)
    ensures Reachable(Undecided(t))
  {
    var s1 := s.(workers := [Leaving, PopFor], mark := Some(2));
    var s2 := s.(workers := [Leaving, LoadRunning], mark := Some(2));
    FindEmpty(s, 0, s1.workers, Some(2));
    Take(s1, WorkerMoves(1, true), s2);
    Take(s2, Push(t), Undecided(t));
  }

  lemma NeitherWay(t: Task)
    ensures !QueueServed(Undecided(t)) && !QueueDeserted(Undecided(t))
  {
    var ws: seq<WorkerPc> := [Leaving, LoadRunning];
    assert Undecided(t).workers == ws && ws[..1] == [Leaving] && [Leaving][..0] == [];
    assert CountIf([Leaving], IsLeaving) == 1 && CountIf([Leaving], IsStaying) == 0;
  }

  // The fate of a late task is not always settled: one and the same reachable state
  // leads to a served queue and to a deserted one, both with the task in it.
  lemma LateTaskUndecided(t: Task)
    requires t > 1
    ensures exists x ::
      && Reachable(x) && !x.running && t in x.queue && !QueueServed(x) && !QueueDeserted(x)
      && (exists y :: Leads(x, y) && t in y.queue && QueueServed(y))
      && (exists z :: Leads(x, z) && t in z.queue && QueueDeserted(z))
  {
    var x := Undecided(t);
    ReachUndecided(t);
    ReachableInv(x);
    NeitherWay(t);
    Start(x);
    var y := Rescue(x, x, t);
    var z := Desert(x, x, t);
  }
}
